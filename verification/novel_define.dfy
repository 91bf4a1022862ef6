/**
 * The novel vocabulary shared by the novel pages: the status enumeration,
 * the category and preset-tag option lists and the value-to-label maps built
 * from them with `Object.fromEntries`, and the `Novel` record.
 */
module NovelDefine {
  import opened Wrappers
  import opened Lists

  /** `NovelStatus`. */
  datatype NovelStatus = Draft | Publishing | Completed | Paused | Deleted

  /** The string each status stands for. */
  function StatusValue(s: NovelStatus): string
  {
    match s
    case Draft => "draft"
    case Publishing => "publishing"
    case Completed => "completed"
    case Paused => "paused"
    case Deleted => "deleted"
  }

  /** `Object.values(NovelStatus)`, in declaration order. */
  const StatusValues: seq<string> := ["draft", "publishing", "completed", "paused", "deleted"]

  /** The status a string stands for, if any. */
  function ParseStatus(v: string): (r: Option<NovelStatus>)
    ensures r.Some? <==> v in StatusValues
    ensures r.Some? ==> StatusValue(r.value) == v
  {
    if v == "draft" then Some(Draft)
    else if v == "publishing" then Some(Publishing)
    else if v == "completed" then Some(Completed)
    else if v == "paused" then Some(Paused)
    else if v == "deleted" then Some(Deleted)
    else None
  }

  /** The five statuses have five distinct values, and reading a status's
      value back gives the status. */
  lemma StatusValuesDistinct(s: NovelStatus, t: NovelStatus)
    ensures |StatusValues| == 5 && NoDup(StatusValues)
    ensures StatusValue(s) in StatusValues
    ensures ParseStatus(StatusValue(s)) == Some(s)
    ensures StatusValue(s) == StatusValue(t) ==> s == t
  {
    assert ParseStatus(StatusValue(t)) == Some(t);
  }

  /** An option of a select list. */
  datatype Choice = Choice(value: string, caption: string)

  /** A preset tag, with its chip colour. */
  datatype TagPreset = TagPreset(value: string, caption: string, color: string)

  /** `CATEGORIES`. */
  const Categories: seq<Choice> := [
    Choice("fantasy", "奇幻"),
    Choice("romance", "言情"),
    Choice("mystery", "悬疑"),
    Choice("scifi", "科幻"),
    Choice("historical", "历史"),
    Choice("urban", "都市"),
    Choice("martial", "武侠"),
    Choice("game", "游戏"),
    Choice("other", "其他")]

  /** `PRESET_TAGS`. */
  const PresetTags: seq<TagPreset> := [
    TagPreset("hot", "热门", "#f44336"),
    TagPreset("new", "新书", "#2196f3"),
    TagPreset("recommended", "推荐", "#4caf50"),
    TagPreset("completed", "完结", "#ff9800"),
    TagPreset("ongoing", "连载", "#9c27b0")]

  /** The first components of a list of entries. */
  function Keys(entries: seq<(string, string)>): (ks: seq<string>)
    ensures |ks| == |entries|
    ensures forall i :: 0 <= i < |entries| ==> ks[i] == entries[i].0
  {
    seq(|entries|, i requires 0 <= i < |entries| => entries[i].0)
  }

  /** `entries[i]` is the last entry with its key. */
  predicate LastWithKey(entries: seq<(string, string)>, i: int)
    requires 0 <= i < |entries|
  {
    forall j :: i < j < |entries| ==> entries[j].0 != entries[i].0
  }

  /** `Object.fromEntries(entries)`: every key of an entry is a key of the
      map, no other key is, and each key maps to the value of its last entry. */
  function FromEntries(entries: seq<(string, string)>): (m: map<string, string>)
    ensures forall k :: k in m <==> k in Keys(entries)
    ensures forall i :: 0 <= i < |entries| && LastWithKey(entries, i) ==> m[entries[i].0] == entries[i].1
    decreases |entries|
  {
    if entries == [] then map[]
    else
      var init := entries[..|entries| - 1];
      var last := entries[|entries| - 1];
      KeysSnoc(init, last);
      assert entries == init + [last];
      LastWithKeyInit(init, last);
      FromEntries(init)[last.0 := last.1]
  }

  /** The keys of a list with one more entry. */
  lemma KeysSnoc(init: seq<(string, string)>, last: (string, string))
    ensures Keys(init + [last]) == Keys(init) + [last.0]
  {
  }

  /** An entry before the last that is the last with its key has a key other
      than the last entry's, and is the last with its key without it. */
  lemma LastWithKeyInit(init: seq<(string, string)>, last: (string, string))
    ensures forall i :: 0 <= i < |init| && LastWithKey(init + [last], i) ==> LastWithKey(init, i) && init[i].0 != last.0
  {
    var all := init + [last];
    forall i | 0 <= i < |init| && LastWithKey(all, i) ensures LastWithKey(init, i) && init[i].0 != last.0 {
      assert all[|init|] == last;
      forall j | i < j < |init| ensures init[j].0 != init[i].0 {
        assert all[j] == init[j];
      }
    }
  }

  /** With distinct keys the map has one key per entry. */
  lemma {:induction false} FromEntriesSize(entries: seq<(string, string)>)
    requires NoDup(Keys(entries))
    ensures |FromEntries(entries)| == |entries|
    decreases |entries|
  {
    if entries != [] {
      var init := entries[..|entries| - 1];
      var last := entries[|entries| - 1];
      assert Keys(init) == Keys(entries)[..|entries| - 1];
      FromEntriesSize(init);
      assert last.0 !in FromEntries(init) by {
        assert Keys(entries)[|entries| - 1] == last.0;
      }
    }
  }

  /** The entries `[c.value, c.label]` of the category list. */
  function CategoryEntries(): (es: seq<(string, string)>)
    ensures |es| == |Categories|
    ensures forall i :: 0 <= i < |Categories| ==> es[i] == (Categories[i].value, Categories[i].caption)
  {
    seq(|Categories|, i requires 0 <= i < |Categories| => (Categories[i].value, Categories[i].caption))
  }

  /** The entries `[t.value, t.label]` of the preset tag list. */
  function TagEntries(): (es: seq<(string, string)>)
    ensures |es| == |PresetTags|
    ensures forall i :: 0 <= i < |PresetTags| ==> es[i] == (PresetTags[i].value, PresetTags[i].caption)
  {
    seq(|PresetTags|, i requires 0 <= i < |PresetTags| => (PresetTags[i].value, PresetTags[i].caption))
  }

  /** `CATEGORY_LABELS`. */
  function CategoryLabels(): map<string, string>
  {
    FromEntries(CategoryEntries())
  }

  /** `TAG_LABELS`. */
  function TagLabels(): map<string, string>
  {
    FromEntries(TagEntries())
  }

  /** With distinct keys every entry is the last with its key. */
  lemma DistinctKeysAreLast(entries: seq<(string, string)>)
    requires NoDup(Keys(entries))
    ensures forall i :: 0 <= i < |entries| ==> LastWithKey(entries, i)
  {
    forall i, j | 0 <= i < j < |entries| ensures entries[j].0 != entries[i].0 {
      assert Keys(entries)[i] != Keys(entries)[j];
    }
  }

  /** The category values are distinct. */
  lemma CategoryKeysDistinct()
    ensures NoDup(Keys(CategoryEntries()))
  {
    assert Keys(CategoryEntries()) == ["fantasy", "romance", "mystery", "scifi", "historical", "urban", "martial", "game", "other"];
  }

  /** The preset tag values are distinct. */
  lemma TagKeysDistinct()
    ensures NoDup(Keys(TagEntries()))
  {
    assert Keys(TagEntries()) == ["hot", "new", "recommended", "completed", "ongoing"];
  }

  /** `CATEGORY_LABELS` maps each of the nine category values to its label
      and has no other key. */
  lemma CategoryLabelsTable()
    ensures |CategoryLabels()| == 9
    ensures forall c :: c in Categories ==> c.value in CategoryLabels() && CategoryLabels()[c.value] == c.caption
    ensures forall v :: v in CategoryLabels() <==> exists c :: c in Categories && c.value == v
  {
    var es := CategoryEntries();
    CategoryKeysDistinct();
    FromEntriesSize(es);
    DistinctKeysAreLast(es);
    forall v | v in CategoryLabels() ensures exists c :: c in Categories && c.value == v {
      var i :| 0 <= i < |es| && Keys(es)[i] == v;
      assert Categories[i] in Categories;
    }
    forall c | c in Categories ensures c.value in CategoryLabels() && CategoryLabels()[c.value] == c.caption {
      var i :| 0 <= i < |Categories| && Categories[i] == c;
      assert es[i].0 == c.value;
    }
  }

  /** `TAG_LABELS` maps each of the five preset tag values to its label and
      has no other key. */
  lemma TagLabelsTable()
    ensures |TagLabels()| == 5
    ensures forall t :: t in PresetTags ==> t.value in TagLabels() && TagLabels()[t.value] == t.caption
    ensures forall v :: v in TagLabels() <==> exists t :: t in PresetTags && t.value == v
  {
    var es := TagEntries();
    TagKeysDistinct();
    FromEntriesSize(es);
    DistinctKeysAreLast(es);
    forall v | v in TagLabels() ensures exists t :: t in PresetTags && t.value == v {
      var i :| 0 <= i < |es| && Keys(es)[i] == v;
      assert PresetTags[i] in PresetTags;
    }
    forall t | t in PresetTags ensures t.value in TagLabels() && TagLabels()[t.value] == t.caption {
      var i :| 0 <= i < |PresetTags| && PresetTags[i] == t;
      assert es[i].0 == t.value;
    }
  }

  /** A `tags` value as the API or the form may hold it: a comma-style
      string, an array of strings, or something else (missing, `null`, a
      number). */
  datatype TagsValue = TagText(text: string) | TagList(items: seq<string>) | TagOther

  /** `Novel`, with every optional string field read as the empty string
      when missing. */
  datatype Novel = Novel(
    id: string,
    title: string,
    author: string,
    category: string,
    tags: seq<string>,
    status: NovelStatus,
    coverUrl: string,
    description: string,
    wordCount: int,
    chapterCount: int,
    viewCount: int,
    likeCount: int,
    createdAt: string,
    updatedAt: string,
    lastChapterAt: string)
}
