/**
 * The state logic of `NovelForm`: the tag list (custom tags, deletion, the
 * select's value), validation and submission, and the cover-URL defaulting
 * from `initialData`. The form's `tags` may hold a string as well as an
 * array, and each handler treats the string case its own way.
 */
module NovelForm {
  import opened Wrappers
  import opened Text
  import opened Lists
  import opened NovelDefine

  /** The form's local copy of `PRESET_TAGS`. */
  const FormPresetTags: seq<TagPreset> := [
    TagPreset("hot", "热门", "#f44336"),
    TagPreset("new", "新书", "#2196f3"),
    TagPreset("recommended", "推荐", "#4caf50"),
    TagPreset("completed", "完结", "#ff9800"),
    TagPreset("ongoing", "连载", "#9c27b0")]

  /** The local copy is the shared list, entry for entry. */
  lemma PresetTagsCopyAgrees()
    ensures FormPresetTags == PresetTags
  {
  }

  /** The form's fields. `TagOther` stands for a missing or `null` tags
      value. */
  datatype FormData = FormData(
    title: string,
    author: string,
    category: string,
    tags: TagsValue,
    description: string,
    coverUrl: string)

  /** `[...s]`: the characters of a string, each as a one-character string. */
  function Chars(s: string): (cs: seq<string>)
    ensures |cs| == |s|
    ensures forall i :: 0 <= i < |s| ==> cs[i] == [s[i]]
  {
    seq(|s|, i requires 0 <= i < |s| => [s[i]])
  }

  /** `tags?.includes(t)`: membership for an array, substring search for a
      string, and false for a missing value. */
  predicate TagsInclude(tags: TagsValue, t: string)
  {
    match tags
    case TagList(items) => t in items
    case TagText(text) => Includes(text, t)
    case TagOther => false
  }

  /** `[...(tags || []), t]`: an array is extended, a non-empty string is
      spread into its characters first, and an empty or missing value starts
      from nothing. */
  function AppendTag(tags: TagsValue, t: string): (r: seq<string>)
    ensures |r| >= 1 && r[|r| - 1] == t
  {
    match tags
    case TagList(items) => items + [t]
    case TagText(text) => Chars(text) + [t]
    case TagOther => [t]
  }

  /** The form and the custom-tag input together. */
  datatype TagEditor = TagEditor(form: FormData, customTag: string)

  /** `handleAddCustomTag`, as written: the trimmed input is appended and the
      input cleared when it is non-empty and not already included; otherwise
      nothing changes. */
  function AddCustomTag(st: TagEditor): (r: TagEditor)
    ensures var t := Trim(st.customTag);
      t != "" && !TagsInclude(st.form.tags, t) ==>
        r.customTag == "" && r.form == st.form.(tags := TagList(AppendTag(st.form.tags, t)))
    ensures var t := Trim(st.customTag);
      t == "" || TagsInclude(st.form.tags, t) ==> r == st
  {
    var t := Trim(st.customTag);
    if t != "" && !TagsInclude(st.form.tags, t) then
      TagEditor(st.form.(tags := TagList(AppendTag(st.form.tags, t))), "")
    else st
  }

  /** For an array of tags, adding a custom tag keeps the tags free of
      duplicates, keeps every tag and adds the trimmed input exactly when it
      was missing and not blank. */
  lemma AddCustomTagNoDuplicates(st: TagEditor, items: seq<string>)
    requires st.form.tags == TagList(items) && NoDup(items)
    ensures AddCustomTag(st).form.tags.TagList?
    ensures NoDup(AddCustomTag(st).form.tags.items)
    ensures forall x :: x in items ==> x in AddCustomTag(st).form.tags.items
    ensures !IsBlank(st.customTag) ==> Trim(st.customTag) in AddCustomTag(st).form.tags.items
    ensures IsBlank(st.customTag) ==> AddCustomTag(st) == st
  {
    TrimEmptyIffBlank(st.customTag);
  }

  /** With a non-empty string of tags that does not contain an input that
      is already trimmed (no white space at either end), the input is appended after the string's characters, one tag
      per character. */
  lemma AddCustomTagSpreadsString(form: FormData, text: string, t: string)
    requires form.tags == TagText(text) && text != ""
    requires t != "" && t[0] !in Whitespace && t[|t| - 1] !in Whitespace && !Includes(text, t)
    ensures AddCustomTag(TagEditor(form, t)) == TagEditor(form.(tags := TagList(Chars(text) + [t])), "")
  {
    TrimUnpadded(t);
  }

  /** The input of the counterexample: the tags "aa" and the custom tag
      "b". */
  const ExampleTags := "aa"
  const ExampleTag := "b"

  /** "b" neither starts nor ends with white space. */
  lemma ExampleInputUnpadded()
    ensures ExampleTag != "" && ExampleTag[0] !in Whitespace && ExampleTag[|ExampleTag| - 1] !in Whitespace
  {
    assert 'b' !in Whitespace;
  }

  /** "b" does not occur in "aa". */
  lemma ExampleInputAbsent()
    ensures !Includes(ExampleTags, ExampleTag)
  {
    assert !StartsWith("", "b");
    assert !Includes("", "b");
    assert "a"[..1][0] == 'a' && "b"[0] == 'b';
    assert !StartsWith("a", "b");
    assert "a"[1..] == "";
    assert !Includes("a", "b");
    assert "aa"[..1][0] == 'a';
    assert !StartsWith("aa", "b");
    assert "aa"[1..] == "a";
  }

  /** The spreading breaks the no-duplicates property: a string of tags
      whose first two characters are equal yields two equal tags. */
  lemma AddCustomTagSpreadDuplicates(form: FormData, text: string, t: string)
    requires form.tags == TagText(text) && |text| >= 2 && text[0] == text[1]
    requires t != "" && t[0] !in Whitespace && t[|t| - 1] !in Whitespace && !Includes(text, t)
    ensures AddCustomTag(TagEditor(form, t)).form.tags.TagList?
    ensures !NoDup(AddCustomTag(TagEditor(form, t)).form.tags.items)
  {
    AddCustomTagSpreadsString(form, text, t);
    CharsRepeat(text, t);
  }

  /** Spreading a string whose first two characters are equal repeats a
      tag. */
  lemma CharsRepeat(text: string, t: string)
    requires |text| >= 2 && text[0] == text[1]
    ensures !NoDup(Chars(text) + [t])
  {
    var items := Chars(text) + [t];
    assert items[0] == [text[0]] && items[1] == [text[1]];
  }

  /** The concrete case: adding "b" to the tags "aa" gives the tags "a",
      "a", "b", with a duplicate. */
  lemma AddCustomTagDuplicates(form: FormData)
    requires form.tags == TagText(ExampleTags)
    ensures AddCustomTag(TagEditor(form, ExampleTag)).form.tags == TagList(["a", "a", "b"])
    ensures !NoDup(AddCustomTag(TagEditor(form, ExampleTag)).form.tags.items)
  {
    ExampleInputUnpadded();
    ExampleInputAbsent();
    AddCustomTagSpreadsString(form, ExampleTags, ExampleTag);
    var items := Chars(ExampleTags) + [ExampleTag];
    assert items == ["a", "a", "b"];
    assert items[0] == items[1];
  }

  /** The array a string of tags evidently stands for, as `handleDeleteTag`
      reads it: comma-separated, each piece trimmed, blanks dropped; a missing
      or empty value is no tags. */
  function TagArray(tags: TagsValue): (arr: seq<string>)
    ensures tags.TagList? ==> arr == tags.items
    ensures tags.TagOther? ==> arr == []
    ensures tags.TagText? ==> forall k :: 0 <= k < |arr| ==> arr[k] != ""
  {
    match tags
    case TagList(items) => items
    case TagText(text) =>
      if text == "" then []
      else
        var arr := Filter(TrimAll(Split(text, {','})), t => t != "");
        assert forall k :: 0 <= k < |arr| ==> arr[k] != "" by {
          forall k | 0 <= k < |arr| ensures arr[k] != "" {
            assert arr[k] in arr;
          }
        }
        arr
    case TagOther => []
  }

  /** Every string trimmed. */
  function TrimAll(pieces: seq<string>): (r: seq<string>)
    ensures |r| == |pieces|
    ensures forall k :: 0 <= k < |r| ==> r[k] == Trim(pieces[k])
  {
    seq(|pieces|, k requires 0 <= k < |pieces| => Trim(pieces[k]))
  }

  /** `handleAddCustomTag` with a string of tags read as `TagArray` reads it:
      the trimmed input is appended to the tags the string stands for when it
      is not blank and not one of them. */
  function AddCustomTagIntended(st: TagEditor): (r: TagEditor)
    ensures var t := Trim(st.customTag);
      t != "" && t !in TagArray(st.form.tags) ==>
        r.customTag == "" && r.form == st.form.(tags := TagList(TagArray(st.form.tags) + [t]))
    ensures var t := Trim(st.customTag);
      t == "" || t in TagArray(st.form.tags) ==> r == st
  {
    var t := Trim(st.customTag);
    var arr := TagArray(st.form.tags);
    if t != "" && t !in arr then TagEditor(st.form.(tags := TagList(arr + [t])), "") else st
  }

  /** Whatever form the tags take, the corrected handler adds no duplicate
      of a tag already present, keeps every tag, and leaves an array of tags
      handled exactly as the original does. */
  lemma AddCustomTagIntendedKeepsTags(st: TagEditor)
    ensures var r := AddCustomTagIntended(st);
      r != st ==> r.form.tags.TagList? && (NoDup(TagArray(st.form.tags)) ==> NoDup(r.form.tags.items))
    ensures var r := AddCustomTagIntended(st);
      r != st ==> forall x :: x in TagArray(st.form.tags) ==> x in r.form.tags.items
    ensures st.form.tags.TagList? ==> AddCustomTagIntended(st) == AddCustomTag(st)
    ensures AddCustomTagIntended(AddCustomTagIntended(st)) == AddCustomTagIntended(st)
  {
    var r := AddCustomTagIntended(st);
    if r != st {
      var t := Trim(st.customTag);
      var arr := TagArray(st.form.tags);
      assert r.form.tags.items == arr + [t];
      assert TagArray(r.form.tags) == arr + [t];
      TrimOfEmpty();
    }
  }

  /** The empty input trims to nothing. */
  lemma TrimOfEmpty()
    ensures Trim("") == ""
  {
  }

  /** `handleDeleteTag`: the tags (read as `TagArray` reads them) without any
      occurrence of the deleted one, the others kept in order. */
  function DeleteTag(form: FormData, tag: string): (r: FormData)
    ensures r == form.(tags := r.tags) && r.tags.TagList?
    ensures tag !in r.tags.items
    ensures forall x :: x != tag ==> multiset(r.tags.items)[x] == multiset(TagArray(form.tags))[x]
    ensures IsSubsequence(r.tags.items, TagArray(form.tags))
  {
    form.(tags := TagList(RemoveAll(TagArray(form.tags), tag)))
  }

  /** Deleting a tag that is not there leaves an array of tags as it was, and
      deleting twice is deleting once. */
  lemma DeleteTagIdempotent(form: FormData, tag: string)
    ensures DeleteTag(DeleteTag(form, tag), tag) == DeleteTag(form, tag)
    ensures form.tags.TagList? && tag !in form.tags.items ==> DeleteTag(form, tag) == form
  {
    RemoveAllAbsent(RemoveAll(TagArray(form.tags), tag), tag);
    if form.tags.TagList? && tag !in form.tags.items {
      RemoveAllAbsent(form.tags.items, tag);
    }
  }

  /** `handleTagsChange`: a string value from the select is split on commas
      (no trimming, no dropping), an array is taken as it is. */
  function TagsChange(form: FormData, value: TagsValue): (r: FormData)
    requires !value.TagOther?
    ensures r == form.(tags := r.tags) && r.tags.TagList?
    ensures value.TagList? ==> r.tags == value
    ensures value.TagText? ==> |r.tags.items| >= 1 && Join(r.tags.items, ',') == value.text
  {
    match value
    case TagText(text) =>
      JoinInvertsSplit(text, ',');
      form.(tags := TagList(Split(text, {','})))
    case TagList(items) => form.(tags := value)
  }

  /** Tags without commas survive being joined and chosen again as a
      string. */
  lemma TagsChangeInvertsJoin(form: FormData, tags: seq<string>)
    requires |tags| >= 1
    requires forall k :: 0 <= k < |tags| ==> NoneOf(tags[k], {','})
    ensures TagsChange(form, TagText(Join(tags, ','))).tags == TagList(tags)
  {
    SplitInvertsJoin(tags, ',', {','});
  }

  /** The value the tag select shows: an array as it is, a non-empty string
      split on commas and trimmed (blanks kept), otherwise nothing. */
  function SelectedTags(tags: TagsValue): (shown: seq<string>)
    ensures tags.TagList? ==> shown == tags.items
    ensures tags.TagOther? || tags == TagText("") ==> shown == []
    ensures tags.TagText? && tags.text != "" ==> shown == TrimAll(Split(tags.text, {','}))
  {
    match tags
    case TagList(items) => items
    case TagText(text) => if text == "" then [] else TrimAll(Split(text, {','}))
    case TagOther => []
  }

  /** The select shows what deletion works on, apart from the blanks
      deletion drops. */
  lemma SelectedTagsAgreeWithDelete(tags: TagsValue)
    ensures tags.TagText? ==> TagArray(tags) == Filter(SelectedTags(tags), t => t != "")
  {
  }

  /** The caption of a selected tag's chip: the preset's label, or the value
      itself for a custom tag. */
  function TagCaption(value: string): string
  {
    TagCaptionFrom(FormPresetTags, value)
  }

  /** `PRESET_TAGS.find(t => t.value === value)`, then its label or the value. */
  function TagCaptionFrom(presets: seq<TagPreset>, value: string): (c: string)
    ensures (forall t :: t in presets ==> t.value != value) ==> c == value
    ensures (exists t :: t in presets && t.value == value) ==> exists t :: t in presets && t.value == value && c == t.caption
    decreases |presets|
  {
    if presets == [] then value
    else if presets[0].value == value then presets[0].caption
    else
      var c := TagCaptionFrom(presets[1..], value);
      assert forall t :: t in presets[1..] ==> t in presets;
      c
  }

  /** A chip shows the shared label of a preset tag and a custom tag's own
      text. */
  lemma TagCaptionUsesLabels(value: string)
    ensures value in TagLabels() ==> TagCaption(value) == TagLabels()[value]
    ensures value !in TagLabels() ==> TagCaption(value) == value
  {
    PresetTagsCopyAgrees();
    TagLabelsTable();
    var c := TagCaptionFrom(PresetTags, value);
    assert TagCaption(value) == c;
    if value in TagLabels() {
      var u :| u in PresetTags && u.value == value && c == u.caption;
    }
  }

  /** The outcome of `validateForm`: valid, or the alert of the first check
      that failed. */
  datatype Validation = Valid | Invalid(alert: string)

  const TitleAlert := "请输入小说标题"
  const AuthorAlert := "请输入作者名称"
  const CategoryAlert := "请选择小说分类"

  /** `validateForm`: title, then author (both must hold more than white
      space), then category (must be non-empty); the first failure is
      reported. */
  function ValidateForm(form: FormData): (v: Validation)
    ensures v.Valid? <==> !IsBlank(form.title) && !IsBlank(form.author) && form.category != ""
    ensures IsBlank(form.title) ==> v == Invalid(TitleAlert)
    ensures !IsBlank(form.title) && IsBlank(form.author) ==> v == Invalid(AuthorAlert)
    ensures !IsBlank(form.title) && !IsBlank(form.author) && form.category == "" ==> v == Invalid(CategoryAlert)
  {
    TrimEmptyIffBlank(form.title);
    TrimEmptyIffBlank(form.author);
    if Trim(form.title) == "" then Invalid(TitleAlert)
    else if Trim(form.author) == "" then Invalid(AuthorAlert)
    else if form.category == "" then Invalid(CategoryAlert)
    else Valid
  }

  /** `handleSubmit`: the form is handed to `onSubmit` exactly when it is
      valid, unchanged. */
  function HandleSubmit(form: FormData): (submitted: Option<FormData>)
    ensures submitted.Some? <==> ValidateForm(form).Valid?
    ensures submitted.Some? ==> submitted.value == form
  {
    if ValidateForm(form).Valid? then Some(form) else None
  }

  /** Only the trimmed content matters for validation: padding the title
      and the author with white space gives the same outcome, the same alert
      included. */
  lemma ValidationIgnoresPadding(form: FormData, pad: string)
    requires IsBlank(pad)
    ensures ValidateForm(form.(title := pad + form.title + pad, author := pad + form.author + pad)) == ValidateForm(form)
  {
    BlankPadded(form.title, pad);
    BlankPadded(form.author, pad);
  }

  /** `initialData`: the fields it supplies (`None` for an absent key) and the
      server's `cover_image`. */
  datatype InitialData = InitialData(
    title: Option<string>,
    author: Option<string>,
    category: Option<string>,
    tags: Option<TagsValue>,
    description: Option<string>,
    coverUrl: Option<string>,
    coverImage: Option<string>)

  /** The cover URL the `initialData` effect settles on: `cover_url` when it
      is non-empty, else a non-empty `cover_image`, else the empty string. */
  function SyncedCoverUrl(init: InitialData): (url: string)
    ensures init.coverUrl.Some? && init.coverUrl.value != "" ==> url == init.coverUrl.value
    ensures !(init.coverUrl.Some? && init.coverUrl.value != "") && init.coverImage.Some? ==> url == init.coverImage.value
    ensures !(init.coverUrl.Some? && init.coverUrl.value != "") && init.coverImage.None? ==> url == ""
  {
    if init.coverUrl.Some? && init.coverUrl.value != "" then init.coverUrl.value
    else if init.coverImage.Some? && init.coverImage.value != "" then init.coverImage.value
    else ""
  }

  /** The `initialData` effect: every supplied field overrides the form's,
      and the cover URL is the synced one. */
  function SyncInitialData(prev: FormData, init: InitialData): (r: FormData)
    ensures r.coverUrl == SyncedCoverUrl(init)
    ensures r.title == init.title.GetOr(prev.title) && r.author == init.author.GetOr(prev.author)
    ensures r.category == init.category.GetOr(prev.category) && r.tags == init.tags.GetOr(prev.tags)
    ensures r.description == init.description.GetOr(prev.description)
  {
    FormData(
      init.title.GetOr(prev.title),
      init.author.GetOr(prev.author),
      init.category.GetOr(prev.category),
      init.tags.GetOr(prev.tags),
      init.description.GetOr(prev.description),
      SyncedCoverUrl(init))
  }

  /** The form's first state: empty fields, the cover taken from a non-empty
      `cover_image` only when `cover_url` is absent, then every supplied field. */
  function InitialForm(init: InitialData): (r: FormData)
    ensures init.coverUrl.Some? ==> r.coverUrl == init.coverUrl.value
    ensures init.coverUrl.None? && init.coverImage.Some? && init.coverImage.value != "" ==> r.coverUrl == init.coverImage.value
    ensures init.coverUrl.None? && !(init.coverImage.Some? && init.coverImage.value != "") ==> r.coverUrl == ""
    ensures r.title == init.title.GetOr("") && r.tags == init.tags.GetOr(TagList([]))
  {
    var cover :=
      if init.coverUrl.Some? then init.coverUrl.value
      else if init.coverImage.Some? && init.coverImage.value != "" then init.coverImage.value
      else "";
    FormData(
      init.title.GetOr(""),
      init.author.GetOr(""),
      init.category.GetOr(""),
      init.tags.GetOr(TagList([])),
      init.description.GetOr(""),
      cover)
  }

  /** The first state and the effect agree on the cover except when
      `cover_url` is supplied empty and `cover_image` is not: the first state
      keeps the empty URL, the effect falls back to the image. */
  lemma CoverUrlSources(init: InitialData, prev: FormData)
    ensures InitialForm(init).coverUrl != SyncInitialData(prev, init).coverUrl <==>
      init.coverUrl == Some("") && init.coverImage.Some? && init.coverImage.value != ""
  {
  }
}
