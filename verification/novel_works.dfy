/**
 * The data logic of the NovelWorks page: how a fetched list item becomes a
 * `Novel` (tag splitting, status normalisation, string and number defaults),
 * the list total, the request parameters, the status chip, the tag chips of
 * a card, and the delete handlers. Row selection is module `Selection`.
 */
module NovelWorks {
  import opened Wrappers
  import opened Text
  import opened Lists
  import opened NovelDefine
  import opened Exceptions
  import opened ErrorHandler

  /** The characters of `/[,，;；\s]+/`: ASCII and full-width commas and
      semicolons, and white space. */
  const TagSeparators: set<char> := {',', '，', ';', '；'} + Whitespace

  /** Tag text split on runs of separators with empty pieces dropped.
      Splitting on single separators and dropping the empty pieces gives the
      same list, since a run of separators only adds empty pieces. */
  function SplitTags(s: string): (tags: seq<string>)
    ensures forall k :: 0 <= k < |tags| ==> tags[k] != "" && NoneOf(tags[k], TagSeparators)
    ensures IsSubsequence(tags, Split(s, TagSeparators))
  {
    var pieces := Split(s, TagSeparators);
    var tags := Filter(pieces, t => t != "");
    forall k | 0 <= k < |tags| ensures tags[k] != "" && NoneOf(tags[k], TagSeparators) {
      assert tags[k] in tags;
      var j :| 0 <= j < |pieces| && pieces[j] == tags[k];
      assert NoneOf(pieces[j], TagSeparators);
    }
    tags
  }

  /** Dropping empty pieces does not change their concatenation. */
  lemma {:induction false} ConcatDropsEmpty(pieces: seq<string>)
    ensures Concat(Filter(pieces, t => t != "")) == Concat(pieces)
    decreases |pieces|
  {
    if pieces != [] {
      ConcatDropsEmpty(pieces[1..]);
      if pieces[0] != "" {
        assert Filter(pieces, t => t != "") == [pieces[0]] + Filter(pieces[1..], t => t != "");
        assert ([pieces[0]] + Filter(pieces[1..], t => t != ""))[1..] == Filter(pieces[1..], t => t != "");
      }
    }
  }

  /** Tag splitting loses nothing but separators: the tags glued together are
      the text with every separator deleted. */
  lemma SplitTagsKeepsContent(s: string)
    ensures Concat(SplitTags(s)) == Without(s, TagSeparators)
  {
    ConcatSplit(s, TagSeparators);
    ConcatDropsEmpty(Split(s, TagSeparators));
  }

  /** Tags that are non-empty and free of separators survive being joined
      with commas and split again; an empty text gives no tags. */
  lemma SplitTagsInvertsJoin(tags: seq<string>)
    requires |tags| >= 1
    requires forall k :: 0 <= k < |tags| ==> tags[k] != "" && NoneOf(tags[k], TagSeparators)
    ensures SplitTags(Join(tags, ',')) == tags
    ensures SplitTags("") == []
  {
    SplitInvertsJoin(tags, ',', TagSeparators);
    FilterKeepsAll(tags, t => t != "");
  }

  /** The `tags` field of a mapped item: text is split, an array is kept as
      it is, anything else becomes the empty list. */
  function NormalizeTags(v: TagsValue): (tags: seq<string>)
    ensures v.TagText? ==> tags == SplitTags(v.text)
    ensures v.TagList? ==> tags == v.items
    ensures v.TagOther? ==> tags == []
  {
    match v
    case TagText(text) => SplitTags(text)
    case TagList(items) => items
    case TagOther => []
  }

  /** The `status` field of a mapped item: a status value is kept, anything
      else (including a missing one) becomes draft. */
  function NormalizeStatus(raw: Option<string>): (s: NovelStatus)
    ensures raw.Some? && raw.value in StatusValues ==> StatusValue(s) == raw.value
    ensures !(raw.Some? && raw.value in StatusValues) ==> s == Draft
  {
    if raw.Some? && ParseStatus(raw.value).Some? then ParseStatus(raw.value).value else Draft
  }

  /** Normalisation always yields a status value, leaves a status value as it
      is and is idempotent. */
  lemma NormalizeStatusIdempotent(raw: Option<string>, s: NovelStatus)
    ensures StatusValue(NormalizeStatus(raw)) in StatusValues
    ensures NormalizeStatus(Some(StatusValue(s))) == s
    ensures NormalizeStatus(Some(StatusValue(NormalizeStatus(raw)))) == NormalizeStatus(raw)
  {
    StatusValuesDistinct(s, s);
    StatusValuesDistinct(NormalizeStatus(raw), NormalizeStatus(raw));
  }

  /** An item of the fetched list; `None` stands for a missing or `null`
      field. The numeric fields are taken to be numbers already. */
  datatype RawItem = RawItem(
    id: string,
    title: Option<string>,
    author: Option<string>,
    category: Option<string>,
    tags: TagsValue,
    status: Option<string>,
    coverImage: Option<string>,
    description: Option<string>,
    wordCount: Option<int>,
    totalChapters: Option<int>,
    viewCount: Option<int>,
    likeCount: Option<int>,
    createdAt: Option<string>,
    updatedAt: Option<string>,
    lastChapterAt: Option<string>)

  /** The mapping of one list item: `String(x ?? '')` for the text fields,
      `Number(x ?? 0)` for the counters, the cover from `cover_image` and the
      chapter count from `total_chapters`. */
  function MapItem(item: RawItem): (n: Novel)
    ensures n.id == item.id
    ensures n.title == item.title.GetOr("") && n.author == item.author.GetOr("")
    ensures n.category == item.category.GetOr("") && n.description == item.description.GetOr("")
    ensures n.coverUrl == item.coverImage.GetOr("")
    ensures n.tags == NormalizeTags(item.tags) && n.status == NormalizeStatus(item.status)
    ensures n.wordCount == item.wordCount.GetOr(0) && n.chapterCount == item.totalChapters.GetOr(0)
    ensures n.viewCount == item.viewCount.GetOr(0) && n.likeCount == item.likeCount.GetOr(0)
    ensures n.createdAt == item.createdAt.GetOr("") && n.updatedAt == item.updatedAt.GetOr("")
    ensures n.lastChapterAt == item.lastChapterAt.GetOr("")
  {
    Novel(
      item.id,
      item.title.GetOr(""),
      item.author.GetOr(""),
      item.category.GetOr(""),
      NormalizeTags(item.tags),
      NormalizeStatus(item.status),
      item.coverImage.GetOr(""),
      item.description.GetOr(""),
      item.wordCount.GetOr(0),
      item.totalChapters.GetOr(0),
      item.viewCount.GetOr(0),
      item.likeCount.GetOr(0),
      item.createdAt.GetOr(""),
      item.updatedAt.GetOr(""),
      item.lastChapterAt.GetOr(""))
  }

  /** Mapping is stable: a novel turned back into a list item maps to
      itself. */
  lemma MapItemRoundTrip(n: Novel)
    ensures MapItem(RawItem(n.id, Some(n.title), Some(n.author), Some(n.category), TagList(n.tags),
      Some(StatusValue(n.status)), Some(n.coverUrl), Some(n.description), Some(n.wordCount),
      Some(n.chapterCount), Some(n.viewCount), Some(n.likeCount), Some(n.createdAt),
      Some(n.updatedAt), Some(n.lastChapterAt))) == n
  {
    StatusValuesDistinct(n.status, n.status);
  }

  /** `Number(data.total) || list.length`: the total as sent, unless it is
      missing, not a number or zero, in which case the length of the list. */
  function ListTotal(total: Option<int>, listLength: nat): (t: int)
    ensures total.Some? && total.value != 0 ==> t == total.value
    ensures total.None? || total.value == 0 ==> t == listLength
    ensures t == 0 ==> listLength == 0
  {
    if total.Some? && total.value != 0 then total.value else listLength
  }

  /** The `data` of a success envelope: the list, when it is an array, and
      the total, each possibly missing. */
  datatype ListData = ListData(list: Option<seq<RawItem>>, total: Option<int>)

  /** What a success envelope leaves on the page: the novels, the total and
      the error slot. */
  datatype ListOutcome = ListOutcome(novels: seq<Novel>, total: int, errors: ErrorState)

  /** A success envelope as the page reads it: the list when it is an array,
      otherwise the empty list, and the total. When `data` itself is missing,
      `data?.list` still gives the empty list, but the unguarded read of
      `data.total` then throws; the `TypeError` the engine raises
      (`typeError`) goes to `handleError` and the previous total stays. */
  function ApplyList(data: Option<ListData>, prevTotal: int, s: ErrorState, typeError: Thrown, now: string): (r: ListOutcome)
    ensures data.None? ==> r.novels == [] && r.total == prevTotal && r.errors == HandleError(s, typeError, now)
    ensures data.Some? ==> r.errors == s
    ensures data.Some? && data.value.list.None? ==> r.novels == [] && r.total == ListTotal(data.value.total, 0)
    ensures data.Some? && data.value.list.Some? ==>
      |r.novels| == |data.value.list.value| && r.total == ListTotal(data.value.total, |data.value.list.value|)
    ensures data.Some? && data.value.list.Some? ==> forall i :: 0 <= i < |r.novels| ==> r.novels[i] == MapItem(data.value.list.value[i])
    ensures forall i :: 0 <= i < |r.novels| ==> StatusValue(r.novels[i].status) in StatusValues
  {
    match data
    case None => ListOutcome([], prevTotal, HandleError(s, typeError, now))
    case Some(d) =>
      var items := d.list.GetOr([]);
      var novels := seq(|items|, i requires 0 <= i < |items| => MapItem(items[i]));
      assert forall i :: 0 <= i < |novels| ==> StatusValue(novels[i].status) in StatusValues by {
        forall i | 0 <= i < |novels| ensures StatusValue(novels[i].status) in StatusValues {
          NormalizeStatusIdempotent(items[i].status, Draft);
        }
      }
      ListOutcome(novels, ListTotal(d.total, |items|), s)
  }

  /** `x || undefined`: an empty filter is left out of the request. */
  function OrUndefined(s: string): (r: Option<string>)
    ensures r.None? <==> s == ""
    ensures r.GetOr("") == s
  {
    if s == "" then None else Some(s)
  }

  /** The query of the list request. */
  datatype ListParams = ListParams(
    page: int,
    pageSize: int,
    title: Option<string>,
    author: Option<string>,
    category: Option<string>,
    status: Option<string>)

  /** The parameters of `fetchNovels`: the page, the page size and the four
      filters, each omitted when empty. */
  function Params(page: int, pageSize: int, title: string, author: string, category: string, status: string): (p: ListParams)
    ensures p.page == page && p.pageSize == pageSize
    ensures p.title.None? <==> title == ""
    ensures p.author.None? <==> author == ""
    ensures p.category.None? <==> category == ""
    ensures p.status.None? <==> status == ""
    ensures p.title.GetOr("") == title && p.author.GetOr("") == author
    ensures p.category.GetOr("") == category && p.status.GetOr("") == status
    ensures (p.title.Some? ==> p.title.value != "") && (p.author.Some? ==> p.author.value != "")
    ensures (p.category.Some? ==> p.category.value != "") && (p.status.Some? ==> p.status.value != "")
  {
    ListParams(page, pageSize, OrUndefined(title), OrUndefined(author), OrUndefined(category), OrUndefined(status))
  }

  /** The colour of a status chip. */
  datatype ChipColor = Default | Primary | Success | Warning | Error

  /** What a status chip shows. */
  datatype StatusInfo = StatusInfo(text: string, color: ChipColor)

  const UnknownStatusText := "未知"

  /** `getStatusInfo`: the label and colour of a status value, and "unknown"
      for any other string. */
  function GetStatusInfo(status: string): (info: StatusInfo)
    ensures info.text == UnknownStatusText <==> status !in StatusValues
    ensures status !in StatusValues ==> info.color == Default
    ensures info.color == Primary <==> status == "publishing"
    ensures info.color == Success <==> status == "completed"
    ensures info.color == Warning <==> status == "paused"
    ensures info.color == Error <==> status == "deleted"
  {
    match status
    case "draft" => StatusInfo("草稿", Default)
    case "publishing" => StatusInfo("连载中", Primary)
    case "completed" => StatusInfo("已完结", Success)
    case "paused" => StatusInfo("暂停", Warning)
    case "deleted" => StatusInfo("已删除", Error)
    case _ => StatusInfo(UnknownStatusText, Default)
  }

  /** Distinct statuses get distinct labels, so a label identifies its
      status, and every mapped novel has a known label. */
  lemma StatusInfoDistinct(s: NovelStatus, t: NovelStatus, item: RawItem)
    ensures GetStatusInfo(StatusValue(s)).text == GetStatusInfo(StatusValue(t)).text ==> s == t
    ensures GetStatusInfo(StatusValue(MapItem(item).status)).text != UnknownStatusText
  {
    StatusValuesDistinct(s, t);
    NormalizeStatusIdempotent(item.status, s);
  }

  /** The tag chips of a card: the first three tags and, when there are
      more, a chip counting the rest; nothing for a novel without tags. */
  datatype TagChips = TagChips(shown: seq<string>, more: Option<nat>)

  function CardTags(tags: seq<string>): (c: Option<TagChips>)
    ensures c.None? <==> tags == []
    ensures c.Some? ==> |c.value.shown| == if |tags| < 3 then |tags| else 3
    ensures c.Some? ==> c.value.shown == tags[..|c.value.shown|]
    ensures c.Some? ==> (c.value.more.Some? <==> |tags| > 3)
    ensures c.Some? && c.value.more.Some? ==> c.value.more.value == |tags| - 3
  {
    if tags == [] then None
    else if |tags| > 3 then Some(TagChips(tags[..3], Some(|tags| - 3)))
    else Some(TagChips(tags, None))
  }

  /** The chips account for every tag: the shown ones plus the counted rest. */
  lemma CardTagsAccountForAll(tags: seq<string>)
    requires tags != []
    ensures |CardTags(tags).value.shown| + CardTags(tags).value.more.GetOr(0) == |tags|
  {
  }

  /** The state the delete handlers touch: the error slot, the selected
      ids, the confirmation dialog and the id of the novel it asks about. */
  datatype DeletePage = DeletePage(
    errors: ErrorState,
    selected: seq<string>,
    dialogOpen: bool,
    toDelete: Option<string>)

  /** What a delete handler did: the new page state, the ids sent to the
      delete API (`None` when nothing was sent), the count the success message
      reports, and whether the list is fetched again. */
  datatype DeleteResult = DeleteResult(page: DeletePage, sent: Option<seq<string>>, deletedCount: Option<nat>, refetch: bool)

  /** `handleDelete(novel)`: remember the novel and open the dialog. */
  function HandleDelete(p: DeletePage, id: string): (q: DeletePage)
    ensures q.toDelete == Some(id) && q.dialogOpen
    ensures q.errors == p.errors && q.selected == p.selected
  {
    p.(toDelete := Some(id), dialogOpen := true)
  }

  /** The dialog's cancel button: close the dialog; the remembered novel
      stays. */
  function CancelDelete(p: DeletePage): (q: DeletePage)
    ensures !q.dialogOpen
    ensures q.toDelete == p.toDelete && q.errors == p.errors && q.selected == p.selected
  {
    p.(dialogOpen := false)
  }

  /** `handleBatchDelete`: nothing for an empty selection; otherwise one
      batch call with the selection; on success the selection empties, the
      message counts the deleted novels and the list is fetched again; a
      rejection goes to the error slot and the selection stays. */
  function BatchDelete(p: DeletePage, rejection: Option<Thrown>, now: string): (r: DeleteResult)
    ensures p.selected == [] ==> r == DeleteResult(p, None, None, false)
    ensures p.selected != [] ==> r.sent == Some(p.selected)
    ensures r.page.dialogOpen == p.dialogOpen && r.page.toDelete == p.toDelete
    ensures p.selected != [] && rejection.None? ==>
      r.page.selected == [] && r.deletedCount == Some(|p.selected|) && r.refetch && r.page.errors == p.errors
    ensures p.selected != [] && rejection.Some? ==>
      r.page.selected == p.selected && r.deletedCount.None? && !r.refetch && r.page.errors == HandleError(p.errors, rejection.value, now)
  {
    if p.selected == [] then DeleteResult(p, None, None, false)
    else if rejection.None? then DeleteResult(p.(selected := []), Some(p.selected), Some(|p.selected|), true)
    else DeleteResult(p.(errors := HandleError(p.errors, rejection.value, now)), Some(p.selected), None, false)
  }

  /** `confirmDelete`: without a novel to delete nothing happens (the
      dialog stays as it is); otherwise that novel is deleted, a rejection
      goes to the error slot, and either way the dialog closes and the
      novel is forgotten. The selection is never touched. */
  function ConfirmDelete(p: DeletePage, rejection: Option<Thrown>, now: string): (r: DeleteResult)
    ensures p.toDelete.None? ==> r == DeleteResult(p, None, None, false)
    ensures p.toDelete.Some? ==> r.sent == Some([p.toDelete.value]) && !r.page.dialogOpen && r.page.toDelete.None?
    ensures r.page.selected == p.selected
    ensures p.toDelete.Some? ==> (r.refetch <==> rejection.None?)
    ensures p.toDelete.Some? && rejection.Some? ==> r.page.errors == HandleError(p.errors, rejection.value, now) && r.deletedCount.None?
    ensures p.toDelete.Some? && rejection.None? ==> r.page.errors == p.errors && r.deletedCount == Some(1)
  {
    if p.toDelete.None? then DeleteResult(p, None, None, false)
    else
      var sent := Some([p.toDelete.value]);
      var closed := p.(dialogOpen := false, toDelete := None);
      if rejection.None? then DeleteResult(closed, sent, Some(1), true)
      else DeleteResult(closed.(errors := HandleError(p.errors, rejection.value, now)), sent, None, false)
  }

  /** Only chosen novels are deleted: a batch sends exactly the selection and
      a single delete exactly the novel asked about; a reported count is the
      number of ids sent; a failure leaves the selection as it was. */
  lemma DeletesOnlyChosen(p: DeletePage, rejection: Option<Thrown>, now: string)
    ensures var r := BatchDelete(p, rejection, now);
      (r.sent.Some? ==> forall id :: id in r.sent.value <==> id in p.selected)
      && (r.deletedCount.Some? ==> r.sent.Some? && r.deletedCount.value == |r.sent.value|)
      && (r.deletedCount.None? ==> r.page.selected == p.selected)
    ensures var r := ConfirmDelete(p, rejection, now);
      (r.sent.Some? ==> p.toDelete.Some? && forall id :: id in r.sent.value <==> id == p.toDelete.value)
      && (r.deletedCount.Some? ==> r.sent.Some? && r.deletedCount.value == |r.sent.value|)
  {
  }

  /** Asking to delete a novel and confirming sends exactly that novel; a
      second confirmation, with the novel forgotten, sends nothing. */
  lemma DeleteDialogRoundTrip(p: DeletePage, id: string, r1: Option<Thrown>, r2: Option<Thrown>, now: string)
    ensures ConfirmDelete(HandleDelete(p, id), r1, now).sent == Some([id])
    ensures var q := ConfirmDelete(HandleDelete(p, id), r1, now).page;
      ConfirmDelete(q, r2, now) == DeleteResult(q, None, None, false)
  {
  }

  /** After a successful batch the selection is empty, so pressing the
      button again sends nothing. */
  lemma BatchDeleteOnce(p: DeletePage, now: string, r2: Option<Thrown>)
    requires p.selected != []
    ensures var q := BatchDelete(p, None, now).page;
      BatchDelete(q, r2, now) == DeleteResult(q, None, None, false)
  {
  }
}
