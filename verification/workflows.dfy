/**
 * The list logic of the Workflows page: the request parameters, the
 * defaults applied to the response, the status chip, the filter summary and
 * the pagination count. Row selection is module
 * `Selection`.
 */
module Workflows {
  import opened Wrappers

  /** Rows per page; the page never changes it. */
  const PageSize := 10

  /** The query of the list request. */
  datatype ListParams = ListParams(page: int, pageSize: int, query: Option<string>, status: Option<string>)

  /** The parameters of `fetchWorkflows`: the keyword and the status are sent
      only when non-empty. */
  function Params(page: int, keyword: string, statusFilter: string): (p: ListParams)
    ensures p.page == page && p.pageSize == PageSize
    ensures p.query.None? <==> keyword == ""
    ensures p.status.None? <==> statusFilter == ""
    ensures p.query.GetOr("") == keyword && p.status.GetOr("") == statusFilter
    ensures (p.query.Some? ==> p.query.value != "") && (p.status.Some? ==> p.status.value != "")
  {
    ListParams(page, PageSize,
      if keyword == "" then None else Some(keyword),
      if statusFilter == "" then None else Some(statusFilter))
  }

  /** The `data` of a success envelope: the list and the total, each
      possibly missing. */
  datatype ListData<W> = ListData(list: Option<seq<W>>, total: Option<int>)

  /** A success envelope as the page stores it: `list || []` and
      `total || 0` from its `data`. When `data` itself is missing, reading
      `data.list` throws; the `catch` clause only logs, so the list and the
      total keep their previous values. */
  function ApplyList<W>(data: Option<ListData<W>>, prev: (seq<W>, int)): (r: (seq<W>, int))
    ensures data.None? ==> r == prev
    ensures data.Some? && data.value.list.Some? ==> r.0 == data.value.list.value
    ensures data.Some? && data.value.list.None? ==> r.0 == []
    ensures data.Some? && data.value.total.Some? ==> r.1 == data.value.total.value
    ensures data.Some? && data.value.total.None? ==> r.1 == 0
  {
    match data
    case None => prev
    case Some(d) => (d.list.GetOr([]), d.total.GetOr(0))
  }

  /** Whatever was shown before, a response with `data` fully determines the
      new list and total; one without `data` changes nothing. */
  lemma ApplyListForgetsPrevious<W>(d: ListData<W>, prev1: (seq<W>, int), prev2: (seq<W>, int))
    ensures ApplyList(Some(d), prev1) == ApplyList(Some(d), prev2)
    ensures ApplyList(None, prev1) == prev1
  {
  }

  /** The number of pages, `Math.ceil(total / pageSize)`. The pagination bar
      is rendered only when `total > 0`, so the count is only ever taken of a
      positive total. */
  function PageCount(total: int): (count: nat)
    requires total > 0
    ensures count >= 1
    ensures (count - 1) * PageSize < total <= count * PageSize
  {
    (total + PageSize - 1) / PageSize
  }

  /** The page count is the ceiling: it is the only count whose pages hold
      exactly the total, and every row index falls on one of its pages. */
  lemma PageCountIsCeiling(total: int, c: int)
    requires total > 0
    ensures (c - 1) * PageSize < total <= c * PageSize ==> c == PageCount(total)
    ensures forall i :: 0 <= i < total ==> 1 <= i / PageSize + 1 <= PageCount(total)
  {
  }

  /** The pagination bar: absent for an empty list, otherwise the page
      count. */
  function Pagination(total: int): (bar: Option<nat>)
    ensures bar.Some? <==> total > 0
    ensures bar.Some? ==> bar.value >= 1 && bar.value == PageCount(total)
  {
    if total > 0 then Some(PageCount(total)) else None
  }

  /** The colour of a status chip. */
  datatype ChipColor = Default | Success | Error

  /** What a status chip shows. */
  datatype StatusInfo = StatusInfo(text: string, color: ChipColor)

  const UnknownStatusText := "未知"

  /** `getStatusInfo`: the three workflow statuses and "unknown" for any other
      value. */
  function GetStatusInfo(status: string): (info: StatusInfo)
    ensures info.text == UnknownStatusText <==> status !in ["draft", "active", "inactive"]
    ensures info.color == Success <==> status == "active"
    ensures info.color == Error <==> status == "inactive"
  {
    match status
    case "draft" => StatusInfo("草稿", Default)
    case "active" => StatusInfo("活跃", Success)
    case "inactive" => StatusInfo("停用", Error)
    case _ => StatusInfo(UnknownStatusText, Default)
  }

  /** The three statuses have three different labels. */
  lemma StatusLabelsDistinct(a: string, b: string)
    requires a in ["draft", "active", "inactive"] && b in ["draft", "active", "inactive"]
    ensures GetStatusInfo(a).text == GetStatusInfo(b).text ==> a == b
  {
  }

  /** The row under the filters: present when a keyword or a status filter
      is set, with a chip for each that is. */
  datatype FilterSummary = FilterSummary(keywordChip: Option<string>, statusChip: Option<string>)

  function Summary(keyword: string, statusFilter: string): (s: Option<FilterSummary>)
    ensures s.Some? <==> keyword != "" || statusFilter != ""
    ensures s.Some? ==> (s.value.keywordChip.Some? <==> keyword != "")
    ensures s.Some? ==> (s.value.statusChip.Some? <==> statusFilter != "")
    ensures s.Some? && statusFilter != "" ==>
      s.value.statusChip == Some("状态: " + GetStatusInfo(statusFilter).text)
    ensures s.Some? && keyword != "" ==> s.value.keywordChip == Some("搜索: \"" + keyword + "\"")
  {
    if keyword == "" && statusFilter == "" then None
    else Some(FilterSummary(
      if keyword != "" then Some("搜索: \"" + keyword + "\"") else None,
      if statusFilter != "" then Some("状态: " + GetStatusInfo(statusFilter).text) else None))
  }

  /** The summary describes the request the page sends: it is shown exactly
      when the request carries a filter, it has a keyword chip exactly when
      the query is sent, quoting the sent query, and a status chip exactly
      when the status is sent, naming the sent status. */
  lemma SummaryMatchesParams(page: int, keyword: string, statusFilter: string)
    ensures var p := Params(page, keyword, statusFilter);
      Summary(keyword, statusFilter).Some? <==> p.query.Some? || p.status.Some?
    ensures var p := Params(page, keyword, statusFilter);
      Summary(keyword, statusFilter).Some? ==>
        (Summary(keyword, statusFilter).value.keywordChip.Some? <==> p.query.Some?)
        && (Summary(keyword, statusFilter).value.statusChip.Some? <==> p.status.Some?)
    ensures var p := Params(page, keyword, statusFilter);
      p.query.Some? ==> Summary(keyword, statusFilter).value.keywordChip == Some("搜索: \"" + p.query.value + "\"")
    ensures var p := Params(page, keyword, statusFilter);
      p.status.Some? ==> Summary(keyword, statusFilter).value.statusChip == Some("状态: " + GetStatusInfo(p.status.value).text)
  {
  }
}
