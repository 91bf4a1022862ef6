/**
 * The list logic of the Projects page: the search and status filter, the
 * status chip, the handling of a response envelope, and batch deletion.
 * Row selection is shared with the other list pages (module `Selection`).
 */
module Projects {
  import opened Wrappers
  import opened Text
  import opened Lists
  import opened ErrorCodes
  import opened Exceptions
  import opened ErrorHandler
  import Request

  /** A project row. */
  datatype Project = Project(id: string, name: string, desc: string, status: int)

  /** The project status values. */
  const Serializing := 1
  const Completed := 2

  /** The status filter menu's values. */
  const FilterAll := "all"
  const FilterActive := "active"
  const FilterCompleted := "completed"

  /** `matchesSearch`: the lower-cased name or description contains the
      lower-cased search term. The empty term matches every row, and a term
      equal to the name up to ASCII case matches it. */
  predicate MatchesSearch(p: Project, term: string)
    ensures term == "" ==> MatchesSearch(p, term)
    ensures Lower(term) == Lower(p.name) ==> MatchesSearch(p, term)
  {
    assert Lower(p.name)[..|Lower(p.name)|] == Lower(p.name);
    Includes(Lower(p.name), Lower(term)) || Includes(Lower(p.desc), Lower(term))
  }

  /** `matchesFilter`: every status for "all", one status for each named
      filter, and nothing for any other filter value. Under "active" a row
      matches exactly when its chip reads '进行中', and under "completed"
      exactly when its chip has the success colour. */
  predicate MatchesFilter(filter: string, status: int)
    ensures MatchesFilter(filter, status) ==> filter in {FilterAll, FilterActive, FilterCompleted}
    ensures filter == FilterActive ==> (MatchesFilter(filter, status) <==> StatusChip(status).caption == "进行中")
    ensures filter == FilterCompleted ==> (MatchesFilter(filter, status) <==> StatusChip(status).success)
  {
    filter == FilterAll
    || (filter == FilterActive && status == Serializing)
    || (filter == FilterCompleted && status == Completed)
  }

  /** Whether a row is displayed. */
  predicate Shown(p: Project, term: string, filter: string)
  {
    MatchesSearch(p, term) && MatchesFilter(filter, p.status)
  }

  /** `filteredProjects`: the displayed rows, in list order. */
  function FilteredProjects(projects: seq<Project>, term: string, filter: string): (r: seq<Project>)
    ensures forall p :: p in r <==> p in projects && Shown(p, term, filter)
    ensures IsSubsequence(r, projects)
    ensures |r| <= |projects|
  {
    Filter(projects, p => Shown(p, term, filter))
  }

  /** The empty search term with the "all" filter shows the whole list, in
      order; an unknown filter value shows nothing. */
  lemma FilterExtremes(projects: seq<Project>, term: string, filter: string)
    ensures FilteredProjects(projects, "", FilterAll) == projects
    ensures filter !in {FilterAll, FilterActive, FilterCompleted} ==> FilteredProjects(projects, term, filter) == []
  {
    forall p | p in projects ensures Shown(p, "", FilterAll) {
      assert StartsWith(Lower(p.name), Lower(""));
    }
    FilterKeepsAll(projects, p => Shown(p, "", FilterAll));
    if filter !in {FilterAll, FilterActive, FilterCompleted} {
      FilterKeepsNone(projects, p => Shown(p, term, filter));
    }
  }

  /** The named filters select by status: "active" shows only serializing
      projects and "completed" only completed ones; a row that matches the
      search is shown under "all". */
  lemma FilterByStatus(projects: seq<Project>, term: string)
    ensures forall p :: p in FilteredProjects(projects, term, FilterActive) ==> p.status == Serializing
    ensures forall p :: p in FilteredProjects(projects, term, FilterCompleted) ==> p.status == Completed
    ensures forall p :: p in FilteredProjects(projects, term, FilterActive) ==> p in FilteredProjects(projects, term, FilterAll)
    ensures forall p :: p in FilteredProjects(projects, term, FilterCompleted) ==> p in FilteredProjects(projects, term, FilterAll)
  {
  }

  /** The search ignores ASCII case: searching for a term and for its
      lower-cased form shows the same rows. */
  lemma SearchIgnoresCase(projects: seq<Project>, term: string, filter: string)
    ensures FilteredProjects(projects, Lower(term), filter) == FilteredProjects(projects, term, filter)
  {
    LowerIdempotent(term);
    FilterAgrees(projects, p => Shown(p, Lower(term), filter), p => Shown(p, term, filter));
  }

  /** Lower-casing twice is lower-casing once. */
  lemma LowerIdempotent(s: string)
    ensures Lower(Lower(s)) == Lower(s)
  {
  }

  /** The status chip of a row: "in progress" for status 1 and "completed"
      for anything else, with the success colour exactly for status 2. */
  datatype Chip = Chip(caption: string, success: bool)

  function StatusChip(status: int): (c: Chip)
    ensures c.caption == "进行中" <==> status == Serializing
    ensures c.caption == "已完成" <==> status != Serializing
    ensures c.success <==> status == Completed
  {
    Chip(if status == Serializing then "进行中" else "已完成", status == Completed)
  }

  /** The chip agrees with the status filter on every row the search lets
      through: the "in progress" caption marks exactly the rows the "active"
      filter shows, and the success colour exactly the rows the "completed"
      filter shows. The "completed" caption alone does not: a row with any
      other status reads "已完成" but no named filter shows it. */
  lemma ChipAgreesWithFilter(projects: seq<Project>, term: string, p: Project)
    requires p in FilteredProjects(projects, term, FilterAll)
    ensures StatusChip(p.status).caption == "进行中" <==> p in FilteredProjects(projects, term, FilterActive)
    ensures StatusChip(p.status).success <==> p in FilteredProjects(projects, term, FilterCompleted)
    ensures StatusChip(p.status).caption == "已完成" && !StatusChip(p.status).success <==>
      p !in FilteredProjects(projects, term, FilterActive) && p !in FilteredProjects(projects, term, FilterCompleted)
  {
  }

  /** The shared handling of a response that reached the page: success for
      the success code (tested twice in the source, as `ErrorCode.SUCCESS`
      and as `1`); otherwise the error slot gets an error object carrying the
      server's code and its message, or the page's own fallback message. */
  function HandleEnvelope(s: ErrorState, code: int, msg: Option<string>, fallback: string, now: string): (r: (bool, ErrorState))
    ensures r.0 <==> code == SUCCESS
    ensures r.0 ==> r.1 == s
    ensures !r.0 ==> r.1.error.Some? && r.1.error.value.code == code && r.1.error.value.timestamp == Some(now)
    ensures !r.0 && msg.Some? && msg.value != "" ==> r.1.error.value.message == msg.value
    ensures !r.0 && (msg.None? || msg.value == "") ==> r.1.error.value.message == fallback
  {
    if code == SUCCESS || code == 1 then (true, s)
    else
      var message := if msg.Some? && msg.value != "" then msg.value else fallback;
      (false, HandleError(s, Coded(ApiError(code, message, None, Some(now), None)), now))
  }

  /** Behind the shared request client the envelope check never fails: a
      response reaches the page only when its code is the success code, so
      the page's business-error branch is unreachable and failures arrive
      through the `catch` clause instead. */
  lemma EnvelopeBranchUnreachable<D>(resp: Request.Response<D>, stack: Option<string>, s: ErrorState, fallback: string, now: string)
    requires Request.ResponseInterceptor(resp, stack).Fulfilled?
    ensures HandleEnvelope(s, resp.data.code, resp.data.msg, fallback, now) == (true, s)
  {
  }

  /** Which delete calls reject, in the order they are made; a call past the
      end of the list resolves. */
  function CallOutcome(outcomes: seq<Option<Thrown>>, i: nat): Option<Thrown>
  {
    if i < |outcomes| then outcomes[i] else None
  }

  /** The number of ids from position `i` on that are deleted before the
      first rejection (or all of them). */
  function ResolvedRun(ids: seq<string>, outcomes: seq<Option<Thrown>>, i: nat): (k: nat)
    requires i <= |ids|
    ensures i <= k <= |ids|
    ensures forall j :: i <= j < k ==> CallOutcome(outcomes, j).None?
    ensures k < |ids| ==> CallOutcome(outcomes, k).Some?
    decreases |ids| - i
  {
    if i == |ids| then i
    else if CallOutcome(outcomes, i).Some? then i
    else ResolvedRun(ids, outcomes, i + 1)
  }

  /** What a batch delete leaves behind. */
  datatype BatchResult = BatchResult(
    selected: seq<string>,
    errors: ErrorState,
    calls: seq<string>,
    deletedCount: Option<nat>,
    refetch: bool)

  /** `handleBatchDelete`: nothing happens for an empty selection; otherwise
      the error is cleared and the selected ids are deleted one at a time,
      stopping at the first rejection. When every call resolves, the
      selection empties, the success message reports how many were deleted
      and the list is fetched again; a rejection goes to the error slot and
      the selection stays. */
  function BatchDelete(selected: seq<string>, s: ErrorState, outcomes: seq<Option<Thrown>>, now: string): (r: BatchResult)
    ensures selected == [] ==> r == BatchResult(selected, s, [], None, false)
    ensures selected != [] ==> IsPrefix(r.calls, selected) && r.calls != []
    ensures r.deletedCount.Some? <==> selected != [] && forall j :: 0 <= j < |selected| ==> CallOutcome(outcomes, j).None?
    ensures r.deletedCount.Some? ==>
      r.deletedCount.value == |selected| && r.calls == selected && r.selected == [] && r.errors == Empty && r.refetch
    ensures selected != [] && r.deletedCount.None? ==>
      && r.selected == selected && !r.refetch
      && CallOutcome(outcomes, |r.calls| - 1).Some?
      && r.errors == HandleError(Empty, CallOutcome(outcomes, |r.calls| - 1).value, now)
  {
    if selected == [] then BatchResult(selected, s, [], None, false)
    else
      var k := ResolvedRun(selected, outcomes, 0);
      if k == |selected| then
        BatchResult([], ClearError(s), selected, Some(|selected|), true)
      else
        BatchResult(selected, HandleError(ClearError(s), CallOutcome(outcomes, k).value, now), selected[..k + 1], None, false)
  }

  /** `a` is a prefix of `b`. */
  predicate IsPrefix<T(==)>(a: seq<T>, b: seq<T>)
  {
    |a| <= |b| && b[..|a|] == a
  }

  /** Batch deletion never deletes an id that was not selected, and the
      calls made before a rejection are exactly the ids before it. */
  lemma BatchDeleteOnlySelected(selected: seq<string>, s: ErrorState, outcomes: seq<Option<Thrown>>, now: string)
    ensures forall id :: id in BatchDelete(selected, s, outcomes, now).calls ==> id in selected
    ensures var r := BatchDelete(selected, s, outcomes, now);
      forall j :: 0 <= j < |r.calls| - 1 ==> CallOutcome(outcomes, j).None?
  {
    var r := BatchDelete(selected, s, outcomes, now);
    if selected != [] {
      assert selected[..|r.calls|] == r.calls;
      forall id | id in r.calls ensures id in selected {
        var j :| 0 <= j < |r.calls| && r.calls[j] == id;
        assert selected[j] == id;
      }
    }
  }
}
