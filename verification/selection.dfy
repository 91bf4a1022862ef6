/**
 * Row selection as the Projects, Workflows and NovelWorks pages implement it
 * identically: a list of selected ids, a per-row toggle, a header "select
 * all" checkbox, and the header's checked / indeterminate display.
 */
module Selection {
  import opened Lists

  /** Clicking the checkbox of row `id` (`prev.includes(id) ? prev.filter(x
      => x !== id) : [...prev, id]`): the id flips membership and no other id
      is affected; a removal keeps the other ids in their order, each as often
      as before, and an addition goes at the end. */
  function Toggle<T(==, !new)>(sel: seq<T>, id: T): (r: seq<T>)
    ensures id in r <==> id !in sel
    ensures forall y :: y != id ==> (y in r <==> y in sel)
    ensures id !in sel ==> |r| == |sel| + 1 && r[..|sel|] == sel
    ensures id in sel ==> IsSubsequence(r, sel) && forall y :: y != id ==> multiset(r)[y] == multiset(sel)[y]
  {
    if id in sel then
      var r := RemoveAll(sel, id);
      assert forall y :: y != id ==> (y in r <==> multiset(r)[y] > 0);
      r
    else sel + [id]
  }

  /** Toggling an id that was not selected twice restores the exact list. */
  lemma ToggleTwiceAbsent<T(!new)>(sel: seq<T>, id: T)
    requires id !in sel
    ensures Toggle(Toggle(sel, id), id) == sel
  {
    RemoveAllAppend(sel, [id], id);
    RemoveAllAbsent(sel, id);
    assert RemoveAll([id], id) == [];
  }

  /** Toggling keeps a selection free of duplicates. */
  lemma ToggleNoDup<T(!new)>(sel: seq<T>, id: T)
    requires NoDup(sel)
    ensures NoDup(Toggle(sel, id))
  {
    if id in sel {
      RemoveAllNoDup(sel, id);
    }
  }

  /** Toggling a selected id twice keeps the same set of ids but moves that
      id to the end; the other ids keep their order. */
  lemma ToggleTwicePresent<T(!new)>(sel: seq<T>, id: T)
    requires NoDup(sel) && id in sel
    ensures Toggle(Toggle(sel, id), id) == RemoveAll(sel, id) + [id]
    ensures forall y :: y in Toggle(Toggle(sel, id), id) <==> y in sel
    ensures |Toggle(Toggle(sel, id), id)| == |sel|
  {
    var once := RemoveAll(sel, id);
    var twice := once + [id];
    NoDupCount(sel, id);
    assert multiset(sel) == multiset(once) + multiset{id} by {
      forall y ensures multiset(sel)[y] == (multiset(once) + multiset{id})[y] {
        if y != id {
          assert multiset(once)[y] == multiset(sel)[y];
        } else {
          assert multiset(once)[y] == 0;
        }
      }
    }
    assert |multiset(twice)| == |multiset(sel)|;
    forall y ensures y in twice <==> y in sel {
      assert y in twice <==> y in multiset(twice);
      assert y in sel <==> y in multiset(sel);
    }
  }

  /** The header checkbox's `onChange`: select the ids of every displayed row,
      in display order, or nothing. */
  function SelectAll<T(==, !new)>(checked: bool, shownIds: seq<T>): (r: seq<T>)
    ensures forall x :: x in r <==> checked && x in shownIds
    ensures checked ==> |r| == |shownIds| && (NoDup(shownIds) ==> NoDup(r))
    ensures !checked ==> |r| == 0
  {
    if checked then shownIds else []
  }

  /** What the header checkbox displays. */
  datatype HeaderCheckbox = HeaderCheckbox(indeterminate: bool, checked: bool)

  /** The header of Projects and Workflows, which compares two counts only:
      indeterminate exactly when the number of selected ids is non-zero and
      below the number of shown rows, checked exactly when it is non-zero
      and equal to it; never both at once, and neither with nothing
      selected. The counts say nothing about WHICH rows are selected (see
      `StaleSelectionChecksHeader`). */
  function Header(selected: nat, shown: nat): (h: HeaderCheckbox)
    ensures h.indeterminate <==> 0 < selected < shown
    ensures h.checked <==> selected > 0 && selected == shown
    ensures !(h.indeterminate && h.checked)
    ensures selected == 0 ==> !h.indeterminate && !h.checked
  {
    HeaderCheckbox(0 < selected < shown, selected > 0 && selected == shown)
  }

  /** The header as the pages feed it: the length of the selection against
      the number of displayed rows. */
  function HeaderOf<T>(sel: seq<T>, shownIds: seq<T>): (h: HeaderCheckbox)
    ensures h.checked <==> |sel| > 0 && |sel| == |shownIds|
    ensures h.indeterminate <==> 0 < |sel| < |shownIds|
  {
    Header(|sel|, |shownIds|)
  }

  /** The selection is never pruned when the search, the filter or the page
      changes the displayed rows, and the header counts only lengths: with
      rows a and b selected and a search that shows rows c and d, the header
      reads "all selected" although no displayed row is; the intended
      header shows neither state. */
  lemma StaleSelectionChecksHeader()
    ensures HeaderOf(["a", "b"], ["c", "d"]).checked
    ensures "c" !in ["a", "b"] && "d" !in ["a", "b"]
    ensures HeaderIntended(["a", "b"], ["c", "d"]) == HeaderCheckbox(false, false)
  {
    assert "c" in ["c", "d"];
  }

  /** The header the counts evidently stand for: it compares the number of
      DISPLAYED rows that are selected with the number of displayed rows.
      Checked exactly when some row is shown and every shown row is
      selected; indeterminate exactly when some but not every shown row is
      selected. Ids selected but not displayed play no part, and on a
      selection of displayed rows only it agrees with `HeaderOf`. */
  function HeaderIntended<T(==, !new)>(sel: seq<T>, shownIds: seq<T>): (h: HeaderCheckbox)
    ensures h.checked <==> |shownIds| > 0 && forall x :: x in shownIds ==> x in sel
    ensures h.indeterminate <==> (exists x :: x in shownIds && x in sel) && exists x :: x in shownIds && x !in sel
    ensures !(h.indeterminate && h.checked)
  {
    var shownSelected := Filter(shownIds, x => x in sel);
    FilterFullLength(shownIds, x => x in sel);
    assert |shownSelected| > 0 <==> exists x :: x in shownIds && x in sel by {
      if |shownSelected| > 0 {
        assert shownSelected[0] in shownSelected;
      }
    }
    Header(|shownSelected|, |shownIds|)
  }

  /** After "select all" or "select none" the intended header reads as the
      one the pages compute: checked exactly when some row is shown, and
      never indeterminate. */
  lemma SelectAllHeaderIntended<T(!new)>(shownIds: seq<T>)
    ensures HeaderIntended(SelectAll(true, shownIds), shownIds) == HeaderOf(SelectAll(true, shownIds), shownIds)
    ensures HeaderIntended(SelectAll(false, shownIds), shownIds) == HeaderOf(SelectAll(false, shownIds), shownIds)
    ensures HeaderIntended(SelectAll(true, shownIds), shownIds).checked <==> |shownIds| > 0
  {
  }

  /** The header of NovelWorks, which tests the list length instead of the
      selection size for "checked". */
  function NovelHeader(selected: nat, shown: nat): HeaderCheckbox
  {
    HeaderCheckbox(0 < selected < shown, shown > 0 && selected == shown)
  }

  /** The two header formulas agree on every input. */
  lemma NovelHeaderAgrees(selected: nat, shown: nat)
    ensures NovelHeader(selected, shown) == Header(selected, shown)
  {
  }

  /** After "select all" the header is checked exactly when some row is shown;
      after "select none" it is neither checked nor indeterminate. */
  lemma SelectAllHeader<T(!new)>(shownIds: seq<T>)
    ensures Header(|SelectAll(true, shownIds)|, |shownIds|).checked <==> |shownIds| > 0
    ensures Header(|SelectAll(false, shownIds)|, |shownIds|) == HeaderCheckbox(false, false)
  {
  }
}
