/**
 * The chapter editor page: a list of chapters with a fresh-id append
 * dialog, selection of a chapter into the markdown editor, and saving the
 * editor's text back into the selected chapter.
 */
module CreateChapter {
  import opened Wrappers
  import opened Text

  /** A chapter of the list. */
  datatype Chapter = Chapter(id: int, title: string, content: string)

  /** The page state: the chapters, the selected id, the new-chapter dialog
      and its title input, and the editor's text. */
  datatype Page = Page(
    chapters: seq<Chapter>,
    selected: Option<int>,
    dialogOpen: bool,
    newTitle: string,
    editor: string)

  /** No two chapters share an id. */
  predicate UniqueIds(chs: seq<Chapter>)
  {
    forall i, j :: 0 <= i < j < |chs| ==> chs[i].id != chs[j].id
  }

  /** `Math.max(...chapters.map(c => c.id))` of a non-empty list: an id of
      the list that no id of the list exceeds. */
  function MaxId(chs: seq<Chapter>): (m: int)
    requires chs != []
    ensures forall i :: 0 <= i < |chs| ==> chs[i].id <= m
    ensures exists i :: 0 <= i < |chs| && chs[i].id == m
  {
    if |chs| == 1 then chs[0].id
    else
      var rest := MaxId(chs[1..]);
      assert forall i :: 1 <= i < |chs| ==> chs[i] == chs[1..][i - 1];
      if chs[0].id >= rest then chs[0].id
      else
        var k :| 0 <= k < |chs[1..]| && chs[1..][k].id == rest;
        assert chs[k + 1].id == rest;
        rest
  }

  /** The id a new chapter gets: one more than the largest id, or 1 for an
      empty list. It exceeds every id in the list. */
  function NextId(chs: seq<Chapter>): (id: int)
    ensures forall i :: 0 <= i < |chs| ==> chs[i].id < id
    ensures chs == [] ==> id == 1
  {
    if chs == [] then 1 else MaxId(chs) + 1
  }

  /** The next id is the least id above every id of the list, when the
      list is non-empty. */
  lemma NextIdIsLeastFresh(chs: seq<Chapter>, id: int)
    requires chs != []
    requires forall i :: 0 <= i < |chs| ==> chs[i].id < id
    ensures NextId(chs) <= id
  {
  }

  /** `chapters.find(c => c.id === id)`: the first chapter with the id. */
  function Find(chs: seq<Chapter>, id: int): (r: Option<Chapter>)
    ensures r.None? <==> forall i :: 0 <= i < |chs| ==> chs[i].id != id
    ensures r.Some? ==> exists i :: 0 <= i < |chs| && chs[i] == r.value && (forall j :: 0 <= j < i ==> chs[j].id != id)
    ensures r.Some? ==> r.value.id == id
  {
    if chs == [] then None
    else if chs[0].id == id then Some(chs[0])
    else
      var r := Find(chs[1..], id);
      assert forall i :: 1 <= i < |chs| ==> chs[i] == chs[1..][i - 1];
      if r.Some? then
        var k :| 0 <= k < |chs[1..]| && chs[1..][k] == r.value && (forall j :: 0 <= j < k ==> chs[1..][j].id != id);
        assert chs[k + 1] == r.value;
        assert forall j :: 0 <= j < k + 1 ==> chs[j].id != id by {
          forall j | 0 <= j < k + 1 ensures chs[j].id != id {
            if j > 0 { assert chs[j] == chs[1..][j - 1]; }
          }
        }
        r
      else r
  }

  /** With unique ids a chapter of the list is the one found by its id. */
  lemma FindUnique(chs: seq<Chapter>, i: int)
    requires UniqueIds(chs) && 0 <= i < |chs|
    ensures Find(chs, chs[i].id) == Some(chs[i])
  {
    var r := Find(chs, chs[i].id);
    var k :| 0 <= k < |chs| && chs[k] == r.value && (forall j :: 0 <= j < k ==> chs[j].id != chs[i].id);
    assert k == i;
  }

  /** `handleSelectChapter`: select the id and load that chapter's content
      into the editor, or an empty editor when no chapter has the id. */
  function SelectChapter(p: Page, id: int): (q: Page)
    ensures q.selected == Some(id)
    ensures q.chapters == p.chapters && q.dialogOpen == p.dialogOpen && q.newTitle == p.newTitle
    ensures (forall i :: 0 <= i < |p.chapters| ==> p.chapters[i].id != id) ==> q.editor == ""
    ensures forall i :: 0 <= i < |p.chapters| && p.chapters[i].id == id && (forall j :: 0 <= j < i ==> p.chapters[j].id != id) ==>
      q.editor == p.chapters[i].content
  {
    var found := Find(p.chapters, id);
    p.(selected := Some(id), editor := if found.Some? then found.value.content else "")
  }

  /** `handleAddChapter`: open the dialog. */
  function AddChapter(p: Page): (q: Page)
    ensures q.dialogOpen && q == p.(dialogOpen := true)
  {
    p.(dialogOpen := true)
  }

  /** `handleDialogOk`: a blank title changes nothing and the dialog stays
      open; otherwise a chapter with a fresh id, the title as typed and no
      content is appended, the input is cleared and the dialog closes. */
  function DialogOk(p: Page): (q: Page)
    ensures IsBlank(p.newTitle) ==> q == p
    ensures !IsBlank(p.newTitle) ==>
      && |q.chapters| == |p.chapters| + 1
      && q.chapters[..|p.chapters|] == p.chapters
      && q.chapters[|p.chapters|].title == p.newTitle
      && q.chapters[|p.chapters|].content == ""
      && (forall i :: 0 <= i < |p.chapters| ==> p.chapters[i].id < q.chapters[|p.chapters|].id)
      && q.newTitle == "" && !q.dialogOpen
      && q.selected == p.selected && q.editor == p.editor
  {
    TrimEmptyIffBlank(p.newTitle);
    if Trim(p.newTitle) != "" then
      p.(chapters := p.chapters + [Chapter(NextId(p.chapters), p.newTitle, "")], newTitle := "", dialogOpen := false)
    else p
  }

  /** Appending keeps ids unique. */
  lemma DialogOkKeepsIdsUnique(p: Page)
    requires UniqueIds(p.chapters)
    ensures UniqueIds(DialogOk(p).chapters)
  {
    if !IsBlank(p.newTitle) {
      var c := Chapter(NextId(p.chapters), p.newTitle, "");
      DialogOkAppends(p);
      AppendFresh(p.chapters, c);
    }
  }

  /** A title that is not blank appends exactly the fresh chapter. */
  lemma DialogOkAppends(p: Page)
    requires !IsBlank(p.newTitle)
    ensures DialogOk(p).chapters == p.chapters + [Chapter(NextId(p.chapters), p.newTitle, "")]
  {
    TrimEmptyIffBlank(p.newTitle);
  }

  /** After an append, selecting the new chapter's id finds the new
      chapter. */
  lemma DialogOkFindsNewChapter(p: Page)
    requires UniqueIds(p.chapters) && !IsBlank(p.newTitle)
    ensures var q := DialogOk(p);
      Find(q.chapters, q.chapters[|p.chapters|].id) == Some(q.chapters[|p.chapters|])
  {
    DialogOkKeepsIdsUnique(p);
    FindUnique(DialogOk(p).chapters, |p.chapters|);
  }

  /** A chapter whose id exceeds every id of a list with unique ids can be
      appended without repeating an id. */
  lemma AppendFresh(chs: seq<Chapter>, c: Chapter)
    requires UniqueIds(chs)
    requires forall i :: 0 <= i < |chs| ==> chs[i].id < c.id
    ensures UniqueIds(chs + [c])
  {
    var all := chs + [c];
    forall i, j | 0 <= i < j < |all| ensures all[i].id != all[j].id {
      assert all[i] == chs[i];
    }
  }

  /** `handleDialogCancel`: close the dialog and clear the input; the
      chapters stay. */
  function DialogCancel(p: Page): (q: Page)
    ensures !q.dialogOpen && q.newTitle == ""
    ensures q.chapters == p.chapters && q.selected == p.selected && q.editor == p.editor
  {
    p.(dialogOpen := false, newTitle := "")
  }

  /** The chapters with the editor's text saved into those with the id. */
  function SaveInto(chs: seq<Chapter>, id: int, text: string): (r: seq<Chapter>)
    ensures |r| == |chs|
    ensures forall i :: 0 <= i < |chs| ==> r[i].id == chs[i].id && r[i].title == chs[i].title
    ensures forall i :: 0 <= i < |chs| ==> r[i].content == (if chs[i].id == id then text else chs[i].content)
  {
    seq(|chs|, i requires 0 <= i < |chs| => if chs[i].id == id then chs[i].(content := text) else chs[i])
  }

  /** `handleSaveContent`: with a selection, the editor's text becomes the
      content of the chapters with the selected id and nothing else changes;
      with no selection nothing changes at all. */
  function SaveContent(p: Page): (q: Page)
    ensures p.selected.None? ==> q == p
    ensures p.selected.Some? ==> q.chapters == SaveInto(p.chapters, p.selected.value, p.editor)
    ensures q.selected == p.selected && q.editor == p.editor && q.dialogOpen == p.dialogOpen && q.newTitle == p.newTitle
  {
    if p.selected.Some? then p.(chapters := SaveInto(p.chapters, p.selected.value, p.editor)) else p
  }

  /** Saving keeps the ids, and selecting the saved chapter again brings
      back exactly the text that was saved. */
  lemma SaveThenSelect(p: Page)
    requires p.selected.Some?
    requires exists i :: 0 <= i < |p.chapters| && p.chapters[i].id == p.selected.value
    ensures forall i :: 0 <= i < |p.chapters| ==> SaveContent(p).chapters[i].id == p.chapters[i].id
    ensures SelectChapter(SaveContent(p), p.selected.value).editor == p.editor
  {
    var q := SaveContent(p);
    var id := p.selected.value;
    var r := Find(q.chapters, id);
    var k :| 0 <= k < |q.chapters| && q.chapters[k] == r.value && (forall j :: 0 <= j < k ==> q.chapters[j].id != id);
    assert q.chapters[k].content == p.editor;
  }

  /** Saving twice is saving once. */
  lemma SaveContentIdempotent(p: Page)
    ensures SaveContent(SaveContent(p)) == SaveContent(p)
  {
    if p.selected.Some? {
      var once := SaveContent(p).chapters;
      var twice := SaveContent(SaveContent(p)).chapters;
      assert forall i :: 0 <= i < |once| ==> twice[i] == once[i];
    }
  }
}
