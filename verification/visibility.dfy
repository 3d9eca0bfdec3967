/** The category checkboxes of the application shell: which cell types the
    glyph chart draws (`cellShownStatus`). */
module Visibility {
  import opened Categories

  /** `cellShownStatus`: one on/off flag per category key. */
  type ShownStatus = map<Category, bool>

  /** A category is shown when its flag is present and true
      (`Object.entries(cellShownStatus).filter(([key, value]) => value)`). */
  predicate IsShown(status: ShownStatus, c: Category) {
    c in status && status[c]
  }

  /** All nine flags are present. */
  predicate Complete(status: ShownStatus) {
    forall i :: 0 <= i < |Order| ==> Order[i] in status
  }

  /** A complete status has a flag for every category. */
  lemma CompleteHasEveryKey(status: ShownStatus, c: Category)
    requires Complete(status)
    ensures c in status
  {
    assert Order[Index(c)] in status;
  }

  /** The state the application starts in. */
  function InitialShownStatus(): (status: ShownStatus)
    ensures Complete(status)
    ensures forall c :: IsShown(status, c) <==> c == X1 || c == X2
  {
    map[X1 := true, X2 := true, X3 := false, X4 := false, X5 := false,
        X6 := false, X7 := false, X8 := false, X9 := false]
  }

  /** `onChangeShowCell(cell)(event)`: the spread copy with one flag replaced. */
  function OnChangeShowCell(status: ShownStatus, cell: Category, checked: bool): (next: ShownStatus)
    ensures IsShown(next, cell) == checked
    ensures forall c :: c != cell ==> (c in next <==> c in status) && (c in status ==> next[c] == status[c])
    ensures next.Keys == status.Keys + {cell}
    ensures Complete(status) ==> Complete(next)
  {
    status[cell := checked]
  }

  /** Ticking the same checkbox to the same value twice is the same as once. */
  lemma OnChangeShowCellIdempotent(status: ShownStatus, cell: Category, checked: bool)
    ensures OnChangeShowCell(OnChangeShowCell(status, cell, checked), cell, checked)
         == OnChangeShowCell(status, cell, checked)
  {
  }

  /** Two changes to different checkboxes commute. */
  lemma OnChangeShowCellCommutes(status: ShownStatus, a: Category, x: bool, b: Category, y: bool)
    requires a != b
    ensures OnChangeShowCell(OnChangeShowCell(status, a, x), b, y)
         == OnChangeShowCell(OnChangeShowCell(status, b, y), a, x)
  {
    assert status[a := x][b := y] == status[b := y][a := x];
  }

  /** Every flag switched on: the status under which the tooltip selects. */
  function AllShown(): (status: ShownStatus)
    ensures Complete(status)
    ensures forall i :: 0 <= i < |Order| ==> IsShown(status, Order[i])
  {
    map[X1 := true, X2 := true, X3 := true, X4 := true, X5 := true,
        X6 := true, X7 := true, X8 := true, X9 := true]
  }

  lemma AllShownShowsEvery(c: Category)
    ensures IsShown(AllShown(), c)
  {
    assert IsShown(AllShown(), Order[Index(c)]);
  }
}
