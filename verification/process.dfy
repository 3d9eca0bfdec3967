/** The backend pre-pass behind the glyph angles (`filter_and_cumsum` and the
    discrete part of `get_kosara_data` in `process.py`). The numeric solver is
    a parameter. */
module Process {
  import opened Seqs

  /** One row of the merged position/ratio frame: the fixed columns and the
      per-cell-type columns by name. */
  datatype Record = Record(barcode: string, x: real, y: real, radius: real, values: map<string, real>)

  /** A frame: its cell-type column names and its rows. */
  datatype Frame = Frame(columns: set<string>, rows: seq<Record>)

  /** Every row has exactly the frame's columns. */
  predicate Rectangular(f: Frame) {
    forall i :: 0 <= i < |f.rows| ==> f.rows[i].values.Keys == f.columns
  }

  /** `row[cols].sum()` for the first `|cols|` selected columns. */
  function Sum(row: map<string, real>, cols: seq<string>): real
    requires forall k :: 0 <= k < |cols| ==> cols[k] in row
  {
    if cols == [] then 0.0 else Sum(row, cols[..|cols| - 1]) + row[cols[|cols| - 1]]
  }

  /** The loop of `conditional_cumsum` from the column `cols[0]` on, with the
      running sum `acc`: a non-zero cell adds itself to the sum and is
      replaced by it; a zero cell is left alone. */
  function CumsumFrom(row: map<string, real>, cols: seq<string>, acc: real): (out: map<string, real>)
    requires forall k :: 0 <= k < |cols| ==> cols[k] in row
    ensures out.Keys == row.Keys
    decreases |cols|
  {
    if cols == [] then row
    else
      var c := cols[0];
      if row[c] != 0.0 then CumsumFrom(row[c := acc + row[c]], cols[1..], acc + row[c])
      else CumsumFrom(row, cols[1..], acc)
  }

  /** `conditional_cumsum(row, selected_columns)`. */
  function ConditionalCumsum(row: map<string, real>, cols: seq<string>): map<string, real>
    requires forall k :: 0 <= k < |cols| ==> cols[k] in row
  {
    CumsumFrom(row, cols, 0.0)
  }

  /** What the pass from position `from` on, started with running sum `acc`,
      leaves in `out`: columns it does not visit are unchanged, a zero cell
      stays zero, and a non-zero cell holds `acc` plus the selected cells from
      `from` up to and including it. */
  ghost predicate CumsumFromResult(row: map<string, real>, cols: seq<string>, from: nat, acc: real, out: map<string, real>)
    requires forall k :: 0 <= k < |cols| ==> cols[k] in row
    requires from <= |cols| && out.Keys == row.Keys
  {
    && (forall c :: c in row && c !in cols[from..] ==> out[c] == row[c])
    && (forall j :: from <= j < |cols| && row[cols[j]] == 0.0 ==> out[cols[j]] == 0.0)
    && (forall j :: from <= j < |cols| && row[cols[j]] != 0.0 ==>
          out[cols[j]] == acc + Sum(row, cols[..j + 1]) - Sum(row, cols[..from]))
  }

  lemma {:induction false} CumsumFromSpec(row: map<string, real>, cols: seq<string>, from: nat, acc: real)
    requires forall k :: 0 <= k < |cols| ==> cols[k] in row
    requires NoDup(cols) && from <= |cols|
    ensures CumsumFromResult(row, cols, from, acc, CumsumFrom(row, cols[from..], acc))
    decreases |cols| - from
  {
    if from < |cols| {
      var c := cols[from];
      if row[c] != 0.0 {
        CumsumFromSpec(row[c := acc + row[c]], cols, from + 1, acc + row[c]);
        CumsumNonZeroFinish(row, cols, from, acc);
      } else {
        CumsumFromSpec(row, cols, from + 1, acc);
        CumsumZeroStep(row, cols, from, acc);
      }
    }
  }

  /** `cols[from]` does not occur again after `from`. */
  lemma NotInRest(cols: seq<string>, from: nat)
    requires NoDup(cols) && from < |cols|
    ensures cols[from] !in cols[from + 1..]
  {
    var rest := cols[from + 1..];
    forall k | 0 <= k < |rest| ensures rest[k] != cols[from] {
      assert rest[k] == cols[from + 1 + k];
    }
  }

  /** The step of `CumsumFromSpec` at a non-zero cell. */
  lemma CumsumNonZeroFinish(row: map<string, real>, cols: seq<string>, from: nat, acc: real)
    requires forall k :: 0 <= k < |cols| ==> cols[k] in row
    requires NoDup(cols) && from < |cols| && row[cols[from]] != 0.0
    requires var row' := row[cols[from] := acc + row[cols[from]]];
      CumsumFromResult(row', cols, from + 1, acc + row[cols[from]], CumsumFrom(row', cols[from + 1..], acc + row[cols[from]]))
    ensures CumsumFromResult(row, cols, from, acc, CumsumFrom(row, cols[from..], acc))
  {
    var c := cols[from];
    var row' := row[c := acc + row[c]];
    var out := CumsumFrom(row', cols[from + 1..], acc + row[c]);
    assert CumsumFrom(row, cols[from..], acc) == out by {
      assert cols[from..][1..] == cols[from + 1..];
    }
    CumsumNonZeroStep(row, row', cols, from, acc, out);
  }

  /** A non-zero cell at `from`: it takes the running sum, and what the pass
      from `from + 1` over the updated row leaves finishes the job. */
  lemma CumsumNonZeroStep(row: map<string, real>, row': map<string, real>, cols: seq<string>, from: nat, acc: real,
                          out: map<string, real>)
    requires forall k :: 0 <= k < |cols| ==> cols[k] in row
    requires NoDup(cols) && from < |cols| && row[cols[from]] != 0.0
    requires row' == row[cols[from] := acc + row[cols[from]]]
    requires out.Keys == row.Keys
    requires CumsumFromResult(row', cols, from + 1, acc + row[cols[from]], out)
    ensures CumsumFromResult(row, cols, from, acc, out)
  {
    NotInRest(cols, from);
    assert out[cols[from]] == acc + row[cols[from]];
    NonZeroKeepsUnvisited(row, row', cols, from, acc, out);
    NonZeroKeepsZeros(row, row', cols, from, acc, out);
    NonZeroSums(row, row', cols, from, acc, out);
  }

  lemma NonZeroKeepsUnvisited(row: map<string, real>, row': map<string, real>, cols: seq<string>, from: nat, acc: real,
                              out: map<string, real>)
    requires forall k :: 0 <= k < |cols| ==> cols[k] in row
    requires from < |cols| && row' == row[cols[from] := acc + row[cols[from]]]
    requires out.Keys == row.Keys
    requires forall x :: x in row' && x !in cols[from + 1..] ==> out[x] == row'[x]
    ensures forall x :: x in row && x !in cols[from..] ==> out[x] == row[x]
  {
    assert cols[from..] == [cols[from]] + cols[from + 1..];
  }

  lemma NonZeroKeepsZeros(row: map<string, real>, row': map<string, real>, cols: seq<string>, from: nat, acc: real,
                          out: map<string, real>)
    requires forall k :: 0 <= k < |cols| ==> cols[k] in row
    requires NoDup(cols) && from < |cols| && row[cols[from]] != 0.0
    requires row' == row[cols[from] := acc + row[cols[from]]]
    requires out.Keys == row.Keys
    requires forall j :: from + 1 <= j < |cols| && row'[cols[j]] == 0.0 ==> out[cols[j]] == 0.0
    ensures forall j :: from <= j < |cols| && row[cols[j]] == 0.0 ==> out[cols[j]] == 0.0
  {
    forall j | from < j < |cols| ensures row'[cols[j]] == row[cols[j]] {
      assert cols[j] != cols[from];
    }
  }

  lemma NonZeroSums(row: map<string, real>, row': map<string, real>, cols: seq<string>, from: nat, acc: real,
                    out: map<string, real>)
    requires forall k :: 0 <= k < |cols| ==> cols[k] in row
    requires NoDup(cols) && from < |cols| && row[cols[from]] != 0.0
    requires row' == row[cols[from] := acc + row[cols[from]]]
    requires out.Keys == row.Keys
    requires out[cols[from]] == acc + row[cols[from]]
    requires forall j :: from + 1 <= j < |cols| && row'[cols[j]] != 0.0 ==>
      out[cols[j]] == acc + row[cols[from]] + Sum(row', cols[..j + 1]) - Sum(row', cols[..from + 1])
    ensures forall j :: from <= j < |cols| && row[cols[j]] != 0.0 ==>
      out[cols[j]] == acc + Sum(row, cols[..j + 1]) - Sum(row, cols[..from])
  {
    assert Sum(row, cols[..from + 1]) == Sum(row, cols[..from]) + row[cols[from]] by {
      assert cols[..from + 1][..from] == cols[..from];
    }
    forall j | from < j < |cols| && row[cols[j]] != 0.0
      ensures out[cols[j]] == acc + Sum(row, cols[..j + 1]) - Sum(row, cols[..from])
    {
      assert cols[j] != cols[from];
      SumTailAgrees(row, row', cols, from, j + 1);
    }
  }

  /** A zero cell at `from` is skipped. */
  lemma CumsumZeroStep(row: map<string, real>, cols: seq<string>, from: nat, acc: real)
    requires forall k :: 0 <= k < |cols| ==> cols[k] in row
    requires NoDup(cols) && from < |cols| && row[cols[from]] == 0.0
    requires CumsumFromResult(row, cols, from + 1, acc, CumsumFrom(row, cols[from + 1..], acc))
    ensures CumsumFromResult(row, cols, from, acc, CumsumFrom(row, cols[from..], acc))
  {
    assert cols[from..][1..] == cols[from + 1..];
    assert cols[..from + 1][..from] == cols[..from];
    NotInRest(cols, from);
  }

  /** Updating the cell of `cols[from]` leaves the sum of the cells after it
      unchanged. */
  lemma {:induction false} SumTailAgrees(row: map<string, real>, row': map<string, real>, cols: seq<string>, from: nat, j: nat)
    requires forall k :: 0 <= k < |cols| ==> cols[k] in row
    requires NoDup(cols) && from < j <= |cols|
    requires row'.Keys == row.Keys
    requires forall c :: c in row && c != cols[from] ==> row'[c] == row[c]
    ensures Sum(row', cols[..j]) - Sum(row', cols[..from + 1]) == Sum(row, cols[..j]) - Sum(row, cols[..from + 1])
    decreases j
  {
    if j > from + 1 {
      SumTailAgrees(row, row', cols, from, j - 1);
      assert cols[..j][..j - 1] == cols[..j - 1];
      assert cols[j - 1] != cols[from];
    }
  }

  /** The three promises of the cumulative pass on one row, for distinct
      selected columns: a zero cell stays zero; a non-zero cell becomes the
      sum of all selected cells up to and including it; every other column is
      unchanged. */
  lemma ConditionalCumsumSpec(row: map<string, real>, cols: seq<string>)
    requires forall k :: 0 <= k < |cols| ==> cols[k] in row
    requires NoDup(cols)
    ensures var out := ConditionalCumsum(row, cols);
      && out.Keys == row.Keys
      && (forall c :: c in row && c !in cols ==> out[c] == row[c])
      && (forall j :: 0 <= j < |cols| && row[cols[j]] == 0.0 ==> out[cols[j]] == 0.0)
      && (forall j :: 0 <= j < |cols| && row[cols[j]] != 0.0 ==> out[cols[j]] == Sum(row, cols[..j + 1]))
  {
    assert cols[0..] == cols;
    assert cols[..0] == [];
    CumsumFromSpec(row, cols, 0, 0.0);
    assert CumsumFromResult(row, cols, 0, 0.0, ConditionalCumsum(row, cols));
  }

  /** The last non-zero selected cell ends up holding the total of all the
      selected cells. */
  lemma LastNonZeroIsTotal(row: map<string, real>, cols: seq<string>, j: nat)
    requires forall k :: 0 <= k < |cols| ==> cols[k] in row
    requires NoDup(cols) && j < |cols| && row[cols[j]] != 0.0
    requires forall k :: j < k < |cols| ==> row[cols[k]] == 0.0
    ensures ConditionalCumsum(row, cols)[cols[j]] == Sum(row, cols)
  {
    ConditionalCumsumSpec(row, cols);
    SumZeroTail(row, cols, j + 1, |cols|);
    assert cols[..|cols|] == cols;
  }

  lemma {:induction false} SumZeroTail(row: map<string, real>, cols: seq<string>, from: nat, upto: nat)
    requires forall k :: 0 <= k < |cols| ==> cols[k] in row
    requires from <= upto <= |cols|
    requires forall k :: from <= k < upto ==> row[cols[k]] == 0.0
    ensures Sum(row, cols[..upto]) == Sum(row, cols[..from])
    decreases upto
  {
    if upto > from {
      SumZeroTail(row, cols, from, upto - 1);
      assert cols[..upto][..upto - 1] == cols[..upto - 1];
    }
  }

  lemma {:induction false} SumMonotone(row: map<string, real>, cols: seq<string>, i: nat, j: nat)
    requires forall k :: 0 <= k < |cols| ==> cols[k] in row && row[cols[k]] >= 0.0
    requires i <= j <= |cols|
    ensures Sum(row, cols[..i]) <= Sum(row, cols[..j])
    decreases j
  {
    if j > i {
      SumMonotone(row, cols, i, j - 1);
      assert cols[..j][..j - 1] == cols[..j - 1];
    }
  }

  /** With non-negative cells, the non-zero outputs never decrease along the
      selected columns. */
  lemma CumsumNonDecreasing(row: map<string, real>, cols: seq<string>, i: nat, j: nat)
    requires forall k :: 0 <= k < |cols| ==> cols[k] in row && row[cols[k]] >= 0.0
    requires NoDup(cols) && i < j < |cols|
    requires row[cols[i]] != 0.0 && row[cols[j]] != 0.0
    ensures ConditionalCumsum(row, cols)[cols[i]] <= ConditionalCumsum(row, cols)[cols[j]]
  {
    ConditionalCumsumSpec(row, cols);
    SumMonotone(row, cols, i + 1, j + 1);
  }

  /** Every selected column exists in the frame. */
  predicate HasColumns(f: Frame, selected: seq<string>) {
    forall k :: 0 <= k < |selected| ==> selected[k] in f.columns
  }

  /** The selected columns of one row, in a row of their own. */
  function Project(values: map<string, real>, selected: seq<string>): (out: map<string, real>)
    ensures forall c :: c in out <==> c in values && c in selected
    ensures forall c :: c in out ==> out[c] == values[c]
  {
    map c | c in values && c in selected :: values[c]
  }

  /** `filter_and_cumsum(merged_df, selected_columns)`: `None` is the
      `KeyError` of selecting a missing column, or the `ValueError` of a
      repeated one (its cell in a row is then a two-element series, whose
      comparison with 0 has no truth value); otherwise a new frame of the
      fixed columns and the selected ones, each row passed through the
      cumulative pass. */
  function FilterAndCumsum(f: Frame, selected: seq<string>): Option<Frame>
    requires Rectangular(f)
  {
    if !HasColumns(f, selected) then None
    else if !NoDup(selected) then None
    else
      var rows := seq(|f.rows|, i requires 0 <= i < |f.rows| =>
        var r := f.rows[i];
        Record(r.barcode, r.x, r.y, r.radius, ConditionalCumsum(Project(r.values, selected), selected)));
      Some(Frame(set k | 0 <= k < |selected| :: selected[k], rows))
  }

  /** The pass fails exactly when a selected column is missing or repeated;
      otherwise the
      new frame keeps the fixed columns of every row and only the selected
      cell-type columns, each zero cell still zero and each non-zero one the
      running sum of its row. The input frame is a value and is not
      changed. */
  lemma FilterAndCumsumSpec(f: Frame, selected: seq<string>)
    requires Rectangular(f)
    ensures FilterAndCumsum(f, selected).None? <==>
      (exists k :: 0 <= k < |selected| && selected[k] !in f.columns) || !NoDup(selected)
    ensures FilterAndCumsum(f, selected).Some? ==>
      var g := FilterAndCumsum(f, selected).value;
      && Rectangular(g)
      && (forall c :: c in g.columns <==> c in selected)
      && |g.rows| == |f.rows|
      && forall i :: 0 <= i < |f.rows| ==>
           && g.rows[i].barcode == f.rows[i].barcode && g.rows[i].x == f.rows[i].x
           && g.rows[i].y == f.rows[i].y && g.rows[i].radius == f.rows[i].radius
           && (forall j :: 0 <= j < |selected| && f.rows[i].values[selected[j]] == 0.0 ==>
                 g.rows[i].values[selected[j]] == 0.0)
           && (forall j :: 0 <= j < |selected| && f.rows[i].values[selected[j]] != 0.0 ==>
                 g.rows[i].values[selected[j]] == Sum(f.rows[i].values, selected[..j + 1]))
  {
    if FilterAndCumsum(f, selected).Some? {
      var g := FilterAndCumsum(f, selected).value;
      forall i | 0 <= i < |f.rows|
        ensures g.rows[i].values.Keys == g.columns
        ensures forall j :: 0 <= j < |selected| && f.rows[i].values[selected[j]] == 0.0 ==>
                  g.rows[i].values[selected[j]] == 0.0
        ensures forall j :: 0 <= j < |selected| && f.rows[i].values[selected[j]] != 0.0 ==>
                  g.rows[i].values[selected[j]] == Sum(f.rows[i].values, selected[..j + 1])
      {
        var p := Project(f.rows[i].values, selected);
        assert forall k :: 0 <= k < |selected| ==> selected[k] in p;
        ConditionalCumsumSpec(p, selected);
        forall n | 0 < n <= |selected| ensures Sum(p, selected[..n]) == Sum(f.rows[i].values, selected[..n]) {
          SumProjected(f.rows[i].values, p, selected, n);
        }
      }
    }
  }

  lemma {:induction false} SumProjected(values: map<string, real>, p: map<string, real>, selected: seq<string>, n: nat)
    requires n <= |selected|
    requires forall k :: 0 <= k < |selected| ==> selected[k] in values && selected[k] in p
    requires forall k :: 0 <= k < |selected| ==> p[selected[k]] == values[selected[k]]
    ensures Sum(p, selected[..n]) == Sum(values, selected[..n])
    decreases n
  {
    if n > 0 {
      SumProjected(values, p, selected, n - 1);
      assert selected[..n][..n - 1] == selected[..n - 1];
    }
  }

  /** A float that may be NaN. */
  datatype Measure = Num(v: real) | NaN

  /** The two floats `get_kosara_data` derives from the spot size: `d` and
      `special_value`. */
  datatype Geometry = Geometry(d: real, special: real)

  /** `initial_guess(a, d, special_value)`. */
  function InitialGuess(a: real, g: Geometry): real {
    if a <= g.special then g.d + 0.01
    else if a > 0.95 then 8.0
    else a * 10.0 - 1.5
  }

  /** Above the special value the guess rises with `a` and stops at 8, where
      its two pieces meet (`10 · 0.95 − 1.5 = 8`); at or below it the guess
      sits just outside the distance `d`. */
  lemma InitialGuessShape(a1: real, a2: real, g: Geometry)
    ensures a1 <= g.special ==> InitialGuess(a1, g) > g.d
    ensures g.special < a1 <= a2 ==> InitialGuess(a1, g) <= InitialGuess(a2, g) <= 8.0
    ensures g.special < 0.95 ==> InitialGuess(0.95, g) == 8.0
  {
  }

  /** The root finder with its arguments fixed: given `a` and a starting
      guess, the radius and angle it settles on, or `None` when it raises
      `ValueError`. */
  type Solver = (real, real) -> Option<(real, real)>

  /** The radius and angle of one cumulative value. */
  function RadiusAngle(a: real, g: Geometry, solve: Solver): (m: (Measure, Measure))
    ensures a == 0.0 ==> m == (Num(0.0), Num(0.0))
  {
    if a == 0.0 then (Num(0.0), Num(0.0))
    else match solve(a, InitialGuess(a, g))
      case None => (NaN, NaN)
      case Some((r, angle)) => (Num(r), Num(angle))
  }

  /** A zero value never reaches the solver: any two solvers agree on it. */
  lemma ZeroSkipsSolver(g: Geometry, s1: Solver, s2: Solver)
    ensures RadiusAngle(0.0, g, s1) == RadiusAngle(0.0, g, s2)
  {
  }

  /** One row of the glyph data: the original row with its selected columns
      and a `<col>_radius` and `<col>_angle` per selected column. */
  datatype KosaraRow = KosaraRow(barcode: string, x: real, y: real, radius: real,
                                 values: map<string, real>, radii: map<string, Measure>, angles: map<string, Measure>)

  /** `calculate_radius(filter_and_cumsum(df, selected), df)`. */
  function GetKosaraData(f: Frame, selected: seq<string>, g: Geometry, solve: Solver): Option<seq<KosaraRow>>
    requires Rectangular(f)
  {
    match FilterAndCumsum(f, selected)
    case None => None
    case Some(c) =>
      Some(seq(|f.rows|, i requires 0 <= i < |f.rows| =>
        var r := f.rows[i];
        var cum := c.rows[i].values;
        KosaraRow(r.barcode, r.x, r.y, r.radius, Project(r.values, selected),
                  map col | col in cum :: RadiusAngle(cum[col], g, solve).0,
                  map col | col in cum :: RadiusAngle(cum[col], g, solve).1)))
  }

  /** The glyph data exists exactly when the cumulative pass succeeds; then
      each row keeps its fixed columns and ORIGINAL selected values, has a
      radius and an angle for every selected column and for no other, a
      zero ratio gets radius 0 and angle 0, and a non-zero one gets the
      radius and angle of its RUNNING SUM, not of the ratio itself. */
  lemma GetKosaraDataSpec(f: Frame, selected: seq<string>, g: Geometry, solve: Solver)
    requires Rectangular(f)
    ensures GetKosaraData(f, selected, g, solve).Some? <==> HasColumns(f, selected) && NoDup(selected)
    ensures GetKosaraData(f, selected, g, solve).Some? ==>
      var rows := GetKosaraData(f, selected, g, solve).value;
      && |rows| == |f.rows|
      && forall i :: 0 <= i < |rows| ==>
           && rows[i].barcode == f.rows[i].barcode && rows[i].x == f.rows[i].x
           && rows[i].y == f.rows[i].y && rows[i].radius == f.rows[i].radius
           && (forall c :: c in rows[i].radii <==> c in selected)
           && (forall c :: c in rows[i].angles <==> c in selected)
           && (forall c :: c in rows[i].values <==> c in selected)
           && (forall c :: c in rows[i].values ==> rows[i].values[c] == f.rows[i].values[c])
           && (forall j :: 0 <= j < |selected| && f.rows[i].values[selected[j]] == 0.0 ==>
                 rows[i].radii[selected[j]] == Num(0.0) && rows[i].angles[selected[j]] == Num(0.0))
           && (forall j :: 0 <= j < |selected| && f.rows[i].values[selected[j]] != 0.0 ==>
                 && rows[i].radii[selected[j]] == RadiusAngle(Sum(f.rows[i].values, selected[..j + 1]), g, solve).0
                 && rows[i].angles[selected[j]] == RadiusAngle(Sum(f.rows[i].values, selected[..j + 1]), g, solve).1)
  {
    FilterAndCumsumSpec(f, selected);
    if FilterAndCumsum(f, selected).Some? {
      var c := FilterAndCumsum(f, selected).value;
      var rows := GetKosaraData(f, selected, g, solve).value;
      forall i | 0 <= i < |rows|
        ensures forall j :: 0 <= j < |selected| && f.rows[i].values[selected[j]] == 0.0 ==>
                  rows[i].radii[selected[j]] == Num(0.0) && rows[i].angles[selected[j]] == Num(0.0)
        ensures forall j :: 0 <= j < |selected| && f.rows[i].values[selected[j]] != 0.0 ==>
                  && rows[i].radii[selected[j]] == RadiusAngle(Sum(f.rows[i].values, selected[..j + 1]), g, solve).0
                  && rows[i].angles[selected[j]] == RadiusAngle(Sum(f.rows[i].values, selected[..j + 1]), g, solve).1
      {
        assert c.rows[i].values.Keys == c.columns;
      }
    }
  }
}
