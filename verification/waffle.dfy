/** The waffle view: each spot is a 5×5 grid whose cells are handed out to
    the nine categories in order, in proportion to their ratios. */
module Waffle {
  import opened Seqs
  import opened Brushing

  /** Cells per glyph (`totalCells`). */
  const TotalCells: nat := 25

  /** Cells per row. */
  const Columns: nat := 5

  /** The waffle palette, one colour per category index. */
  const Palette: seq<string> :=
    ["#EF3819", "#F39A2E", "#A4F93F", "#41F63D", "#4BF7A7", "#459CF9", "#3821F6", "#A031F7", "#F23C9D"]

  /** `Math.round`: the nearest integer, halves rounded up. */
  function Round(x: real): (n: int)
    ensures n as real - 0.5 <= x < n as real + 0.5
  {
    (x + 0.5).Floor
  }

  /** `Math.round(ratio * totalCells)`: the cells a category asks for. A
      negative request asks for none. */
  function Request(ratio: real): int {
    Round(ratio * TotalCells as real)
  }

  /** The number of cells a request actually stands for. */
  function Wanted(ratio: real): nat {
    Max(0, Request(ratio)) as nat
  }

  /** One drawn cell: grid position, the category it belongs to, its fill. */
  datatype Cell = Cell(row: int, col: int, category: nat, color: string)

  /** The `k`-th cell drawn, for category `category`: row-major placement. */
  function PlaceCell(k: nat, category: nat): (c: Cell)
    requires category < |Palette|
    ensures c.row * Columns + c.col == k && 0 <= c.col < Columns
  {
    Cell(k / Columns, k % Columns, category, Palette[category])
  }

  /** The category of every cell asked for, in category order and with no cap:
      `Wanted(ratios[0])` copies of 0, then copies of 1, and so on. */
  function Demand(ratios: seq<real>): (d: seq<nat>)
    ensures forall k :: 0 <= k < |d| ==> d[k] < |ratios|
  {
    if ratios == [] then []
    else
      var i := |ratios| - 1;
      var before := Demand(ratios[..i]);
      assert forall k :: 0 <= k < |before| ==> before[k] < i;
      before + Repeat(i, Wanted(ratios[i]))
  }

  /** The first 25 demanded categories, placed row-major. */
  function Cells(d: seq<nat>): (cells: seq<Cell>)
    requires forall k :: 0 <= k < |d| ==> d[k] < |Palette|
    ensures |cells| == Min(|d|, TotalCells)
  {
    seq(Min(|d|, TotalCells), k requires 0 <= k < Min(|d|, TotalCells) => PlaceCell(k, d[k]))
  }

  /** The reference layout of one spot. */
  function Layout(ratios: seq<real>): seq<Cell>
    requires |ratios| <= |Palette|
  {
    Cells(Demand(ratios))
  }

  /** Once 25 cells are placed, asking for more changes nothing. */
  lemma CellsCapped(d: seq<nat>, e: seq<nat>)
    requires forall k :: 0 <= k < |d| ==> d[k] < |Palette|
    requires forall k :: 0 <= k < |e| ==> e[k] < |Palette|
    requires |d| >= TotalCells
    ensures Cells(d + e) == Cells(d)
  {
    var de := d + e;
    assert forall k :: 0 <= k < TotalCells ==> de[k] == d[k];
  }

  /** Placing one more demanded cell below the cap appends it at the next
      position. */
  lemma CellsAppend(d: seq<nat>, i: nat)
    requires forall k :: 0 <= k < |d| ==> d[k] < |Palette|
    requires i < |Palette| && |d| < TotalCells
    ensures Cells(d + [i]) == Cells(d) + [PlaceCell(|d|, i)]
  {
    var d' := d + [i];
    assert forall k :: 0 <= k < |d| ==> d'[k] == d[k];
  }

  /** Leaving the inner loop at the cap draws what the full request would. */
  lemma CapStops(before: seq<nat>, i: nat, j: nat, w: nat)
    requires forall k :: 0 <= k < |before| ==> before[k] < |Palette|
    requires i < |Palette| && j <= w
    requires |before + Repeat(i, j)| >= TotalCells
    ensures Cells(before + Repeat(i, j)) == Cells(before + Repeat(i, w))
  {
    CellsCapped(before + Repeat(i, j), Repeat(i, w - j));
    assert before + Repeat(i, j) + Repeat(i, w - j) == before + Repeat(i, w);
  }

  /** The nested loops of the main view: for each category in order, draw up
      to `Math.round(ratio * 25)` cells, leaving the inner loop once 25 cells
      are drawn. */
  method WaffleCells(ratios: seq<real>) returns (cells: seq<Cell>)
    requires |ratios| == |Palette|
    ensures cells == Layout(ratios)
  {
    cells := [];
    var filled := 0;
    var i := 0;
    while i < |ratios|
      invariant 0 <= i <= |ratios|
      invariant cells == Cells(Demand(ratios[..i]))
      invariant filled == |cells|
    {
      var n := Request(ratios[i]);
      var before := Demand(ratios[..i]);
      assert ratios[..i + 1][..i] == ratios[..i];
      assert Demand(ratios[..i + 1]) == before + Repeat(i, Wanted(ratios[i]));
      var j := 0;
      while j < n
        invariant 0 <= j <= Max(0, n)
        invariant cells == Cells(before + Repeat(i, j))
        invariant filled == |cells|
      {
        if filled >= TotalCells {
          CapStops(before, i, j, Wanted(ratios[i]));
          break;
        }
        CellsAppend(before + Repeat(i, j), i);
        assert before + Repeat(i, j + 1) == before + Repeat(i, j) + [i];
        cells := cells + [PlaceCell(filled, i)];
        filled := filled + 1;
        j := j + 1;
      }
      i := i + 1;
    }
    assert ratios[..i] == ratios;
  }

  /** The `k`-th cell drawn sits at row `k / 5` and column `k % 5` and has
      its category's colour; no glyph has more than 25 cells. */
  lemma LayoutPlacement(ratios: seq<real>)
    requires |ratios| <= |Palette|
    ensures var cells := Layout(ratios);
      && |cells| <= TotalCells
      && forall k :: 0 <= k < |cells| ==>
           && cells[k].row == k / Columns && cells[k].col == k % Columns
           && cells[k].category < |Palette| && cells[k].color == Palette[cells[k].category]
  {
  }

  /** Every cell lies on the 5×5 grid and no two cells share a position. */
  lemma LayoutGrid(ratios: seq<real>)
    requires |ratios| <= |Palette|
    ensures var cells := Layout(ratios);
      && |cells| <= TotalCells
      && (forall k :: 0 <= k < |cells| ==> 0 <= cells[k].row < Columns && 0 <= cells[k].col < Columns)
      && (forall k1, k2 :: 0 <= k1 < k2 < |cells| ==>
            (cells[k1].row, cells[k1].col) != (cells[k2].row, cells[k2].col))
  {
    var cells := Layout(ratios);
    forall k | 0 <= k < |cells| ensures 0 <= cells[k].row < Columns {
      assert cells[k].row * Columns + cells[k].col == k;
    }
  }

  /** Cells asked for by the first `|s|` categories, before the cap. */
  function TotalWanted(s: seq<real>): nat {
    if s == [] then 0 else TotalWanted(s[..|s| - 1]) + Wanted(s[|s| - 1])
  }

  /** The cells asked for before category `i`. */
  function Used(ratios: seq<real>, i: nat): nat
    requires i <= |ratios|
  {
    TotalWanted(ratios[..i])
  }

  lemma {:induction false} DemandLength(s: seq<real>)
    ensures |Demand(s)| == TotalWanted(s)
  {
    if s != [] {
      DemandLength(s[..|s| - 1]);
    }
  }

  lemma {:induction false} TotalWantedMonotone(s: seq<real>, i: nat)
    requires i <= |s|
    ensures TotalWanted(s[..i]) <= TotalWanted(s)
    decreases |s|
  {
    if i < |s| {
      var init := s[..|s| - 1];
      assert s[..i] == init[..i];
      assert TotalWanted(s) == TotalWanted(init) + Wanted(s[|s| - 1]);
      TotalWantedMonotone(init, i);
    } else {
      assert s[..i] == s;
    }
  }

  /** Demanded categories come in runs, in category order: category `i`
      occupies exactly the positions from `Used(ratios, i)` on, for
      `Wanted(ratios[i])` places. */
  lemma {:induction false} DemandRuns(ratios: seq<real>, i: nat)
    requires i < |ratios|
    ensures forall k :: 0 <= k < |Demand(ratios)| ==>
      (Demand(ratios)[k] == i <==> Used(ratios, i) <= k < Used(ratios, i) + Wanted(ratios[i]))
    decreases |ratios|
  {
    var last := |ratios| - 1;
    var init := ratios[..last];
    var before := Demand(init);
    var d := Demand(ratios);
    DemandLength(init);
    assert d == before + Repeat(last, Wanted(ratios[last]));
    if i == last {
      assert Used(ratios, i) == |before|;
    } else {
      DemandRuns(init, i);
      assert ratios[..i] == init[..i];
      assert ratios[..i + 1] == init[..i + 1];
      assert init[..i + 1][..i] == init[..i];
      TotalWantedMonotone(init, i + 1);
      forall k | 0 <= k < |d| ensures d[k] == i <==> Used(ratios, i) <= k < Used(ratios, i) + Wanted(ratios[i]) {
        if k < |before| {
          assert d[k] == before[k];
        }
      }
    }
  }

  /** Categories are filled in index order as contiguous runs: category `i`
      gets the cells from where the earlier ones stopped (at most 25), and
      exactly `min(request, 25 - cells already used)` of them. */
  lemma CategoryRuns(ratios: seq<real>, i: nat)
    requires |ratios| <= |Palette| && i < |ratios|
    ensures var start := Min(TotalCells, Used(ratios, i));
      var granted := Min(Wanted(ratios[i]), TotalCells - start);
      forall k :: 0 <= k < |Layout(ratios)| ==>
        (Layout(ratios)[k].category == i <==> start <= k < start + granted)
  {
    DemandRuns(ratios, i);
  }

  /** The `forEach` of the mirrored view, one step of its inner loop per
      call: `left` cells still asked for category `category`. */
  function RunCells(cells: seq<Cell>, category: nat, left: int): (r: seq<Cell>)
    requires category < |Palette|
    decreases left
  {
    if left <= 0 || |cells| >= TotalCells then cells
    else RunCells(cells + [PlaceCell(|cells|, category)], category, left - 1)
  }

  /** The mirrored view's `d.ratios.forEach((ratio, index) => ...)` from
      category `index` on. */
  function ForEachRatio(ratios: seq<real>, index: nat, cells: seq<Cell>): seq<Cell>
    requires |ratios| <= |Palette| && index <= |ratios|
    decreases |ratios| - index
  {
    if index == |ratios| then cells
    else ForEachRatio(ratios, index + 1, RunCells(cells, index, Request(ratios[index])))
  }

  /** The cells of a mirrored spot. */
  function MirroredCells(ratios: seq<real>): seq<Cell>
    requires |ratios| <= |Palette|
  {
    ForEachRatio(ratios, 0, [])
  }

  lemma {:induction false} RunCellsExtends(d: seq<nat>, category: nat, left: int, j: nat)
    requires category < |Palette|
    requires forall k :: 0 <= k < |d| ==> d[k] < |Palette|
    ensures RunCells(Cells(d + Repeat(category, j)), category, left)
         == Cells(d + Repeat(category, j + Max(0, left)))
    decreases left
  {
    var cur := d + Repeat(category, j);
    if left <= 0 {
    } else if |Cells(cur)| >= TotalCells {
      CellsCapped(cur, Repeat(category, left));
      assert cur + Repeat(category, left) == d + Repeat(category, j + left);
    } else {
      var next := d + Repeat(category, j + 1);
      assert next == cur + [category];
      assert Cells(cur) + [PlaceCell(|Cells(cur)|, category)] == Cells(next) by {
        assert forall k :: 0 <= k < |cur| ==> next[k] == cur[k];
      }
      RunCellsExtends(d, category, left - 1, j + 1);
    }
  }

  lemma {:induction false} ForEachRatioIsLayout(ratios: seq<real>, index: nat)
    requires |ratios| <= |Palette| && index <= |ratios|
    ensures ForEachRatio(ratios, index, Cells(Demand(ratios[..index]))) == Layout(ratios)
    decreases |ratios| - index
  {
    if index == |ratios| {
      assert ratios[..index] == ratios;
    } else {
      var before := Demand(ratios[..index]);
      assert ratios[..index + 1][..index] == ratios[..index];
      assert before + Repeat(index, 0) == before;
      assert Demand(ratios[..index + 1]) == before + Repeat(index, Wanted(ratios[index]));
      RunCellsExtends(before, index, Request(ratios[index]), 0);
      ForEachRatioIsLayout(ratios, index + 1);
    }
  }

  /** The mirrored view draws, cell for cell, what the main view draws for
      the same ratios. */
  lemma MirroredMatchesMain(ratios: seq<real>)
    requires |ratios| <= |Palette|
    ensures MirroredCells(ratios) == Layout(ratios)
  {
    assert ratios[..0] == [];
    ForEachRatioIsLayout(ratios, 0);
  }

  /** One spot of the waffle view: scaled position and its nine ratios. */
  datatype WaffleSpot = WaffleSpot(barcode: string, x: real, y: real, ratios: seq<real>)

  function InRect(rect: Rect): WaffleSpot -> bool {
    (d: WaffleSpot) => Inside(rect, d.x, d.y)
  }

  /** A spot of the mirror panel and where it is drawn in the panel. */
  datatype Mirrored = Mirrored(spot: WaffleSpot, dx: real, dy: real)

  /** The mirror panel: the spots inside the brushed rectangle, each moved
      by `(-x0, -y0)`. */
  function MirrorSpots(data: seq<WaffleSpot>, rect: Rect): (r: seq<Mirrored>)
    ensures |r| <= |data|
  {
    var kept := Filter(data, InRect(rect));
    seq(|kept|, k requires 0 <= k < |kept| => Mirrored(kept[k], kept[k].x - rect.x0, kept[k].y - rect.y0))
  }

  /** The mirror panel shows, in input order, exactly the spots inside the
      inclusive rectangle, each translated to `(x - x0, y - y0)`, which lies
      inside the panel's clip box `[0, x1 - x0] × [0, y1 - y0]`. */
  lemma MirrorSelection(data: seq<WaffleSpot>, rect: Rect) returns (idx: seq<int>)
    ensures var r := MirrorSpots(data, rect);
      && |idx| == |r|
      && StrictlyIncreasing(idx, |data|)
      && (forall j :: 0 <= j < |data| ==> (j in idx <==> Inside(rect, data[j].x, data[j].y)))
      && (forall k :: 0 <= k < |idx| ==>
            && r[k].spot == data[idx[k]]
            && r[k].dx == data[idx[k]].x - rect.x0 && r[k].dy == data[idx[k]].y - rect.y0
            && 0.0 <= r[k].dx <= rect.x1 - rect.x0 && 0.0 <= r[k].dy <= rect.y1 - rect.y0)
  {
    idx := FilterPositions(data, InRect(rect));
    var kept := Filter(data, InRect(rect));
    forall j | 0 <= j < |data| && j in idx ensures Inside(rect, data[j].x, data[j].y) {
      var k :| 0 <= k < |idx| && idx[k] == j;
      assert InRect(rect)(kept[k]);
    }
    forall k | 0 <= k < |idx| ensures Inside(rect, kept[k].x, kept[k].y) {
      assert InRect(rect)(kept[k]);
    }
  }
}
