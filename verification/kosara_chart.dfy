/** The glyph chart: the path plan of one spot's glyph
    (`generateKosaraPath`) and the brush that hands spots to the other views. */
module KosaraChart {
  import opened Seqs
  import opened Categories
  import opened Visibility
  import opened KosaraSelection
  import opened Brushing

  /** A point on the boundary of the glyph circle centred at `(cx, cy)` with
      radius `r`, at `degrees`. The sine/cosine placement is kept abstract:
      two points are the same exactly when they come from the same data. */
  datatype Point = Boundary(cx: real, cy: real, r: real, degrees: real)

  /** `startpoint`: the boundary point at `45 + angle` degrees. */
  function StartPoint(cx: real, cy: real, r: real, angle: real): Point {
    Boundary(cx, cy, r, 45.0 + angle)
  }

  /** `endpoint`: the boundary point at `45 - angle` degrees. */
  function EndPoint(cx: real, cy: real, r: real, angle: real): Point {
    Boundary(cx, cy, r, 45.0 - angle)
  }

  /** The three wedge forms of a glyph, and the empty path. */
  datatype Shape =
    | NoShape
      /** First wedge: from its start to its end and back. */
    | Lens(start: Point, end: Point)
      /** Middle wedge: the previous wedge's start and end, then its own end
          and start. */
    | Band(lastStart: Point, lastEnd: Point, end: Point, start: Point)
      /** Last wedge: the large arc from the previous wedge's start to its
          end, then back. */
    | Closing(lastStart: Point, lastEnd: Point)

  /** One `{ path, color }` object. */
  datatype Entry = Entry(shape: Shape, color: string)

  const Transparent: string := "transparent"

  /** An SVG elliptical arc command `A radius radius 0 largeArc sweep to`:
      a circular arc, both semi-axes equal. */
  datatype Arc = Arc(radius: real, largeArc: bool, sweep: bool, to: Point)

  /** `M moveTo` followed by arcs and a closing `Z`. */
  datatype PathData = PathData(moveTo: Point, arcs: seq<Arc>)

  /** The `d` attribute of a shape; `None` is the empty string. */
  function Render(shape: Shape): Option<PathData> {
    match shape
    case NoShape => None
    case Lens(s, e) => Some(PathData(s, [Arc(s.r, false, false, e), Arc(s.r, false, false, s)]))
    case Band(ls, le, e, s) =>
      Some(PathData(ls, [Arc(ls.r, false, true, le), Arc(ls.r, false, false, e),
                         Arc(ls.r, false, false, s), Arc(ls.r, false, false, ls)]))
    case Closing(ls, le) => Some(PathData(ls, [Arc(ls.r, true, true, le), Arc(ls.r, false, false, ls)]))
  }

  /** Every drawn path returns to where it started before `Z`; every arc is
      drawn on the circle its first point lies on; only the closing wedge
      sweeps a large arc; a lens and a closing wedge have two arcs and a
      band four. */
  lemma RenderShapes(shape: Shape)
    ensures shape == NoShape <==> Render(shape).None?
    ensures Render(shape).Some? ==>
      var d := Render(shape).value;
      && |d.arcs| > 0
      && d.arcs[|d.arcs| - 1].to == d.moveTo
      && (forall k :: 0 <= k < |d.arcs| ==> d.arcs[k].radius == d.moveTo.r)
      && ((exists k :: 0 <= k < |d.arcs| && d.arcs[k].largeArc) <==> shape.Closing?)
      && |d.arcs| == (if shape.Band? then 4 else 2)
  {
    match shape
    case NoShape =>
    case Lens(s, e) =>
      var d := Render(shape).value;
      assert !d.arcs[0].largeArc && !d.arcs[1].largeArc;
    case Band(ls, le, e, s) =>
      var d := Render(shape).value;
      assert !d.arcs[0].largeArc && !d.arcs[1].largeArc && !d.arcs[2].largeArc && !d.arcs[3].largeArc;
    case Closing(ls, le) =>
      assert Render(shape).value.arcs[0].largeArc;
  }

  /** The shape of the wedge at `index` among `n`, given its own angle and
      the points of the wedge before it. */
  function ShapeAt(cx: real, cy: real, r: real, index: nat, n: nat, angle: real, last: Option<(Point, Point)>): Shape
    requires index == 0 <==> last.None?
  {
    var start := StartPoint(cx, cy, r, angle);
    var end := EndPoint(cx, cy, r, angle);
    if index == 0 then Lens(start, end)
    else if index == n - 1 then Closing(last.value.0, last.value.1)
    else Band(last.value.0, last.value.1, end, start)
  }

  /** The `forEach` over the re-sorted wedges, `index` counting from the first
      and `last` holding the previous wedge's start and end points. */
  function PlanFrom(cx: real, cy: real, r: real, wedges: seq<(Category, real)>, index: nat, n: nat,
                    last: Option<(Point, Point)>): (entries: seq<Entry>)
    requires index + |wedges| == n
    requires index == 0 <==> last.None?
    ensures |entries| == |wedges|
    decreases |wedges|
  {
    if wedges == [] then []
    else
      var angle := wedges[0].1;
      var shape := ShapeAt(cx, cy, r, index, n, angle, last);
      var next := Some((StartPoint(cx, cy, r, angle), EndPoint(cx, cy, r, angle)));
      [Entry(shape, OfficialColor(wedges[0].0))] + PlanFrom(cx, cy, r, wedges[1..], index + 1, n, next)
  }

  /** `generateKosaraPath(pointX, pointY, angles, ratios, cellShownStatus)`
      for a glyph of radius `r`. */
  function GenerateKosaraPath(cx: real, cy: real, r: real, angles: Ratios, ratios: Ratios, status: ShownStatus): seq<Entry>
    requires ratios.Keys <= angles.Keys
  {
    var wedges := Wedges(angles, ratios, status);
    if |wedges| == 0 then [Entry(NoShape, Transparent)]
    else PlanFrom(cx, cy, r, wedges, 0, |wedges|, None)
  }

  /** The points of the wedge before position `i`, if any. */
  function Previous(cx: real, cy: real, r: real, wedges: seq<(Category, real)>, i: nat): (last: Option<(Point, Point)>)
    requires i <= |wedges|
    ensures i == 0 <==> last.None?
  {
    if i == 0 then None
    else Some((StartPoint(cx, cy, r, wedges[i - 1].1), EndPoint(cx, cy, r, wedges[i - 1].1)))
  }

  /** Reference plan: entry `i` computed directly from wedges `i - 1` and `i`. */
  function Plan(cx: real, cy: real, r: real, wedges: seq<(Category, real)>): (entries: seq<Entry>)
    ensures |entries| == |wedges|
  {
    seq(|wedges|, i requires 0 <= i < |wedges| =>
      Entry(ShapeAt(cx, cy, r, i, |wedges|, wedges[i].1, Previous(cx, cy, r, wedges, i)), OfficialColor(wedges[i].0)))
  }

  /** The fold with its running "last points" computes the reference plan. */
  lemma {:induction false} PlanFromIsPlan(cx: real, cy: real, r: real, all: seq<(Category, real)>, index: nat)
    requires index <= |all|
    ensures PlanFrom(cx, cy, r, all[index..], index, |all|, Previous(cx, cy, r, all, index))
         == Plan(cx, cy, r, all)[index..]
    decreases |all| - index
  {
    if index < |all| {
      PlanFromIsPlan(cx, cy, r, all, index + 1);
      assert all[index..][1..] == all[index + 1..];
      var plan := Plan(cx, cy, r, all);
      assert plan[index..] == [plan[index]] + plan[index + 1..];
    }
  }

  /** The closed form of entry `i`: colour of its category; a lens of its own
      points first, a closing slice of the previous wedge's points last, and
      a band from the previous wedge's points to its own in between. */
  ghost predicate WedgeShape(cx: real, cy: real, r: real, wedges: seq<(Category, real)>, i: nat, e: Entry)
    requires i < |wedges|
  {
    var n := |wedges|;
    && e.color == OfficialColor(wedges[i].0)
    && (i == 0 ==> e.shape == Lens(StartPoint(cx, cy, r, wedges[0].1), EndPoint(cx, cy, r, wedges[0].1)))
    && (0 < i && i == n - 1 ==>
          e.shape == Closing(StartPoint(cx, cy, r, wedges[i - 1].1), EndPoint(cx, cy, r, wedges[i - 1].1)))
    && (0 < i < n - 1 ==>
          e.shape == Band(StartPoint(cx, cy, r, wedges[i - 1].1), EndPoint(cx, cy, r, wedges[i - 1].1),
                          EndPoint(cx, cy, r, wedges[i].1), StartPoint(cx, cy, r, wedges[i].1)))
  }

  /** With no candidate the glyph is the single transparent empty path;
      otherwise there is one entry per kept wedge, coloured by its category,
      shaped as `WedgeShape` says, in canonical order. */
  lemma GenerateKosaraPathSpec(cx: real, cy: real, r: real, angles: Ratios, ratios: Ratios, status: ShownStatus)
    requires ratios.Keys <= angles.Keys
    ensures var paths := GenerateKosaraPath(cx, cy, r, angles, ratios, status);
      var wedges := Wedges(angles, ratios, status);
      && (|Candidates(ratios, status)| == 0 <==> paths == [Entry(NoShape, Transparent)])
      && (|Candidates(ratios, status)| > 0 ==>
            && |paths| == |wedges| == Min(MaxWedges, |Candidates(ratios, status)|)
            && forall i :: 0 <= i < |paths| ==> WedgeShape(cx, cy, r, wedges, i, paths[i]))
  {
    var wedges := Wedges(angles, ratios, status);
    assert |wedges| == |TopSix(ratios, status)|;
    if |wedges| > 0 {
      PlanShapes(cx, cy, r, wedges);
    }
  }

  /** The fold from the first wedge draws every wedge as `WedgeShape` says. */
  lemma PlanShapes(cx: real, cy: real, r: real, wedges: seq<(Category, real)>)
    requires |wedges| > 0
    ensures var paths := PlanFrom(cx, cy, r, wedges, 0, |wedges|, None);
      && paths[0].shape.Lens?
      && forall i :: 0 <= i < |paths| ==> WedgeShape(cx, cy, r, wedges, i, paths[i])
  {
    PlanFromIsPlan(cx, cy, r, wedges, 0);
    assert wedges[0..] == wedges;
    var plan := Plan(cx, cy, r, wedges);
    assert plan[0..] == plan;
  }

  /** The last wedge of a glyph with two or more wedges is drawn from the
      previous wedge's points alone: its own angle has no effect. */
  lemma LastWedgeIgnoresItsAngle(cx: real, cy: real, r: real, wedges: seq<(Category, real)>, other: real)
    requires |wedges| >= 2
    ensures var n := |wedges|;
      var changed := wedges[n - 1 := (wedges[n - 1].0, other)];
      PlanFrom(cx, cy, r, changed, 0, n, None) == PlanFrom(cx, cy, r, wedges, 0, n, None)
  {
    var n := |wedges|;
    var changed := wedges[n - 1 := (wedges[n - 1].0, other)];
    PlanFromIsPlan(cx, cy, r, changed, 0);
    PlanFromIsPlan(cx, cy, r, wedges, 0);
    assert changed[0..] == changed && wedges[0..] == wedges;
    var a := Plan(cx, cy, r, changed);
    var b := Plan(cx, cy, r, wedges);
    forall i | 0 <= i < n ensures a[i] == b[i] {
      assert Previous(cx, cy, r, changed, i) == Previous(cx, cy, r, wedges, i);
    }
  }

  /** One spot of the glyph view as loaded: scaled position, the nine ratios
      and the nine angles. */
  datatype Spot = Spot(barcode: string, x: real, y: real, ratios: Ratios, angles: Ratios)

  /** What the glyph view hands to the other views for one spot. */
  datatype SelectedSpot = SelectedSpot(barcode: string, x: real, y: real, ratios: Ratios)

  /** `Object.fromEntries(Object.entries(ratios).filter(...selectedCells.includes(key)))`. */
  function ShownRatios(ratios: Ratios, status: ShownStatus): (shown: Ratios)
    ensures forall c :: c in shown <==> c in ratios && IsShown(status, c)
    ensures forall c :: c in shown ==> shown[c] == ratios[c]
  {
    map c | c in ratios && IsShown(status, c) :: ratios[c]
  }

  function ToSelected(d: Spot, status: ShownStatus): SelectedSpot {
    SelectedSpot(d.barcode, d.x, d.y, ShownRatios(d.ratios, status))
  }

  /** The selection published before any brushing: every spot. */
  function SelectAll(data: seq<Spot>, status: ShownStatus): (selected: seq<SelectedSpot>)
    ensures |selected| == |data|
    ensures forall i :: 0 <= i < |data| ==> selected[i] == ToSelected(data[i], status)
  {
    seq(|data|, i requires 0 <= i < |data| => ToSelected(data[i], status))
  }

  function InBrush(rect: Rect): Spot -> bool {
    (d: Spot) => Inside(rect, d.x, d.y)
  }

  /** `brushEnded`: without a selection nothing is published (`None`);
      otherwise the spots inside the rectangle, mapped as for `SelectAll`. */
  function BrushEnded(data: seq<Spot>, status: ShownStatus, selection: Option<Rect>): Option<seq<SelectedSpot>> {
    match selection
    case None => None
    case Some(rect) => Some(SelectAll(Filter(data, InBrush(rect)), status))
  }

  /** A brush publishes, in input order, exactly the spots with
      `x0 <= x <= x1` and `y0 <= y <= y1`, each with its barcode and position
      unchanged and its ratios cut down to the shown categories; `idx` names
      the input position of each published spot. */
  lemma BrushSelection(data: seq<Spot>, status: ShownStatus, rect: Rect) returns (idx: seq<int>)
    ensures BrushEnded(data, status, Some(rect)).Some?
    ensures var selected := BrushEnded(data, status, Some(rect)).value;
      && |idx| == |selected|
      && StrictlyIncreasing(idx, |data|)
      && (forall j :: 0 <= j < |data| ==> (j in idx <==> Inside(rect, data[j].x, data[j].y)))
      && (forall k :: 0 <= k < |idx| ==>
            && selected[k].barcode == data[idx[k]].barcode
            && selected[k].x == data[idx[k]].x && selected[k].y == data[idx[k]].y
            && (forall c :: c in selected[k].ratios <==> c in data[idx[k]].ratios && IsShown(status, c))
            && (forall c :: c in selected[k].ratios ==> selected[k].ratios[c] == data[idx[k]].ratios[c]))
  {
    idx := FilterPositions(data, InBrush(rect));
    var kept := Filter(data, InBrush(rect));
    forall j | 0 <= j < |data| && j in idx ensures Inside(rect, data[j].x, data[j].y) {
      var k :| 0 <= k < |idx| && idx[k] == j;
      assert kept[k] == data[j];
      assert InBrush(rect)(kept[k]);
    }
  }
}
