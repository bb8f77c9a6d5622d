/**
 * A balance series as two paths: `pecu-chart/src/plot.rs` and `build` in
 * `pecu-chart/src/lib.rs`. Pixels and ratios are reals here; money and time are
 * integers, as in the source.
 */
module Plot {
  import opened Wrappers
  import opened Series
  import opened Numbers
  import Lttb

  const MAX_POINTS: nat := 240
  const CORNER: real := 4.0
  /** `f32::EPSILON`, two to the minus twenty-third. */
  const EPSILON: real := 1.0 / 8_388_608.0

  datatype Pen = Pen(x: real, y: real)

  /** Path commands, as section 9.3 of SVG 2 draws them. */
  datatype Command =
    | Move(to: Pen)
    | Line(to: Pen)
    | Quad(control: Pen, to: Pen)
    | Close

  datatype Viewport = Viewport(width: real, height: real, padLeft: real, padRight: real, padTop: real,
                               padBottom: real) {
    function PlotWidth(): real {
      Max(width - padLeft - padRight, 1.0)
    }

    function PlotHeight(): real {
      Max(height - padTop - padBottom, 1.0)
    }

    function Base(): real {
      padTop + PlotHeight()
    }
  }

  datatype Plot = Plot(
    line: seq<Command>, area: seq<Command>, xs: seq<real>, ys: seq<real>, values: seq<int>, times: seq<int>,
    low: int, high: int, span: (int, int), padLeft: real, plotWidth: real, flat: bool)

  function Clamp(x: real): real {
    if x < 0.0 then 0.0 else if x > 1.0 then 1.0 else x
  }

  // ---- the stroke ----

  /** No rise worth drawing. */
  predicate Level(ys: seq<real>, i: nat)
    requires 0 < i < |ys|
  {
    Abs(ys[i] - ys[i - 1]) < EPSILON
  }

  /** The corner radius at riser `i`: no wider than half of either run or of the rise. */
  function Radius(xs: seq<real>, ys: seq<real>, corner: real, i: nat): real
    requires 0 < i < |xs| == |ys|
  {
    var runIn := xs[i] - xs[i - 1];
    var runOut := if i + 1 < |xs| then xs[i + 1] - xs[i] else runIn;
    Max(Min(Min(Min(corner, runIn / 2.0), runOut / 2.0), Abs(ys[i] - ys[i - 1]) / 2.0), 0.0)
  }

  /** What reading `i` adds: a run, or a run, a corner, a riser and a corner. */
  function Tread(xs: seq<real>, ys: seq<real>, corner: real, i: nat): seq<Command>
    requires 0 < i < |xs| == |ys|
  {
    var (x, y, from) := (xs[i], ys[i], ys[i - 1]);
    if Level(ys, i) then [Line(Pen(x, from))]
    else
      var r := Radius(xs, ys, corner, i);
      var step := if y > from then r else -r;
      [Line(Pen(x - r, from)), Quad(Pen(x, from), Pen(x, from + step)), Line(Pen(x, y - step)),
       Quad(Pen(x, y), Pen(x + r, y))]
  }

  /** The stroke up to reading `n`. */
  function Stairs(xs: seq<real>, ys: seq<real>, corner: real, n: nat): seq<Command>
    requires n < |xs| == |ys|
  {
    if n == 0 then [Move(Pen(xs[0], ys[0]))] else Stairs(xs, ys, corner, n - 1) + Tread(xs, ys, corner, n)
  }

  method Staircase(xs: seq<real>, ys: seq<real>, corner: real) returns (path: seq<Command>)
    requires 0 < |xs| == |ys|
    ensures path == Stairs(xs, ys, corner, |xs| - 1)
  {
    path := [Move(Pen(xs[0], ys[0]))];
    for index := 1 to |xs|
      invariant path == Stairs(xs, ys, corner, index - 1)
    {
      var (x, y) := (xs[index], ys[index]);
      var (previousX, previousY) := (xs[index - 1], ys[index - 1]);
      var rise := y - previousY;
      if Abs(rise) < EPSILON {
        path := path + [Line(Pen(x, previousY))];
        continue;
      }
      var runIn := x - previousX;
      var runOut := if index + 1 < |xs| then xs[index + 1] - x else runIn;
      var radius := Max(Min(Min(Min(corner, runIn / 2.0), runOut / 2.0), Abs(rise) / 2.0), 0.0);
      var step := if rise > 0.0 then radius else -radius;
      path := path + [Line(Pen(x - radius, previousY)), Quad(Pen(x, previousY), Pen(x, previousY + step)),
                      Line(Pen(x, y - step)), Quad(Pen(x, y), Pen(x + radius, y))];
    }
  }

  function CloseToBaseline(line: seq<Command>, xs: seq<real>, view: Viewport): seq<Command> {
    if xs == [] then []
    else line + [Line(Pen(xs[|xs| - 1], view.Base())), Line(Pen(xs[0], view.Base())), Close]
  }

  // ---- the axes ----

  /** A fraction between zero and one. */
  function Ratio(part: int, whole: int): real {
    if whole <= 0 then 0.0 else Clamp(part as real / whole as real)
  }

  function XAt(view: Viewport, window: (int, int), t: int): real {
    view.padLeft + Ratio(SaturatingSub(t, window.0), SaturatingSub(window.1, window.0)) * view.PlotWidth()
  }

  function YAt(view: Viewport, low: int, high: int, value: int): real {
    if low == high then view.padTop + view.PlotHeight() / 2.0
    else view.padTop + (1.0 - Ratio(SaturatingSub(value, low), SaturatingSub(high, low))) * view.PlotHeight()
  }

  function Lowest(points: seq<Point>): (low: int)
    requires points != []
    ensures (forall p :: p in points ==> low <= p.value) && exists p :: p in points && p.value == low
  {
    assert points == [points[0]] + points[1..];
    if |points| == 1 then points[0].value
    else
      var rest := Lowest(points[1..]);
      if points[0].value < rest then points[0].value else rest
  }

  function Highest(points: seq<Point>): (high: int)
    requires points != []
    ensures (forall p :: p in points ==> p.value <= high) && exists p :: p in points && p.value == high
  {
    assert points == [points[0]] + points[1..];
    if |points| == 1 then points[0].value
    else
      var rest := Highest(points[1..]);
      if points[0].value > rest then points[0].value else rest
  }

  function Xs(points: seq<Point>, view: Viewport, window: (int, int)): seq<real> {
    seq(|points|, i requires 0 <= i < |points| => XAt(view, window, points[i].t))
  }

  function Ys(points: seq<Point>, view: Viewport, low: int, high: int): seq<real> {
    seq(|points|, i requires 0 <= i < |points| => YAt(view, low, high, points[i].value))
  }

  /** Too little to draw steps from: the last level, straight across, with nothing filled in. */
  function Single(points: seq<Point>, view: Viewport, window: (int, int)): Option<Plot> {
    if points == [] then None
    else
      var point, y := points[|points| - 1], view.padTop + view.PlotHeight() / 2.0;
      var right := view.padLeft + view.PlotWidth();
      Some(Plot([Move(Pen(view.padLeft, y)), Line(Pen(right, y))], [], [right], [y], [point.value], [point.t],
                point.value, point.value, window, view.padLeft, view.PlotWidth(), true))
  }

  function Drawn(points: seq<Point>, view: Viewport, corner: real, window: (int, int)): Option<Plot> {
    if |points| < 2 || SaturatingSub(window.1, window.0) <= 0 then Single(points, view, window)
    else
      var low, high := Lowest(points), Highest(points);
      var xs, ys := Xs(points, view, window), Ys(points, view, low, high);
      var line := Stairs(xs, ys, corner, |xs| - 1);
      Some(Plot(line, CloseToBaseline(line, xs, view), xs, ys,
                seq(|points|, i requires 0 <= i < |points| => points[i].value),
                seq(|points|, i requires 0 <= i < |points| => points[i].t),
                low, high, window, view.padLeft, view.PlotWidth(), low == high))
  }

  /** `thinned` is `points`, or, past the limit, what the buckets keep of them. */
  ghost predicate IsThinningOf(points: seq<Point>, thinned: seq<Point>) {
    if |points| <= MAX_POINTS then thinned == points
    else
      var cuts := Lttb.Cuts(|points| - 2, MAX_POINTS - 2, MAX_POINTS - 2);
      |thinned| == MAX_POINTS && Lttb.Tiles(cuts, |points|) && exists from :: Lttb.Thinned(points, cuts, thinned, from)
  }

  /** From the first reading to now. */
  function Window(points: seq<Point>, now: int): (int, int) {
    (if points == [] then now else points[0].t, now)
  }

  /** A history thinned, then plotted over its window. */
  method Build(points: seq<Point>, now: int, view: Viewport) returns (r: Option<Plot>)
    ensures exists kept :: IsThinningOf(points, kept) && r == Drawn(kept, view, CORNER, Window(points, now))
  {
    var window := (if points == [] then now else points[0].t, now);
    var thinned, from := Lttb.Downsample(points, MAX_POINTS);
    assert IsThinningOf(points, thinned);
    r := Drawn(thinned, view, CORNER, window);
  }

  /** The last reading at or left of the pointer, looking no further than the first one right of it. */
  method StepAt(xs: seq<real>, x: real) returns (governing: nat)
    ensures xs != [] ==> governing < |xs|
    ensures forall i :: 0 <= i <= governing < |xs| && xs[0] <= x ==> xs[i] <= x
    ensures xs != [] && xs[0] <= x ==> governing + 1 == |xs| || xs[governing + 1] > x
    ensures xs == [] || xs[0] > x ==> governing == 0
  {
    governing := 0;
    var index := 0;
    while index < |xs|
      invariant index <= |xs|
      invariant governing == if index == 0 then 0 else index - 1
      invariant forall i :: 0 <= i < index ==> xs[i] <= x
    {
      if xs[index] <= x {
        governing := index;
      } else {
        break;
      }
      index := index + 1;
    }
  }

  /** Round half away from zero, of a number not negative. */
  function Round(r: real): int {
    (r + 0.5).Floor
  }

  function SaturatingAdd(a: int, b: int): int {
    SaturatingSub(a, -b)
  }

  /** The instant under the pointer. */
  function TimeAt(plot: Plot, x: real): int {
    var (start, end) := plot.span;
    var span := SaturatingSub(end, start);
    if span <= 0 || plot.plotWidth <= 0.0 then end
    else SaturatingAdd(start, Round(Clamp((x - plot.padLeft) / plot.plotWidth) * span as real))
  }
}
