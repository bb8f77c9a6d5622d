/** The chart from end to end: a history reconstructed, thinned and drawn. */
module ChartTheorems {
  import opened Series
  import opened Numbers
  import Lttb
  import LttbTheorems
  import opened Plot
  import opened PlotTheorems

  lemma ThinningKeepsTimeOrder(points: seq<Point>, thinned: seq<Point>)
    requires TimeOrdered(points) && IsThinningOf(points, thinned)
    ensures TimeOrdered(thinned)
  {
    if |points| > MAX_POINTS {
      var cuts := Lttb.Cuts(|points| - 2, MAX_POINTS - 2, MAX_POINTS - 2);
      var from :| Lttb.Thinned(points, cuts, thinned, from);
      LttbTheorems.KeptAreThePoints(points, cuts, thinned, from, 0);
      forall i, j | 0 <= i < j < |thinned|
        ensures thinned[i].t <= thinned[j].t
      {
        LttbTheorems.KeptAreThePoints(points, cuts, thinned, from, i);
        LttbTheorems.KeptAreThePoints(points, cuts, thinned, from, j);
        LttbTheorems.ThinningKeepsOrder(points, cuts, thinned, from, i, j);
      }
    }
  }

  lemma SeriesIsTimeOrdered(now: int, balance: int, deltas: seq<Delta>)
    ensures TimeOrdered(Deltas(now, balance, deltas))
  {
    if deltas != [] {
      SeriesIsSortedReadings(now, balance, deltas, 0);
      var s := Deltas(now, balance, deltas);
      forall i, j | 0 <= i < j < |s|
        ensures s[i].t <= s[j].t
      {
        assert Time(s[i]) <= Time(s[j]);
      }
    }
  }

  // ---- the drawn line ----

  predicate InTheBox(view: Viewport, x: real, y: real) {
    view.padLeft <= x <= view.padLeft + view.PlotWidth() && view.padTop <= y <= view.Base()
  }

  /** Readings in the box, in order from left to right. */
  predicate LaidOut(view: Viewport, plot: Plot) {
    && |plot.xs| == |plot.ys| && Nondecreasing(plot.xs)
    && forall i :: 0 <= i < |plot.xs| ==> InTheBox(view, plot.xs[i], plot.ys[i])
  }

  /** A drawn point is in the box, but for the last corner, which may pass its right edge. */
  predicate OnTheCanvas(view: Viewport, corner: real, p: Pen) {
    view.padLeft <= p.x <= view.padLeft + view.PlotWidth() + Max(corner, 0.0) && view.padTop <= p.y <= view.Base()
  }

  lemma SinglePointInTheBox(view: Viewport)
    ensures InTheBox(view, view.padLeft + view.PlotWidth(), view.padTop + view.PlotHeight() / 2.0)
    ensures InTheBox(view, view.padLeft, view.padTop + view.PlotHeight() / 2.0)
  {}

  /** Readings in time order are laid out left to right in their box, whatever the window. */
  lemma DrawnIsLaidOut(points: seq<Point>, view: Viewport, corner: real, window: (int, int))
    requires points != [] && TimeOrdered(points)
    ensures Drawn(points, view, corner, window).Some?
    ensures LaidOut(view, Drawn(points, view, corner, window).value)
  {
    var plot := Drawn(points, view, corner, window).value;
    SinglePointInTheBox(view);
    XsOfTimeOrdered(points, view, window);
    if |points| >= 2 && SaturatingSub(window.1, window.0) > 0 {
      forall i | 0 <= i < |points|
        ensures InTheBox(view, plot.xs[i], plot.ys[i])
      {
        XsRiseInsideTheBox(view, window, points[i].t, points[i].t);
        YsInsideTheBox(view, plot.low, plot.high, points[i].value);
      }
    }
  }

  lemma {:induction false} TraceStopsAtTheEnd(path: seq<Command>, pen: Pen)
    requires path != [] && !path[|path| - 1].Close?
    ensures Trace(path, pen, |path| - 1, 1.0) == PenAfter(path, pen)
  {
    assert path[..|path|] == path;
    PenAfterExtends(path, pen, |path| - 1);
  }

  lemma StairsStayOnTheCanvas(view: Viewport, xs: seq<real>, ys: seq<real>, corner: real, k: nat, s: real)
    requires 1 < |xs| == |ys| && Nondecreasing(xs) && 0.0 <= s <= 1.0
    requires forall i :: 0 <= i < |xs| ==> InTheBox(view, xs[i], ys[i])
    requires k < |Stairs(xs, ys, corner, |xs| - 1)|
    ensures OnTheCanvas(view, corner, Trace(Stairs(xs, ys, corner, |xs| - 1), Start(xs, ys), k, s))
  {
    var n := |xs| - 1;
    var line := Stairs(xs, ys, corner, n);
    StairsAreRightward(xs, ys, corner, n);
    TheLineNeverDoublesBack(xs, ys, corner, k, s, |line| - 1, 1.0);
    TraceStopsAtTheEnd(line, Start(xs, ys));
    assert InTheBox(view, xs[0], ys[0]) && InTheBox(view, xs[n], ys[n]);
    LineStaysInside(xs, ys, corner, n, k, s, view.padTop, view.Base());
  }

  lemma StairsAreDrawn(xs: seq<real>, ys: seq<real>, corner: real, n: nat)
    requires n < |xs| == |ys|
    ensures var line := Stairs(xs, ys, corner, n);
            line != [] && line[0] == Move(Start(xs, ys)) && !line[|line| - 1].Close?
  {
  }

  // ---- the filled area ----

  /** The edges that close the area, the last being what closing draws: straight back to where the line began. */
  function Edges(xs: seq<real>, ys: seq<real>, view: Viewport): seq<Command>
    requires 0 < |xs| == |ys|
  {
    [Line(Pen(xs[|xs| - 1], view.Base())), Line(Pen(xs[0], view.Base())), Line(Start(xs, ys))]
  }

  lemma SegmentStaysOnTheCanvas(view: Viewport, corner: real, p: Pen, q: Pen, s: real)
    requires OnTheCanvas(view, corner, p) && OnTheCanvas(view, corner, q) && 0.0 <= s <= 1.0
    ensures OnTheCanvas(view, corner, On(p, Line(q), s))
  {
    var right := view.padLeft + view.PlotWidth() + Max(corner, 0.0);
    InsideStays(p, Line(q), view.padTop, view.Base(), s);
    Weighted(1.0 - s, s, 0.0, p.x - view.padLeft, q.x - view.padLeft, 0.0);
    Weighted(1.0 - s, s, 0.0, right - p.x, right - q.x, 0.0);
  }

  lemma EdgesStayOnTheCanvas(view: Viewport, xs: seq<real>, ys: seq<real>, corner: real, end: Pen, k: nat, s: real)
    requires 0 < |xs| == |ys| && k < 3 && 0.0 <= s <= 1.0 && OnTheCanvas(view, corner, end)
    requires InTheBox(view, xs[0], ys[0]) && InTheBox(view, xs[|xs| - 1], ys[|ys| - 1])
    ensures OnTheCanvas(view, corner, Trace(Edges(xs, ys, view), end, k, s))
  {
    var edges := Edges(xs, ys, view);
    var (right, left) := (Pen(xs[|xs| - 1], view.Base()), Pen(xs[0], view.Base()));
    assert edges[..0] == [];
    PenAfterExtends(edges, end, 0);
    PenAfterExtends(edges, end, 1);
    SegmentStaysOnTheCanvas(view, corner, end, right, s);
    SegmentStaysOnTheCanvas(view, corner, right, left, s);
    SegmentStaysOnTheCanvas(view, corner, left, Start(xs, ys), s);
  }

  /** Where the line stops is on the canvas, past its last reading by that reading's corner. */
  lemma LineStops(view: Viewport, xs: seq<real>, ys: seq<real>, corner: real, end: Pen)
    requires 0 < |xs| == |ys| && Nondecreasing(xs)
    requires forall i :: 0 <= i < |xs| ==> InTheBox(view, xs[i], ys[i])
    requires end == PenAfter(Stairs(xs, ys, corner, |xs| - 1), Start(xs, ys))
    ensures OnTheCanvas(view, corner, end)
    ensures end.x == xs[|xs| - 1] + Overshoot(xs, ys, corner, |xs| - 1)
  {
    var n := |xs| - 1;
    StairsAreRightward(xs, ys, corner, n);
    AfterStairs(xs, ys, corner, n);
    assert InTheBox(view, xs[n], ys[n]);
    if n > 0 {
      assert InTheBox(view, xs[n - 1], ys[n - 1]);
    }
  }

  /**
   * The area is the line and three edges, all on the canvas: down to the
   * baseline, along it, and straight up to where the line began. The first is
   * upright exactly when the last riser was not drawn or has no corner to it.
   */
  lemma AreaIsClosedOnTheCanvas(view: Viewport, xs: seq<real>, ys: seq<real>, corner: real, line: seq<Command>,
                                k: nat, s: real)
    requires 1 < |xs| == |ys| && Nondecreasing(xs) && 0.0 <= s <= 1.0 && line == Stairs(xs, ys, corner, |xs| - 1)
    requires forall i :: 0 <= i < |xs| ==> InTheBox(view, xs[i], ys[i])
    ensures CloseToBaseline(line, xs, view) == line + Edges(xs, ys, view)[..2] + [Close]
    ensures k < |line| + 3 ==> OnTheCanvas(view, corner, Trace(line + Edges(xs, ys, view), Start(xs, ys), k, s))
    ensures var n := |xs| - 1;
            PenAfter(line, Start(xs, ys)).x == xs[n] <==> Level(ys, n) || Radius(xs, ys, corner, n) == 0.0
  {
    var end := PenAfter(line, Start(xs, ys));
    LineStops(view, xs, ys, corner, end);
    if k < |line| {
      StairsStayOnTheCanvas(view, xs, ys, corner, k, s);
      TraceJoins(line, Edges(xs, ys, view), Start(xs, ys), k, s);
    } else if k < |line| + 3 {
      TraceJoins(line, Edges(xs, ys, view), Start(xs, ys), k, s);
      EdgesStayOnTheCanvas(view, xs, ys, corner, end, k - |line|, s);
    }
  }

  lemma SingleStaysOnTheCanvas(view: Viewport, corner: real, k: nat, s: real)
    requires k < 2 && 0.0 <= s <= 1.0
    ensures var y := view.padTop + view.PlotHeight() / 2.0;
            var line := [Move(Pen(view.padLeft, y)), Line(Pen(view.padLeft + view.PlotWidth(), y))];
            OnTheCanvas(view, corner, Trace(line, line[0].to, k, s))
  {
    var y := view.padTop + view.PlotHeight() / 2.0;
    var (from, to) := (Pen(view.padLeft, y), Pen(view.padLeft + view.PlotWidth(), y));
    var line := [Move(from), Line(to)];
    SinglePointInTheBox(view);
    if k == 1 {
      PenAfterExtends(line, from, 0);
      assert line[..1] == line[..0 + 1] && line[..0] == [];
      RightwardRises(from, Line(to), s, s);
      InsideStays(from, Line(to), y, y, s);
    }
  }

  lemma DrawnStaysOnTheCanvas(points: seq<Point>, view: Viewport, corner: real, window: (int, int), k: nat, s: real)
    requires points != [] && TimeOrdered(points) && 0.0 <= s <= 1.0
    ensures Drawn(points, view, corner, window).Some?
    ensures var line := Drawn(points, view, corner, window).value.line;
            && line != [] && line[0].Move?
            && (k < |line| ==> OnTheCanvas(view, corner, Trace(line, line[0].to, k, s)))
  {
    var plot := Drawn(points, view, corner, window).value;
    DrawnIsLaidOut(points, view, corner, window);
    if |points| < 2 || SaturatingSub(window.1, window.0) <= 0 {
      if k < 2 {
        SingleStaysOnTheCanvas(view, corner, k, s);
      }
    } else {
      StairsAreDrawn(plot.xs, plot.ys, corner, |plot.xs| - 1);
      if k < |plot.line| {
        StairsStayOnTheCanvas(view, plot.xs, plot.ys, corner, k, s);
      }
    }
  }

  /**
   * Whatever the blocks' clocks said, the plot built from a history has its
   * readings left to right inside the box, and every point of its line, curves
   * included, on the canvas.
   */
  lemma ChartStaysInItsBox(now: int, balance: int, deltas: seq<Delta>, kept: seq<Point>, view: Viewport, k: nat,
                           s: real)
    requires deltas != [] && IsThinningOf(Deltas(now, balance, deltas), kept) && 0.0 <= s <= 1.0
    ensures var plot := Drawn(kept, view, CORNER, Window(Deltas(now, balance, deltas), now));
            && plot.Some? && LaidOut(view, plot.value)
            && plot.value.line != [] && plot.value.line[0].Move?
            && (k < |plot.value.line| ==>
                  OnTheCanvas(view, CORNER, Trace(plot.value.line, plot.value.line[0].to, k, s)))
  {
    var points := Deltas(now, balance, deltas);
    SeriesIsTimeOrdered(now, balance, deltas);
    SeriesIsSortedReadings(now, balance, deltas, 0);
    assert Point(now, balance) in multiset(points);
    ThinningKeepsTimeOrder(points, kept);
    DrawnIsLaidOut(kept, view, CORNER, Window(points, now));
    DrawnStaysOnTheCanvas(kept, view, CORNER, Window(points, now), k, s);
  }
}
