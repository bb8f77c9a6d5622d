/** What a plot's axes mean: which way is up, how far a second or a satoshi goes, and what a plot says it shows. */
module PlotAxes {
  import opened Wrappers
  import opened Series
  import opened Numbers
  import opened Plot
  import opened PlotTheorems

  // ---- the box ----

  /** Where there is room, the plot is the viewport less its padding, on all four sides. */
  lemma BoxIsTheViewportLessItsPadding(view: Viewport)
    ensures view.width - view.padLeft - view.padRight >= 1.0 ==>
              view.padLeft + view.PlotWidth() + view.padRight == view.width
    ensures view.height - view.padTop - view.padBottom >= 1.0 ==> view.Base() + view.padBottom == view.height
    ensures view.PlotWidth() >= 1.0 && view.PlotHeight() >= 1.0 && view.Base() == view.padTop + view.PlotHeight()
  {}

  // ---- time, from left to right ----

  lemma ProportionOf(part: int, whole: int, length: real)
    requires 0 <= part <= whole && whole > 0
    ensures Ratio(part, whole) * length * whole as real == part as real * length
  {
    QuotientUndoes(part, whole);
    assert Ratio(part, whole) * length * whole as real == Ratio(part, whole) * whole as real * length;
  }

  /** A time inside the window is drawn as far across the plot as it is into the window. */
  lemma XsAreProportional(view: Viewport, window: (int, int), t: int)
    requires window.0 <= t <= window.1 && 0 < window.1 - window.0 <= I64_MAX
    ensures (XAt(view, window, t) - view.padLeft) * (window.1 - window.0) as real
              == (t - window.0) as real * view.PlotWidth()
  {
    ProportionOf(t - window.0, window.1 - window.0, view.PlotWidth());
  }

  /** The instant under a pointer is the nearest second to its share of the window, and the window's end beyond it. */
  lemma TimeUnderIsTheNearest(plot: Plot, x: real)
    requires 0 < plot.span.1 - plot.span.0 <= I64_MAX && Fits(plot.span.0) && Fits(plot.span.1) && plot.plotWidth > 0.0
    ensures x <= plot.padLeft ==> TimeAt(plot, x) == plot.span.0
    ensures x >= plot.padLeft + plot.plotWidth ==> TimeAt(plot, x) == plot.span.1
    ensures plot.padLeft <= x <= plot.padLeft + plot.plotWidth ==>
              var share := (x - plot.padLeft) / plot.plotWidth;
              NearestTo(TimeAt(plot, x) - plot.span.0, share * (plot.span.1 - plot.span.0) as real)
  {
    var (f, span) := ((x - plot.padLeft) / plot.plotWidth, plot.span.1 - plot.span.0);
    ShareOf(x - plot.padLeft, plot.plotWidth, f);
    RoundedShare(f, span);
    TimeAtShare(plot, x, f, span);
  }

  predicate NearestTo(n: int, r: real) {
    -0.5 <= n as real - r <= 0.5
  }

  lemma TimeAtShare(plot: Plot, x: real, f: real, span: int)
    requires span == plot.span.1 - plot.span.0 && 0 < span <= I64_MAX && Fits(plot.span.0) && Fits(plot.span.1)
    requires plot.plotWidth > 0.0 && f == (x - plot.padLeft) / plot.plotWidth
    requires 0 <= Round(Clamp(f) * span as real) <= span
    ensures TimeAt(plot, x) == plot.span.0 + Round(Clamp(f) * span as real)
  {}

  lemma RoundedShare(f: real, span: nat)
    requires span > 0
    ensures 0 <= Round(Clamp(f) * span as real) <= span
    ensures f <= 0.0 ==> Round(Clamp(f) * span as real) == 0
    ensures f >= 1.0 ==> Round(Clamp(f) * span as real) == span
    ensures 0.0 <= f <= 1.0 ==> NearestTo(Round(Clamp(f) * span as real), f * span as real)
  {
    RoundedProduct(Clamp(f), span, Clamp(f) * span as real);
  }

  lemma RoundedProduct(c: real, span: nat, product: real)
    requires 0.0 <= c <= 1.0 && product == c * span as real
    ensures 0 <= Round(product) <= span && NearestTo(Round(product), product)
    ensures c == 0.0 ==> Round(product) == 0
    ensures c == 1.0 ==> Round(product) == span
  {
    ProductWithin(c, span as real, product);
    RoundsWithin(product, span);
  }

  lemma ProductWithin(c: real, whole: real, product: real)
    requires 0.0 <= c <= 1.0 && whole >= 0.0 && product == c * whole
    ensures 0.0 <= product <= whole
    ensures c == 0.0 ==> product == 0.0
    ensures c == 1.0 ==> product == whole
  {
    ScaledRises(c, c, whole);
  }

  lemma RoundsWithin(r: real, n: nat)
    requires 0.0 <= r <= n as real
    ensures 0 <= Round(r) <= n && -0.5 <= Round(r) as real - r <= 0.5
    ensures r == 0.0 ==> Round(r) == 0
    ensures r == n as real ==> Round(r) == n
  {
    assert r + 0.5 < (n + 1) as real;
  }

  lemma ShareOf(part: real, whole: real, f: real)
    requires whole > 0.0 && f == part / whole
    ensures part <= 0.0 <==> f <= 0.0
    ensures part >= whole <==> f >= 1.0
  {
    assert f * whole == part;
    if f > 0.0 {
      assert f * whole > 0.0;
    } else {
      assert -f * whole >= 0.0;
    }
    if f >= 1.0 {
      assert (f - 1.0) * whole >= 0.0;
    } else {
      assert (1.0 - f) * whole > 0.0;
    }
  }

  // ---- value, from the bottom up ----

  /** A level stands as far above the baseline as its value is above the least: the most at the top, the least on it. */
  lemma YsAreProportional(view: Viewport, low: int, high: int, value: int)
    requires low <= value <= high && 0 < high - low <= I64_MAX
    ensures (view.Base() - YAt(view, low, high, value)) * (high - low) as real
              == (value - low) as real * view.PlotHeight()
  {
    HeightIs(view, low, high, value);
    ProportionOf(value - low, high - low, view.PlotHeight());
  }

  lemma HeightIs(view: Viewport, low: int, high: int, value: int)
    requires low <= value <= high && 0 < high - low <= I64_MAX
    ensures view.Base() - YAt(view, low, high, value) == Ratio(value - low, high - low) * view.PlotHeight()
  {
    var (f, h) := (Ratio(value - low, high - low), view.PlotHeight());
    assert (1.0 - f) * h == h - f * h;
  }

  lemma EndsOfTheScale(view: Viewport, low: int, high: int)
    requires 0 < high - low <= I64_MAX
    ensures YAt(view, low, high, low) == view.Base() && YAt(view, low, high, high) == view.padTop
  {
    HeightIs(view, low, high, low);
    HeightIs(view, low, high, high);
    RatioTops(high - low, high - low);
    assert Ratio(0, high - low) == 0.0;
  }

  /** More is higher: levels are in the opposite order to their ys, exactly. */
  lemma MoreIsHigher(view: Viewport, low: int, high: int, a: int, b: int)
    requires low <= a <= high && low <= b <= high && 0 < high - low <= I64_MAX
    ensures YAt(view, low, high, a) <= YAt(view, low, high, b) <==> a >= b
  {
    HeightIs(view, low, high, a);
    HeightIs(view, low, high, b);
    SharesKeepOrder(a - low, b - low, high - low, view.PlotHeight());
    Opposite(view.Base(), YAt(view, low, high, a), YAt(view, low, high, b));
  }

  lemma Opposite(base: real, y: real, z: real)
    ensures y <= z <==> base - y >= base - z
  {}

  lemma SharesKeepOrder(a: int, b: int, whole: int, h: real)
    requires 0 <= a <= whole && 0 <= b <= whole && whole > 0 && h > 0.0
    ensures a >= b <==> Ratio(a, whole) * h >= Ratio(b, whole) * h
  {
    if a >= b {
      RatioRises(b, a, whole);
      ScaledRises(Ratio(b, whole), Ratio(a, whole), h);
    } else {
      RatioSeparates(b, a, whole);
      PlacedSeparates(0.0, Ratio(a, whole), Ratio(b, whole), h, Ratio(a, whole) * h, Ratio(b, whole) * h);
    }
  }

  // ---- what a plot says of itself ----

  /** The plot is of these readings: their times and values, the least and the most of them, over this window. */
  predicate IsOf(plot: Plot, points: seq<Point>, view: Viewport, window: (int, int)) {
    && |plot.values| == |plot.times| == |plot.xs| == |plot.ys| == |points|
    && (forall i :: 0 <= i < |points| ==> plot.values[i] == points[i].value && plot.times[i] == points[i].t)
    && (forall i :: 0 <= i < |points| ==> plot.low <= points[i].value <= plot.high)
    && (exists i :: 0 <= i < |points| && points[i].value == plot.low)
    && (exists i :: 0 <= i < |points| && points[i].value == plot.high)
    && plot.span == window && plot.padLeft == view.padLeft && plot.plotWidth == view.PlotWidth()
    && (plot.flat <==> plot.low == plot.high)
  }

  lemma LeastAndMost(points: seq<Point>)
    requires points != []
    ensures forall i :: 0 <= i < |points| ==> Lowest(points) <= points[i].value <= Highest(points)
    ensures exists i :: 0 <= i < |points| && points[i].value == Lowest(points)
    ensures exists i :: 0 <= i < |points| && points[i].value == Highest(points)
  {
    assert forall i :: 0 <= i < |points| ==> points[i] in points;
    var (low, high) := (Lowest(points), Highest(points));
    var l :| l in points && l.value == low;
    var h :| h in points && h.value == high;
    var i :| 0 <= i < |points| && points[i] == l;
    var j :| 0 <= j < |points| && points[j] == h;
  }

  /** The readings a plot is of: nothing of nothing; of one, or of no time at all, the last; of anything more, all. */
  function Shown(points: seq<Point>, window: (int, int)): seq<Point>
    requires points != []
  {
    if |points| == 1 || SaturatingSub(window.1, window.0) <= 0 then [points[|points| - 1]] else points
  }

  lemma SingleIsOfTheLast(points: seq<Point>, view: Viewport, window: (int, int))
    requires points != []
    ensures Single(points, view, window).Some?
    ensures IsOf(Single(points, view, window).value, [points[|points| - 1]], view, window)
  {
    var one := [points[|points| - 1]];
    assert one[0].value == Single(points, view, window).value.low;
  }

  lemma FullIsOfAll(points: seq<Point>, view: Viewport, corner: real, window: (int, int))
    requires |points| >= 2 && SaturatingSub(window.1, window.0) > 0
    ensures Drawn(points, view, corner, window).Some?
    ensures IsOf(Drawn(points, view, corner, window).value, points, view, window)
  {
    LeastAndMost(points);
  }

  lemma PlotIsOfItsReadings(points: seq<Point>, view: Viewport, corner: real, window: (int, int))
    ensures Drawn(points, view, corner, window).None? <==> points == []
    ensures points != [] ==> IsOf(Drawn(points, view, corner, window).value, Shown(points, window), view, window)
  {
    if |points| >= 2 && SaturatingSub(window.1, window.0) > 0 {
      FullIsOfAll(points, view, corner, window);
    } else if points != [] {
      SingleIsOfTheLast(points, view, window);
    }
  }

  /** On a plot that is not flat, one reading is drawn no lower than another exactly when it is worth no less. */
  lemma PlotPutsMoreHigher(points: seq<Point>, view: Viewport, corner: real, window: (int, int), i: nat, j: nat)
    requires points != []
    requires var plot := Drawn(points, view, corner, window).value;
             i < |plot.ys| && j < |plot.ys| && !plot.flat && plot.high - plot.low <= I64_MAX
    ensures var plot := Drawn(points, view, corner, window).value;
            |plot.values| == |plot.ys| && (plot.ys[i] <= plot.ys[j] <==> plot.values[i] >= plot.values[j])
  {
    PlotIsOfItsReadings(points, view, corner, window);
    var plot := Drawn(points, view, corner, window).value;
    MoreIsHigher(view, plot.low, plot.high, plot.values[i], plot.values[j]);
  }

  /** What did not move is drawn halfway up; a single reading runs right across there, with nothing filled in. */
  lemma SteadyIsHalfwayUp(points: seq<Point>, view: Viewport, corner: real, window: (int, int))
    requires points != []
    ensures var (plot, middle) := (Drawn(points, view, corner, window).value, (view.padTop + view.Base()) / 2.0);
            && (plot.flat ==> forall i :: 0 <= i < |plot.ys| ==> plot.ys[i] == middle)
            && (|Shown(points, window)| == 1 && |points| == 1 ==>
                  && plot.line == [Move(Pen(view.padLeft, middle)), Line(Pen(view.padLeft + view.PlotWidth(), middle))]
                  && plot.area == [])
  {}

  /** So of the plot built: it is of what thinning kept, from the first reading to now, and puts more higher. */
  lemma BuiltPlotShowsItsReadings(points: seq<Point>, kept: seq<Point>, now: int, view: Viewport, i: nat, j: nat)
    requires points != [] && IsThinningOf(points, kept)
    ensures kept != []
    ensures var (plot, window) := (Drawn(kept, view, CORNER, Window(points, now)), (points[0].t, now));
            && plot.Some? && IsOf(plot.value, Shown(kept, window), view, window)
            && (i < |plot.value.ys| && j < |plot.value.ys| && !plot.value.flat
                && plot.value.high - plot.value.low <= I64_MAX ==>
                  (plot.value.ys[i] <= plot.value.ys[j] <==> plot.value.values[i] >= plot.value.values[j]))
  {
    var window := Window(points, now);
    PlotIsOfItsReadings(kept, view, CORNER, window);
    var plot := Drawn(kept, view, CORNER, window).value;
    if i < |plot.ys| && j < |plot.ys| && !plot.flat && plot.high - plot.low <= I64_MAX {
      PlotPutsMoreHigher(kept, view, CORNER, window, i, j);
    }
  }

  // ---- the corners ----

  /** A corner of this width keeps to half of each run beside it and of the rise, and to the width asked for. */
  predicate FitsCorner(xs: seq<real>, ys: seq<real>, corner: real, i: nat, r: real)
    requires 0 < i < |xs| == |ys|
  {
    && 0.0 <= r <= corner && 2.0 * r <= xs[i] - xs[i - 1] && 2.0 * r <= Abs(ys[i] - ys[i - 1])
    && (i + 1 < |xs| ==> 2.0 * r <= xs[i + 1] - xs[i])
  }

  /** Corners are as wide as will fit. */
  lemma CornersAreAsWideAsFit(xs: seq<real>, ys: seq<real>, corner: real, i: nat, r: real)
    requires 0 < i < |xs| == |ys| && Nondecreasing(xs) && corner >= 0.0
    ensures FitsCorner(xs, ys, corner, i, Radius(xs, ys, corner, i))
    ensures FitsCorner(xs, ys, corner, i, r) ==> r <= Radius(xs, ys, corner, i)
  {
    assert xs[i - 1] <= xs[i] && (i + 1 < |xs| ==> xs[i] <= xs[i + 1]);
  }

  /** Which way a command leaves its pen, and which way it comes to its end. */
  function Leaving(pen: Pen, c: Command): (real, real) {
    match c
    case Line(to) => (to.x - pen.x, to.y - pen.y)
    case Quad(k, _) => (k.x - pen.x, k.y - pen.y)
    case _ => (0.0, 0.0)
  }

  function Arriving(pen: Pen, c: Command): (real, real) {
    match c
    case Line(to) => (to.x - pen.x, to.y - pen.y)
    case Quad(k, to) => (to.x - k.x, to.y - k.y)
    case _ => (0.0, 0.0)
  }

  predicate Along(v: (real, real), w: (real, real)) {
    v.0 * w.1 == v.1 * w.0
  }

  /**
   * A drawn riser stands at its reading: the tread runs level to within a
   * corner of it, turns, goes straight up or down there, and turns level again,
   * each piece leaving the way the one before it came.
   */
  lemma RiserStandsAtItsReading(xs: seq<real>, ys: seq<real>, corner: real, i: nat, pen: Pen)
    requires 0 < i < |xs| == |ys| && !Level(ys, i) && pen.y == ys[i - 1]
    ensures var (tread, r) := (Tread(xs, ys, corner, i), Radius(xs, ys, corner, i));
            && |tread| == 4
            && var (a, b, c) := (End(pen, tread[0]), End(End(pen, tread[0]), tread[1]),
                                 End(End(End(pen, tread[0]), tread[1]), tread[2]));
               && a == Pen(xs[i] - r, ys[i - 1]) && End(c, tread[3]) == Pen(xs[i] + r, ys[i])
               && tread[2].Line? && b.x == c.x == xs[i] && Abs(b.y - ys[i - 1]) == Abs(ys[i] - c.y) == r
               && Leaving(pen, tread[0]).1 == 0.0 && Arriving(c, tread[3]).1 == 0.0
               && Along(Arriving(pen, tread[0]), Leaving(a, tread[1]))
               && Along(Arriving(a, tread[1]), Leaving(b, tread[2]))
               && Along(Arriving(b, tread[2]), Leaving(c, tread[3]))
  {}
}
