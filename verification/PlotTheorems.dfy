/** The geometry of the drawn paths, and what a pointer over them reads. */
module PlotTheorems {
  import opened Series
  import opened Numbers
  import opened Plot

  // ---- what a command draws ----

  function End(pen: Pen, c: Command): Pen {
    if c.Close? then pen else c.to
  }

  function PenAfter(path: seq<Command>, pen: Pen): Pen {
    if path == [] then pen else PenAfter(path[1..], End(pen, path[0]))
  }

  /** A coordinate of a quadratic curve, by its Bernstein form. */
  function Bezier(p: real, c: real, e: real, s: real): real {
    (1.0 - s) * (1.0 - s) * p + 2.0 * s * (1.0 - s) * c + s * s * e
  }

  /** The point a command draws at parameter `s`. */
  function On(pen: Pen, c: Command, s: real): Pen {
    match c
    case Move(to) => to
    case Line(to) => Pen((1.0 - s) * pen.x + s * to.x, (1.0 - s) * pen.y + s * to.y)
    case Quad(k, to) => Pen(Bezier(pen.x, k.x, to.x, s), Bezier(pen.y, k.y, to.y, s))
    case Close => pen
  }

  /** The command's points, control point included, never step left. */
  predicate Rightward(pen: Pen, c: Command) {
    match c
    case Move(to) => pen.x <= to.x
    case Line(to) => pen.x <= to.x
    case Quad(k, to) => pen.x <= k.x <= to.x
    case Close => false
  }

  predicate AllRightward(path: seq<Command>, pen: Pen) {
    path == [] || (Rightward(pen, path[0]) && AllRightward(path[1..], End(pen, path[0])))
  }

  lemma MulNonNegative(a: real, b: real)
    requires a >= 0.0 && b >= 0.0
    ensures a * b >= 0.0
  {}

  lemma BezierRises(p: real, c: real, e: real, s: real, t: real)
    requires p <= c <= e && 0.0 <= s <= t <= 1.0
    ensures Bezier(p, c, e, s) <= Bezier(p, c, e, t)
  {
    var slope := (2.0 - s - t) * (c - p) + (s + t) * (e - c);
    MulNonNegative(2.0 - s - t, c - p);
    MulNonNegative(s + t, e - c);
    MulNonNegative(t - s, slope);
    assert Bezier(p, c, e, t) - Bezier(p, c, e, s) == (t - s) * slope;
  }

  lemma LineRises(p: real, e: real, s: real, t: real)
    requires p <= e && s <= t
    ensures (1.0 - s) * p + s * e <= (1.0 - t) * p + t * e
  {
    MulNonNegative(t - s, e - p);
    assert ((1.0 - t) * p + t * e) - ((1.0 - s) * p + s * e) == (t - s) * (e - p);
  }

  /** Along one rightward command the drawn x never falls, from the pen to the command's end. */
  lemma RightwardRises(pen: Pen, c: Command, s: real, t: real)
    requires Rightward(pen, c) && 0.0 <= s <= t <= 1.0
    ensures pen.x <= On(pen, c, s).x <= On(pen, c, t).x <= End(pen, c).x
  {
    match c
    case Move(to) =>
    case Line(to) =>
      LineRises(pen.x, to.x, 0.0, s);
      LineRises(pen.x, to.x, s, t);
      LineRises(pen.x, to.x, t, 1.0);
    case Quad(k, to) =>
      BezierRises(pen.x, k.x, to.x, 0.0, s);
      BezierRises(pen.x, k.x, to.x, s, t);
      BezierRises(pen.x, k.x, to.x, t, 1.0);
  }

  /** The point drawn by command `k` at `s`, the pen starting at `pen`. */
  function Trace(path: seq<Command>, pen: Pen, k: nat, s: real): Pen
    requires k < |path|
  {
    On(PenAfter(path[..k], pen), path[k], s)
  }

  lemma {:induction false} TraceRises(path: seq<Command>, pen: Pen, k: nat, s: real, l: nat, t: real)
    requires AllRightward(path, pen) && k <= l < |path|
    requires 0.0 <= s <= 1.0 && 0.0 <= t <= 1.0 && (k == l ==> s <= t)
    ensures pen.x <= Trace(path, pen, k, s).x <= Trace(path, pen, l, t).x
  {
    var next := End(pen, path[0]);
    if k > 0 {
      assert path[..k][1..] == path[1..][..k - 1] && path[..l][1..] == path[1..][..l - 1];
      TraceRises(path[1..], next, k - 1, s, l - 1, t);
      RightwardRises(pen, path[0], 0.0, 1.0);
    } else if l == 0 {
      RightwardRises(pen, path[0], s, t);
    } else {
      RightwardRises(pen, path[0], s, 1.0);
      assert path[..l][1..] == path[1..][..l - 1];
      TraceRises(path[1..], next, l - 1, t, l - 1, t);
    }
  }

  lemma {:induction false} RightwardJoins(a: seq<Command>, b: seq<Command>, pen: Pen)
    ensures PenAfter(a + b, pen) == PenAfter(b, PenAfter(a, pen))
    ensures AllRightward(a + b, pen) <==> AllRightward(a, pen) && AllRightward(b, PenAfter(a, pen))
  {
    if a == [] {
      assert a + b == b;
    } else {
      RightwardJoins(a[1..], b, End(pen, a[0]));
      assert (a + b)[1..] == a[1..] + b;
    }
  }

  // ---- the staircase ----

  predicate Nondecreasing(xs: seq<real>) {
    forall i, j :: 0 <= i < j < |xs| ==> xs[i] <= xs[j]
  }

  function Start(xs: seq<real>, ys: seq<real>): Pen
    requires 0 < |xs| == |ys|
  {
    Pen(xs[0], ys[0])
  }

  /** How far past its reading tread `n` leaves the pen. */
  function Overshoot(xs: seq<real>, ys: seq<real>, corner: real, n: nat): real
    requires n < |xs| == |ys|
  {
    if n == 0 || Level(ys, n) then 0.0 else Radius(xs, ys, corner, n)
  }

  lemma FourCommands(a: Command, b: Command, c: Command, d: Command, pen: Pen)
    ensures var p := [a, b, c, d];
            && PenAfter(p, pen) == End(End(End(End(pen, a), b), c), d)
            && (AllRightward(p, pen) <==>
                  && Rightward(pen, a) && Rightward(End(pen, a), b)
                  && Rightward(End(End(pen, a), b), c) && Rightward(End(End(End(pen, a), b), c), d))
  {
    var p1 := End(pen, a);
    var p2 := End(p1, b);
    var p3 := End(p2, c);
    assert [a, b, c, d][1..] == [b, c, d] && [b, c, d][1..] == [c, d] && [c, d][1..] == [d] && [d][1..] == [];
    assert AllRightward([d][1..], End(p3, d)) && PenAfter([d][1..], End(p3, d)) == End(p3, d);
    assert PenAfter([d], p3) == End(p3, d) && (AllRightward([d], p3) <==> Rightward(p3, d));
    assert PenAfter([c, d], p2) == End(p3, d) && (AllRightward([c, d], p2) <==> Rightward(p2, c) && Rightward(p3, d));
    assert PenAfter([b, c, d], p1) == End(p3, d);
    assert AllRightward([b, c, d], p1) <==> Rightward(p1, b) && Rightward(p2, c) && Rightward(p3, d);
  }

  /** Where a tread leaves the pen, wherever it found it. */
  lemma AfterTread(xs: seq<real>, ys: seq<real>, corner: real, i: nat, pen: Pen)
    requires 0 < i < |xs| == |ys|
    ensures PenAfter(Tread(xs, ys, corner, i), pen) ==
              Pen(xs[i] + Overshoot(xs, ys, corner, i), if Level(ys, i) then ys[i - 1] else ys[i])
  {
    var tread := Tread(xs, ys, corner, i);
    if Level(ys, i) {
      assert tread[1..] == [];
    } else {
      FourCommands(tread[0], tread[1], tread[2], tread[3], pen);
    }
  }

  /** One tread, from a pen that has not passed its first corner. */
  lemma TreadIsRightward(xs: seq<real>, ys: seq<real>, corner: real, i: nat, pen: Pen)
    requires 0 < i < |xs| == |ys|
    requires pen.x <= xs[i] - Overshoot(xs, ys, corner, i)
    ensures AllRightward(Tread(xs, ys, corner, i), pen)
  {
    var tread := Tread(xs, ys, corner, i);
    if Level(ys, i) {
      assert tread[1..] == [];
    } else {
      FourCommands(tread[0], tread[1], tread[2], tread[3], pen);
    }
  }

  /** The staircase never doubles back, and ends past its last reading by that reading's radius and no more. */
  lemma {:induction false} StairsAreRightward(xs: seq<real>, ys: seq<real>, corner: real, n: nat)
    requires n < |xs| == |ys| && Nondecreasing(xs)
    ensures AllRightward(Stairs(xs, ys, corner, n), Start(xs, ys))
    ensures PenAfter(Stairs(xs, ys, corner, n), Start(xs, ys)) ==
              Pen(xs[n] + Overshoot(xs, ys, corner, n), if n > 0 && Level(ys, n) then ys[n - 1] else ys[n])
    ensures 0.0 <= Overshoot(xs, ys, corner, n) <= Max(corner, 0.0)
  {
    if n == 0 {
      assert Stairs(xs, ys, corner, 0)[1..] == [];
    } else {
      StairsAreRightward(xs, ys, corner, n - 1);
      assert xs[n - 1] <= xs[n];
      var pen := PenAfter(Stairs(xs, ys, corner, n - 1), Start(xs, ys));
      TreadIsRightward(xs, ys, corner, n, pen);
      AfterTread(xs, ys, corner, n, pen);
      RightwardJoins(Stairs(xs, ys, corner, n - 1), Tread(xs, ys, corner, n), Start(xs, ys));
    }
  }

  /** So over the whole drawn line, later is never further left. */
  lemma TheLineNeverDoublesBack(xs: seq<real>, ys: seq<real>, corner: real, k: nat, s: real, l: nat, t: real)
    requires 0 < |xs| == |ys| && Nondecreasing(xs)
    requires k <= l < |Stairs(xs, ys, corner, |xs| - 1)|
    requires 0.0 <= s <= 1.0 && 0.0 <= t <= 1.0 && (k == l ==> s <= t)
    ensures var line := Stairs(xs, ys, corner, |xs| - 1);
            xs[0] <= Trace(line, Start(xs, ys), k, s).x <= Trace(line, Start(xs, ys), l, t).x
  {
    StairsAreRightward(xs, ys, corner, |xs| - 1);
    TraceRises(Stairs(xs, ys, corner, |xs| - 1), Start(xs, ys), k, s, l, t);
  }

  // ---- levels and right angles ----

  /** Every straight piece is horizontal or vertical. */
  predicate Aligned(path: seq<Command>, pen: Pen) {
    path == [] ||
    ((path[0].Line? ==> pen.x == path[0].to.x || pen.y == path[0].to.y) && Aligned(path[1..], End(pen, path[0])))
  }

  lemma {:induction false} AlignedJoins(a: seq<Command>, b: seq<Command>, pen: Pen)
    ensures Aligned(a + b, pen) <==> Aligned(a, pen) && Aligned(b, PenAfter(a, pen))
  {
    if a == [] {
      assert a + b == b;
    } else {
      AlignedJoins(a[1..], b, End(pen, a[0]));
      assert (a + b)[1..] == a[1..] + b;
    }
  }

  /** A rise too small to draw, and not nothing. */
  predicate Faint(ys: seq<real>, i: nat)
    requires 0 < i < |ys|
  {
    Level(ys, i) && ys[i] != ys[i - 1]
  }

  lemma TreadIsAlignedExactlyWhen(xs: seq<real>, ys: seq<real>, corner: real, i: nat, pen: Pen)
    requires 0 < i < |xs| == |ys|
    ensures Aligned(Tread(xs, ys, corner, i), pen) <==>
              pen.y == ys[i - 1] || pen.x == xs[i] - Overshoot(xs, ys, corner, i)
  {
    var tread := Tread(xs, ys, corner, i);
    if Level(ys, i) {
      assert tread[1..] == [];
    } else {
      var (a, b, c, d) := (tread[0], tread[1], tread[2], tread[3]);
      assert tread[1..] == [b, c, d] && [b, c, d][1..] == [c, d] && [c, d][1..] == [d] && [d][1..] == [];
      var p1 := End(pen, a);
      var p2 := End(p1, b);
      assert Aligned([d], End(p2, c));
      assert Aligned([c, d], p2);
      assert Aligned([b, c, d], p1);
    }
  }

  predicate NoFaintRiseBefore(xs: seq<real>, ys: seq<real>, n: nat)
    requires n < |xs| == |ys|
  {
    forall i :: 0 < i < n && Faint(ys, i) ==> xs[i + 1] == xs[i]
  }

  /**
   * Over the reals, no piece of the line is diagonal exactly when no rise
   * smaller than the drawing threshold, and not zero, is followed by a reading
   * further right.
   */
  lemma {:induction false} AlignedExactlyWhen(xs: seq<real>, ys: seq<real>, corner: real, n: nat)
    requires n < |xs| == |ys| && Nondecreasing(xs)
    ensures Aligned(Stairs(xs, ys, corner, n), Start(xs, ys)) <==> NoFaintRiseBefore(xs, ys, n)
  {
    if n == 0 {
      assert Stairs(xs, ys, corner, 0)[1..] == [];
    } else {
      AlignedExactlyWhen(xs, ys, corner, n - 1);
      StairsAreRightward(xs, ys, corner, n - 1);
      AlignedJoins(Stairs(xs, ys, corner, n - 1), Tread(xs, ys, corner, n), Start(xs, ys));
      var pen := PenAfter(Stairs(xs, ys, corner, n - 1), Start(xs, ys));
      TreadIsAlignedExactlyWhen(xs, ys, corner, n, pen);
      assert xs[n - 1] <= xs[n];
      if n > 1 && Faint(ys, n - 1) {
        assert pen == Pen(xs[n - 1], ys[n - 2]);
        assert pen.x == xs[n] - Overshoot(xs, ys, corner, n) <==> xs[n] == xs[n - 1];
      } else {
        assert pen.y == ys[n - 1];
      }
      assert NoFaintRiseBefore(xs, ys, n) <==>
             NoFaintRiseBefore(xs, ys, n - 1) && (n > 1 && Faint(ys, n - 1) ==> xs[n] == xs[n - 1]);
    }
  }

  /** `y` is a whole number of drawing thresholds, as every `f32` of at least one in magnitude is. */
  predicate OnGrid(y: real) {
    (y / EPSILON).Floor as real * EPSILON == y
  }

  lemma GridRiseIsNotFaint(a: real, b: real)
    requires OnGrid(a) && OnGrid(b) && Abs(b - a) < EPSILON
    ensures a == b
  {
    var (m, n) := ((a / EPSILON).Floor, (b / EPSILON).Floor);
    assert b - a == (n - m) as real * EPSILON;
  }

  /**
   * At the precision the levels are computed in, no rise is faint, and the whole
   * line is horizontals, verticals and corners.
   */
  lemma GridLineIsAligned(xs: seq<real>, ys: seq<real>, corner: real)
    requires 0 < |xs| == |ys| && Nondecreasing(xs)
    requires forall i :: 0 <= i < |ys| ==> OnGrid(ys[i])
    ensures forall i :: 0 < i < |ys| ==> !Faint(ys, i)
    ensures Aligned(Stairs(xs, ys, corner, |xs| - 1), Start(xs, ys))
  {
    forall i | 0 < i < |ys|
      ensures !Faint(ys, i)
    {
      if Level(ys, i) {
        GridRiseIsNotFaint(ys[i - 1], ys[i]);
      }
    }
    AlignedExactlyWhen(xs, ys, corner, |xs| - 1);
  }

  // ---- between the levels ----

  lemma BezierBetween(p: real, c: real, e: real, s: real, lo: real, hi: real)
    requires lo <= p <= hi && lo <= c <= hi && lo <= e <= hi && 0.0 <= s <= 1.0
    ensures lo <= Bezier(p, c, e, s) <= hi
  {
    var (a, b, d) := ((1.0 - s) * (1.0 - s), 2.0 * s * (1.0 - s), s * s);
    MulNonNegative(1.0 - s, 1.0 - s);
    MulNonNegative(s, 1.0 - s);
    MulNonNegative(s, s);
    assert a + b + d == 1.0;
    Weighted(a, b, d, p - lo, c - lo, e - lo);
    Weighted(a, b, d, hi - p, hi - c, hi - e);
    assert Bezier(p, c, e, s) - lo == a * (p - lo) + b * (c - lo) + d * (e - lo);
    assert hi - Bezier(p, c, e, s) == a * (hi - p) + b * (hi - c) + d * (hi - e);
  }

  lemma Weighted(a: real, b: real, d: real, x: real, y: real, z: real)
    requires a >= 0.0 && b >= 0.0 && d >= 0.0 && x >= 0.0 && y >= 0.0 && z >= 0.0
    ensures a * x + b * y + d * z >= 0.0
  {
    MulNonNegative(a, x);
    MulNonNegative(b, y);
    MulNonNegative(d, z);
  }

  /** All of a command lies between two levels if its pen and its points do. */
  predicate Inside(pen: Pen, c: Command, lo: real, hi: real) {
    && lo <= pen.y <= hi
    && match c
       case Move(to) => lo <= to.y <= hi
       case Line(to) => lo <= to.y <= hi
       case Quad(k, to) => lo <= k.y <= hi && lo <= to.y <= hi
       case Close => true
  }

  lemma InsideStays(pen: Pen, c: Command, lo: real, hi: real, s: real)
    requires Inside(pen, c, lo, hi) && 0.0 <= s <= 1.0
    ensures lo <= On(pen, c, s).y <= hi
  {
    match c
    case Move(to) =>
    case Line(to) =>
      Weighted(1.0 - s, s, 0.0, pen.y - lo, to.y - lo, 0.0);
      Weighted(1.0 - s, s, 0.0, hi - pen.y, hi - to.y, 0.0);
    case Quad(k, to) => BezierBetween(pen.y, k.y, to.y, s, lo, hi);
    case Close =>
  }

  lemma {:induction false} PenAfterExtends(path: seq<Command>, pen: Pen, k: nat)
    requires k < |path|
    ensures PenAfter(path[..k + 1], pen) == End(PenAfter(path[..k], pen), path[k])
  {
    if k > 0 {
      assert path[..k + 1][1..] == path[1..][..k] && path[..k][1..] == path[1..][..k - 1];
      PenAfterExtends(path[1..], End(pen, path[0]), k - 1);
    } else {
      assert path[..1][1..] == [];
    }
  }

  /** The pen's height after reading `n`: that reading's level, or the one before when the rise was not drawn. */
  function LevelAfter(ys: seq<real>, n: nat): real
    requires n < |ys|
  {
    if n > 0 && Level(ys, n) then ys[n - 1] else ys[n]
  }

  lemma AfterStairs(xs: seq<real>, ys: seq<real>, corner: real, n: nat)
    requires n < |xs| == |ys|
    ensures PenAfter(Stairs(xs, ys, corner, n), Start(xs, ys)).y == LevelAfter(ys, n)
  {
    if n == 0 {
      assert Stairs(xs, ys, corner, 0)[1..] == [];
    } else {
      RightwardJoins(Stairs(xs, ys, corner, n - 1), Tread(xs, ys, corner, n), Start(xs, ys));
      AfterTread(xs, ys, corner, n, PenAfter(Stairs(xs, ys, corner, n - 1), Start(xs, ys)));
    }
  }

  lemma TraceJoins(a: seq<Command>, b: seq<Command>, pen: Pen, k: nat, s: real)
    requires k < |a| + |b|
    ensures Trace(a + b, pen, k, s) ==
              if k < |a| then Trace(a, pen, k, s) else Trace(b, PenAfter(a, pen), k - |a|, s)
  {
    if k < |a| {
      assert (a + b)[..k] == a[..k];
    } else {
      assert (a + b)[..k] == a + b[..k - |a|];
      RightwardJoins(a, b[..k - |a|], pen);
    }
  }

  /** One tread stays within levels that hold its pen, the old level and the new. */
  lemma TreadStaysInside(xs: seq<real>, ys: seq<real>, corner: real, i: nat, pen: Pen, k: nat, s: real, lo: real,
                         hi: real)
    requires 0 < i < |xs| == |ys| && k < |Tread(xs, ys, corner, i)| && 0.0 <= s <= 1.0
    requires lo <= pen.y <= hi && lo <= ys[i - 1] <= hi && lo <= ys[i] <= hi
    ensures lo <= Trace(Tread(xs, ys, corner, i), pen, k, s).y <= hi
  {
    var tread := Tread(xs, ys, corner, i);
    assert tread[..0] == [];
    if k > 0 {
      PenAfterExtends(tread, pen, k - 1);
    }
    if k > 1 {
      PenAfterExtends(tread, pen, k - 2);
    }
    if k > 2 {
      PenAfterExtends(tread, pen, k - 3);
    }
    InsideStays(PenAfter(tread[..k], pen), tread[k], lo, hi, s);
  }

  /** Levels that hold every reading hold every point of the drawn line, curves included. */
  lemma {:induction false} LineStaysInside(xs: seq<real>, ys: seq<real>, corner: real, n: nat, k: nat, s: real,
                                           lo: real, hi: real)
    requires n < |xs| == |ys| && k < |Stairs(xs, ys, corner, n)| && 0.0 <= s <= 1.0
    requires forall i :: 0 <= i < |ys| ==> lo <= ys[i] <= hi
    ensures lo <= Trace(Stairs(xs, ys, corner, n), Start(xs, ys), k, s).y <= hi
  {
    if n > 0 {
      var before := Stairs(xs, ys, corner, n - 1);
      TraceJoins(before, Tread(xs, ys, corner, n), Start(xs, ys), k, s);
      if k < |before| {
        LineStaysInside(xs, ys, corner, n - 1, k, s, lo, hi);
      } else {
        AfterStairs(xs, ys, corner, n - 1);
        TreadStaysInside(xs, ys, corner, n, PenAfter(before, Start(xs, ys)), k - |before|, s, lo, hi);
      }
    }
  }

  /** A longer line begins as the shorter one does. */
  lemma {:induction false} LineGoesOn(xs: seq<real>, ys: seq<real>, corner: real, n: nat, m: nat)
    requires n <= m < |xs| == |ys|
    ensures Stairs(xs, ys, corner, n) <= Stairs(xs, ys, corner, m)
  {
    if n < m {
      LineGoesOn(xs, ys, corner, n, m - 1);
      assert Stairs(xs, ys, corner, m - 1) <= Stairs(xs, ys, corner, m - 1) + Tread(xs, ys, corner, m);
    }
  }

  lemma TraceWithin(line: seq<Command>, a: seq<Command>, b: seq<Command>, pen: Pen, k: nat, s: real)
    requires a + b <= line && k < |b|
    ensures Trace(line, pen, |a| + k, s) == Trace(b, PenAfter(a, pen), k, s)
  {
    TraceJoins(a, b, pen, |a| + k, s);
    assert line[..|a| + k] == (a + b)[..|a| + k];
  }

  /** What tread `n` draws, found again in the whole line. */
  lemma TreadOnTheLine(xs: seq<real>, ys: seq<real>, corner: real, n: nat, k: nat, s: real,
                       line: seq<Command>, before: seq<Command>, tread: seq<Command>)
    requires 0 < n < |xs| == |ys| && line == Stairs(xs, ys, corner, |xs| - 1)
    requires before == Stairs(xs, ys, corner, n - 1) && tread == Tread(xs, ys, corner, n) && k < |tread|
    ensures |before| + k < |line|
    ensures Trace(line, Start(xs, ys), |before| + k, s) == Trace(tread, PenAfter(before, Start(xs, ys)), k, s)
  {
    LineGoesOn(xs, ys, corner, n, |xs| - 1);
    assert before + tread <= line;
    TraceWithin(line, before, tread, Start(xs, ys), k, s);
  }

  /** A tread met at the level its reading before it left stays between that level and its own. */
  lemma MetAtItsLevel(xs: seq<real>, ys: seq<real>, corner: real, n: nat, pen: Pen, k: nat, s: real)
    requires 0 < n < |xs| == |ys| && k < |Tread(xs, ys, corner, n)| && 0.0 <= s <= 1.0
    requires pen.y == ys[n - 1]
    ensures Min(ys[n - 1], ys[n]) <= Trace(Tread(xs, ys, corner, n), pen, k, s).y <= Max(ys[n - 1], ys[n])
  {
    TreadStaysInside(xs, ys, corner, n, pen, k, s, Min(ys[n - 1], ys[n]), Max(ys[n - 1], ys[n]));
  }

  /**
   * On the whole line each riser keeps between its two levels: what reading
   * `n` adds to `before` is drawn between the level before it and its own,
   * unless the rise before it was faint.
   */
  lemma RisersStayBetweenLevels(xs: seq<real>, ys: seq<real>, corner: real, n: nat, k: nat, s: real,
                                line: seq<Command>, before: seq<Command>)
    requires 0 < n < |xs| == |ys| && k < |Tread(xs, ys, corner, n)| && 0.0 <= s <= 1.0
    requires line == Stairs(xs, ys, corner, |xs| - 1) && before == Stairs(xs, ys, corner, n - 1)
    requires n > 1 ==> !Faint(ys, n - 1)
    ensures |before| + k < |line|
    ensures Min(ys[n - 1], ys[n]) <= Trace(line, Start(xs, ys), |before| + k, s).y <= Max(ys[n - 1], ys[n])
  {
    TreadOnTheLine(xs, ys, corner, n, k, s, line, before, Tread(xs, ys, corner, n));
    AfterStairs(xs, ys, corner, n - 1);
    MetAtItsLevel(xs, ys, corner, n, PenAfter(before, Start(xs, ys)), k, s);
  }

  // ---- the axes ----

  lemma QuotientRises(a: int, b: int, whole: int)
    requires whole > 0
    ensures a <= b <==> a as real / whole as real <= b as real / whole as real
  {
    var (p, q, w) := (a as real / whole as real, b as real / whole as real, whole as real);
    assert p * w == a as real && q * w == b as real;
    if p <= q {
      MulNonNegative(q - p, w);
    } else {
      assert (p - q) * w > 0.0;
    }
  }

  lemma RatioRises(a: int, b: int, whole: int)
    requires a <= b
    ensures 0.0 <= Ratio(a, whole) <= Ratio(b, whole) <= 1.0
  {
    if whole > 0 {
      QuotientRises(a, b, whole);
    }
  }

  lemma ScaledRises(a: real, b: real, w: real)
    requires 0.0 <= a <= b <= 1.0 && w >= 0.0
    ensures 0.0 <= a * w <= b * w <= w
  {
    MulNonNegative(a, w);
    MulNonNegative(b - a, w);
    MulNonNegative(1.0 - b, w);
  }

  lemma PlacedRises(left: real, a: real, b: real, w: real, x: real, y: real)
    requires 0.0 <= a <= b <= 1.0 && w >= 0.0
    requires x == left + a * w && y == left + b * w
    ensures left <= x <= y <= left + w
  {
    ScaledRises(a, b, w);
  }

  /** Time runs left to right: later readings are never further left, and all are inside the plot. */
  lemma XsRiseInsideTheBox(view: Viewport, window: (int, int), t: int, u: int)
    requires t <= u
    ensures view.padLeft <= XAt(view, window, t) <= XAt(view, window, u) <= view.padLeft + view.PlotWidth()
  {
    var whole := SaturatingSub(window.1, window.0);
    var (a, b) := (SaturatingSub(t, window.0), SaturatingSub(u, window.0));
    RatioRises(a, b, whole);
    PlacedRises(view.padLeft, Ratio(a, whole), Ratio(b, whole), view.PlotWidth(), XAt(view, window, t),
                XAt(view, window, u));
  }

  /** Every level a plot draws is inside the plot. */
  lemma YsInsideTheBox(view: Viewport, low: int, high: int, value: int)
    ensures view.padTop <= YAt(view, low, high, value) <= view.Base()
  {
    if low != high {
      var f := Ratio(SaturatingSub(value, low), SaturatingSub(high, low));
      RatioRises(SaturatingSub(value, low), SaturatingSub(value, low), SaturatingSub(high, low));
      ScaledRises(1.0 - f, 1.0 - f, view.PlotHeight());
    }
  }

  predicate TimeOrdered(points: seq<Point>) {
    forall i, j :: 0 <= i < j < |points| ==> points[i].t <= points[j].t
  }

  /** So any series in time order is drawn without doubling back. */
  lemma XsOfTimeOrdered(points: seq<Point>, view: Viewport, window: (int, int))
    requires TimeOrdered(points)
    ensures Nondecreasing(Xs(points, view, window))
  {
    var xs := Xs(points, view, window);
    forall i, j | 0 <= i < j < |xs|
      ensures xs[i] <= xs[j]
    {
      XsRiseInsideTheBox(view, window, points[i].t, points[j].t);
    }
  }

  lemma RatioSeparates(a: int, b: int, whole: int)
    requires 0 <= b < a <= whole
    ensures 0.0 <= Ratio(b, whole) < Ratio(a, whole) <= 1.0
  {
    QuotientRises(a, b, whole);
    QuotientRises(0, b, whole);
    QuotientRises(a, whole, whole);
    assert whole as real / whole as real == 1.0;
  }

  lemma PlacedSeparates(left: real, a: real, b: real, w: real, x: real, y: real)
    requires a < b && w > 0.0
    requires x == left + a * w && y == left + b * w
    ensures x < y
  {
    assert (b - a) * w > 0.0;
  }

  /** Inside the window the axis is exact, not only monotone. */
  lemma XsSeparateTimes(view: Viewport, window: (int, int), t: int, u: int)
    requires window.0 <= t <= window.1 && window.0 <= u <= window.1
    requires 0 < window.1 - window.0 <= I64_MAX
    ensures XAt(view, window, t) <= XAt(view, window, u) <==> t <= u
  {
    if t <= u {
      XsRiseInsideTheBox(view, window, t, u);
    } else {
      var (a, b, span) := (t - window.0, u - window.0, window.1 - window.0);
      RatioSeparates(a, b, span);
      PlacedSeparates(view.padLeft, Ratio(b, span), Ratio(a, span), view.PlotWidth(), XAt(view, window, u),
                      XAt(view, window, t));
    }
  }

  lemma RatioTops(part: int, whole: int)
    requires part >= whole > 0
    ensures Ratio(part, whole) == 1.0
  {
    QuotientRises(whole, part, whole);
    assert whole as real / whole as real == 1.0;
  }

  /** What is dated after the window sits on its right edge. */
  lemma XsAtTheEdge(view: Viewport, window: (int, int), u: int)
    requires window.1 <= u && 0 < window.1 - window.0 <= I64_MAX
    ensures XAt(view, window, u) == XAt(view, window, window.1)
  {
    RatioTops(SaturatingSub(u, window.0), window.1 - window.0);
    RatioTops(window.1 - window.0, window.1 - window.0);
  }

  /**
   * The reading a pointer inside the window picks is the last one at or before
   * the instant under it, later-dated readings or not. At the right edge, where
   * those are drawn too, it is the last reading of all.
   */
  lemma PointerPicksTheGoverningReading(points: seq<Point>, view: Viewport, window: (int, int), t: int, governing: nat)
    requires points != [] && TimeOrdered(points) && window.0 <= points[0].t <= t <= window.1
    requires 0 < window.1 - window.0 <= I64_MAX
    requires var xs := Xs(points, view, window);
             && governing < |xs| && xs[governing] <= XAt(view, window, t)
             && (governing + 1 == |xs| || xs[governing + 1] > XAt(view, window, t))
    ensures t < window.1 ==> points[governing].t <= t && (governing + 1 == |points| || points[governing + 1].t > t)
    ensures t == window.1 ==> governing + 1 == |points|
  {
    if t < window.1 {
      PointerSeparates(view, window, points[governing].t, t);
      if governing + 1 < |points| {
        PointerSeparates(view, window, points[governing + 1].t, t);
      }
    } else if governing + 1 < |points| {
      var u := points[governing + 1].t;
      if u <= t {
        XsRiseInsideTheBox(view, window, u, t);
      } else {
        XsAtTheEdge(view, window, u);
      }
    }
  }

  lemma PointerSeparates(view: Viewport, window: (int, int), u: int, t: int)
    requires window.0 <= u && window.0 <= t < window.1 && 0 < window.1 - window.0 <= I64_MAX
    ensures XAt(view, window, u) <= XAt(view, window, t) <==> u <= t
  {
    if u < window.1 {
      XsSeparateTimes(view, window, u, t);
    } else {
      XsAtTheEdge(view, window, u);
      XsSeparateTimes(view, window, window.1, t);
    }
  }

  lemma QuotientUndoes(part: int, whole: int)
    requires 0 <= part <= whole && whole > 0
    ensures Ratio(part, whole) * whole as real == part as real
  {
    QuotientRises(0, part, whole);
    QuotientRises(part, whole, whole);
    assert whole as real / whole as real == 1.0;
  }

  lemma PlaceUndoes(left: real, f: real, w: real, x: real)
    requires w > 0.0 && x == left + f * w
    ensures (x - left) / w == f
  {
    assert x - left == f * w;
  }

  /** The instant under a drawn time is that time: the axis round-trips to the second. */
  lemma TimeUnderItsOwnX(plot: Plot, view: Viewport, t: int)
    requires plot.padLeft == view.padLeft && plot.plotWidth == view.PlotWidth()
    requires plot.span.0 <= t <= plot.span.1 && Fits(plot.span.0) && Fits(t)
    requires 0 < plot.span.1 - plot.span.0 <= I64_MAX
    ensures TimeAt(plot, XAt(view, plot.span, t)) == t
  {
    var (part, span, w) := (t - plot.span.0, plot.span.1 - plot.span.0, view.PlotWidth());
    var f, x := Ratio(part, span), XAt(view, plot.span, t);
    PlaceUndoes(view.padLeft, f, w, x);
    RatioRises(part, part, span);
    QuotientUndoes(part, span);
    RoundsBack(plot, x, f, part, span);
  }

  lemma RoundsBack(plot: Plot, x: real, f: real, part: int, span: int)
    requires plot.plotWidth > 0.0 && (x - plot.padLeft) / plot.plotWidth == f && 0.0 <= f <= 1.0
    requires span == plot.span.1 - plot.span.0 && 0 < span <= I64_MAX
    requires f * span as real == part as real && Fits(plot.span.0 + part)
    ensures TimeAt(plot, x) == plot.span.0 + part
  {
    assert Round(part as real) == part;
  }
}
