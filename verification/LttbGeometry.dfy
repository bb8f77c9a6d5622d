/** What the thinning measures: triangles, centres and buckets, said without the formulas that compute them. */
module LttbGeometry {
  import opened Series
  import opened Numbers
  import opened Lttb

  // ---- triangles ----

  /** The straight line through the previous point and the next centre, at a time. */
  function LevelAt(previous: Point, next: (real, real), t: int): real
    requires next.0 != previous.t as real
  {
    var slope := (next.1 - previous.value as real) / (next.0 - previous.t as real);
    previous.value as real + slope * (t - previous.t) as real
  }

  /** An area is the base, in time, times how far the candidate stands above or below the line over that base. */
  lemma AreaIsBaseTimesHeight(previous: Point, candidate: Point, next: (real, real))
    requires next.0 != previous.t as real
    ensures Area(previous, candidate, next) ==
              Abs(next.0 - previous.t as real) * Abs(candidate.value as real - LevelAt(previous, next, candidate.t))
  {
    var (base, rise) := (next.0 - previous.t as real, next.1 - previous.value as real);
    var (run, climb) := ((candidate.t - previous.t) as real, (candidate.value - previous.value) as real);
    var slope := rise / base;
    assert slope * base == rise;
    assert base * (climb - slope * run) == base * climb - rise * run;
    assert candidate.value as real - LevelAt(previous, next, candidate.t) == climb - slope * run;
    AbsOfProduct(base, climb - slope * run);
    assert (previous.t as real - next.0) * climb - (previous.t as real - candidate.t as real) * rise
        == -(base * climb - rise * run);
  }

  lemma AbsOfProduct(a: real, b: real)
    ensures Abs(a * b) == Abs(a) * Abs(b)
  {
    if a >= 0.0 && b >= 0.0 {
      assert a * b >= 0.0;
    } else if a < 0.0 && b < 0.0 {
      assert (-a) * (-b) == a * b && a * b > 0.0;
    } else if a < 0.0 {
      assert (-a) * b == -(a * b) && (-a) * b >= 0.0;
    } else {
      assert a * (-b) == -(a * b) && a * (-b) >= 0.0;
    }
  }

  /** So it is nothing exactly when the candidate stands on that line. */
  lemma AreaIsNothingOnTheLine(previous: Point, candidate: Point, next: (real, real))
    requires next.0 != previous.t as real
    ensures Area(previous, candidate, next) == 0.0 <==> candidate.value as real == LevelAt(previous, next, candidate.t)
  {
    AreaIsBaseTimesHeight(previous, candidate, next);
    var (a, b) := (Abs(next.0 - previous.t as real),
                   Abs(candidate.value as real - LevelAt(previous, next, candidate.t)));
    if b != 0.0 {
      assert a > 0.0 && b > 0.0 && a * b > 0.0;
    }
  }

  /** The standard formula for twice a triangle's area, all three corners alike. */
  function Shoelace(a: (real, real), b: (real, real), c: (real, real)): real {
    Abs(a.0 * (b.1 - c.1) + b.0 * (c.1 - a.1) + c.0 * (a.1 - b.1))
  }

  function Corner(p: Point): (real, real) {
    (p.t as real, p.value as real)
  }

  lemma AreaIsTheShoelace(previous: Point, candidate: Point, next: (real, real))
    ensures Area(previous, candidate, next) == Shoelace(Corner(previous), Corner(candidate), next)
  {
    var ((ax, ay), (bx, by_), (cx, cy)) := (Corner(previous), Corner(candidate), next);
    assert (ax - cx) * (by_ - ay) - (ax - bx) * (cy - ay) == ax * (by_ - cy) + bx * (cy - ay) + cx * (ay - by_);
  }

  /** It makes no difference which corner is which. */
  lemma AreaIgnoresOrder(a: Point, b: Point, c: Point)
    ensures Area(a, b, Corner(c)) == Area(b, a, Corner(c)) == Area(a, c, Corner(b))
  {
    AreaIsTheShoelace(a, b, Corner(c));
    AreaIsTheShoelace(b, a, Corner(c));
    AreaIsTheShoelace(a, c, Corner(b));
  }

  function Shifted(p: Point, t: int, value: int): Point {
    Point(p.t + t, p.value + value)
  }

  /** Nor where the three of them stand together. */
  lemma AreaIgnoresPlace(previous: Point, candidate: Point, next: (real, real), t: int, value: int)
    ensures var moved := (next.0 + t as real, next.1 + value as real);
            Area(Shifted(previous, t, value), Shifted(candidate, t, value), moved) == Area(previous, candidate, next)
  {}

  // ---- centres ----

  /** The centre of some points balances them, in time and in value. */
  lemma CentreBalances(points: seq<Point>)
    requires points != []
    ensures |points| as real * Average(points).0 == SumT(points) as real
    ensures |points| as real * Average(points).1 == SumValue(points) as real
  {}

  lemma {:induction false} SumsAdd(front: seq<Point>, p: Point)
    ensures SumT(front + [p]) == SumT(front) + p.t && SumValue(front + [p]) == SumValue(front) + p.value
  {
    if front == [] {
      assert [] + [p] == [p] && [p][1..] == [];
    } else {
      SumsAdd(front[1..], p);
      assert (front + [p])[1..] == front[1..] + [p];
    }
  }

  // ---- buckets ----

  lemma Quotient(x: nat, n: nat) returns (q: nat, r: nat)
    requires n > 0
    ensures q == x / n && r < n && x == q * n + r
  {
    q, r := x / n, x % n;
  }

  lemma QuotientOfSum(n: nat, q: nat, r: nat, p: nat, s: nat)
    requires n > 0 && r < n && s < n
    ensures (q * n + r + (p * n + s)) / n == if r + s < n then q + p else q + p + 1
  {
    var total := q * n + r + (p * n + s);
    assert (q + p) * n == q * n + p * n;
    if r + s < n {
      QuotientIs(total, n, q + p, r + s);
    } else {
      assert (q + p + 1) * n == (q + p) * n + n;
      QuotientIs(total, n, q + p + 1, r + s - n);
    }
  }

  lemma QuotientsAreEven(x: nat, d: nat, n: nat)
    requires n > 0
    ensures d / n <= (x + d) / n - x / n <= d / n + 1
  {
    var q, r := Quotient(x, n);
    var p, s := Quotient(d, n);
    QuotientOfSum(n, q, r, p, s);
  }

  lemma QuotientIs(x: nat, n: nat, q: nat, r: nat)
    requires n > 0 && r < n && x == q * n + r
    ensures x / n == q
  {
    DivIs(x, n, q);
  }

  /** No bucket holds more than one point more than another: each has the interior's share, or one over. */
  lemma BucketsAreEven(interior: nat, buckets: nat, b: nat)
    requires 0 < buckets <= interior && b < buckets
    ensures var cuts := Cuts(interior, buckets, buckets);
            interior / buckets <= cuts[b + 1] - cuts[b] <= interior / buckets + 1
  {
    CutsAt(interior, buckets, buckets, b);
    CutsAt(interior, buckets, buckets, b + 1);
    assert (b + 1) * interior == b * interior + interior;
    QuotientsAreEven(b * interior, interior, buckets);
  }

  /** The third corner is taken from the whole of the next bucket, or from the last point when there is none. */
  lemma ThirdCornerIsTheNextBucket(points: seq<Point>, cuts: seq<nat>, b: nat)
    requires Tiles(cuts, |points|) && b < |cuts| - 1
    ensures var s := NextSlice(points, cuts, b);
            if b + 1 == |cuts| - 1 then s == [points[|points| - 1]]
            else && |s| == cuts[b + 2] - cuts[b + 1]
                 && forall k :: cuts[b + 1] <= k < cuts[b + 2] ==> s[k - cuts[b + 1]] == points[k]
  {}
}
