/**
 * Largest-Triangle-Three-Buckets: `pecu-chart/src/lttb.rs`. Coordinates are
 * integers; areas and averages, which are floats in the source and only ever
 * compared, are reals.
 */
module Lttb {
  import opened Wrappers
  import opened Series
  import opened Numbers

  /** Twice the area of the triangle over the previous kept point, the candidate and the next centre. */
  function Area(previous: Point, candidate: Point, next: (real, real)): real {
    var (fromX, fromY) := (previous.t as real, previous.value as real);
    var (x, y) := (candidate.t as real, candidate.value as real);
    Abs((fromX - next.0) * (y - fromY) - (fromX - x) * (next.1 - fromY))
  }

  function SumT(points: seq<Point>): int {
    if points == [] then 0 else points[0].t + SumT(points[1..])
  }

  function SumValue(points: seq<Point>): int {
    if points == [] then 0 else points[0].value + SumValue(points[1..])
  }

  function Average(points: seq<Point>): (real, real) {
    if points == [] then (0.0, 0.0)
    else (SumT(points) as real / |points| as real, SumValue(points) as real / |points| as real)
  }

  function Areas(bucket: seq<Point>, previous: Point, next: (real, real)): (areas: seq<real>)
    ensures |areas| == |bucket|
  {
    seq(|bucket|, i requires 0 <= i < |bucket| => Area(previous, bucket[i], next))
  }

  /** `k` is the first position no other exceeds. */
  predicate IsFirstLargest(areas: seq<real>, k: nat) {
    && k < |areas|
    && (forall j :: 0 <= j < |areas| ==> areas[j] <= areas[k])
    && (forall j :: 0 <= j < k ==> areas[j] < areas[k])
  }

  method Pick(bucket: seq<Point>, previous: Point, next: (real, real)) returns (chosen: Option<Point>, ghost at: nat)
    ensures bucket == [] <==> chosen.None?
    ensures bucket != [] ==> IsFirstLargest(Areas(bucket, previous, next), at) && chosen == Some(bucket[at])
  {
    ghost var areas := Areas(bucket, previous, next);
    var best: Option<(real, Point)> := None;
    at := 0;
    for i := 0 to |bucket|
      invariant best.None? <==> i == 0
      invariant i > 0 ==> IsFirstLargest(areas[..i], at) && best == Some((areas[at], bucket[at]))
    {
      var area := Area(previous, bucket[i], next);
      assert area == areas[i];
      if best.None? || area > best.value.0 {
        best := Some((area, bucket[i]));
        at := i;
      }
    }
    assert areas[..|bucket|] == areas;
    chosen := if best.None? then None else Some(best.value.1);
  }

  // ---- the buckets ----

  /** Where bucket `b` of `buckets` starts in a series with `interior` points between its ends. */
  function Start(b: nat, interior: nat, buckets: nat): nat
    requires buckets > 0
  {
    1 + b * interior / buckets
  }

  /** The first `n + 1` bucket starts; the last of all is where the last bucket ends. */
  function Cuts(interior: nat, buckets: nat, n: nat): (cuts: seq<nat>)
    requires buckets > 0
    ensures |cuts| == n + 1
  {
    if n == 0 then [Start(0, interior, buckets)] else Cuts(interior, buckets, n - 1) + [Start(n, interior, buckets)]
  }

  /** Cuts that split the interior of a series of `n` points into buckets: no gap, no overlap, none empty. */
  ghost predicate Tiles(cuts: seq<nat>, n: nat) {
    && |cuts| >= 2 && cuts[0] == 1 && cuts[|cuts| - 1] == n - 1
    && forall i, j :: 0 <= i < j < |cuts| ==> cuts[i] < cuts[j]
  }

  lemma MulMonotone(x: nat, y: nat, d: nat)
    requires x <= y
    ensures x * d <= y * d
  {}

  lemma DivIs(x: nat, d: nat, q: nat)
    requires d > 0 && q * d <= x < q * d + d
    ensures x / d == q
  {
    var p := x / d;
    assert x == p * d + x % d;
    if p < q {
      MulMonotone(p + 1, q, d);
    } else if p > q {
      MulMonotone(q + 1, p, d);
    }
  }

  lemma DivGrows(x: nat, y: nat, d: nat)
    requires d > 0 && y >= x + d
    ensures y / d >= x / d + 1
  {
    var p := x / d;
    assert x == p * d + x % d;
    DivIs(x + d, d, p + 1);
    DivMonotone(x + d, y, d);
  }

  lemma DivMonotone(x: nat, y: nat, d: nat)
    requires d > 0 && x <= y
    ensures x / d <= y / d
  {
    var p, q := x / d, y / d;
    assert x == p * d + x % d && y == q * d + y % d;
    if q < p {
      MulMonotone(q + 1, p, d);
    }
  }

  lemma StartGrows(b: nat, interior: nat, buckets: nat)
    requires 0 < buckets <= interior
    ensures Start(b, interior, buckets) < Start(b + 1, interior, buckets)
  {
    assert (b + 1) * interior == b * interior + interior;
    DivGrows(b * interior, (b + 1) * interior, buckets);
  }

  lemma {:induction false} CutsAt(interior: nat, buckets: nat, n: nat, b: nat)
    requires buckets > 0 && b <= n
    ensures Cuts(interior, buckets, n)[b] == Start(b, interior, buckets)
  {
    if b < n {
      CutsAt(interior, buckets, n - 1, b);
    }
  }

  lemma {:induction false} CutsIncrease(interior: nat, buckets: nat, n: nat)
    requires 0 < buckets <= interior
    ensures forall i, j :: 0 <= i < j < n + 1 ==> Cuts(interior, buckets, n)[i] < Cuts(interior, buckets, n)[j]
  {
    if n > 0 {
      CutsIncrease(interior, buckets, n - 1);
      CutsAt(interior, buckets, n - 1, n - 1);
      StartGrows(n - 1, interior, buckets);
    }
  }

  /** The bucket arithmetic tiles the interior. */
  lemma CutsTile(interior: nat, buckets: nat)
    requires 0 < buckets <= interior
    ensures Tiles(Cuts(interior, buckets, buckets), interior + 2)
  {
    CutsIncrease(interior, buckets, buckets);
    CutsAt(interior, buckets, buckets, 0);
    CutsAt(interior, buckets, buckets, buckets);
    DivIs(buckets * interior, buckets, interior);
    DivIs(0 * interior, buckets, 0);
  }

  /** So every interior position is in exactly one bucket. */
  lemma BucketOf(cuts: seq<nat>, n: nat, k: nat) returns (b: nat)
    requires Tiles(cuts, n) && 1 <= k < n - 1
    ensures b < |cuts| - 1 && cuts[b] <= k < cuts[b + 1]
    ensures forall c :: 0 <= c < |cuts| - 1 && cuts[c] <= k < cuts[c + 1] ==> c == b
  {
    b := 0;
    while cuts[b + 1] <= k
      invariant b < |cuts| - 1 && cuts[b] <= k
      decreases |cuts| - b
    {
      b := b + 1;
    }
  }

  /** The slice whose centre is the third corner for bucket `b`: the next bucket, or the final point on its own. */
  function NextSlice(points: seq<Point>, cuts: seq<nat>, b: nat): (s: seq<Point>)
    requires Tiles(cuts, |points|) && b < |cuts| - 1
    ensures s != []
  {
    if b + 2 == |cuts| then points[|points| - 1..] else points[cuts[b + 1]..cuts[b + 2]]
  }

  // ---- the thinning ----

  /** Position `k` is the first of bucket `b` whose triangle with `previous` and the next slice's centre is largest. */
  ghost predicate IsChoice(points: seq<Point>, cuts: seq<nat>, b: nat, previous: nat, k: nat)
    requires Tiles(cuts, |points|) && b < |cuts| - 1
  {
    && previous < |points| && cuts[b] <= k < cuts[b + 1]
    && IsFirstLargest(Areas(points[cuts[b]..cuts[b + 1]], points[previous], Average(NextSlice(points, cuts, b))),
                      k - cuts[b])
  }

  function At(points: seq<Point>, from: seq<nat>): seq<Point>
    requires forall i :: 0 <= i < |from| ==> from[i] < |points|
  {
    seq(|from|, i requires 0 <= i < |from| => points[from[i]])
  }

  /** `kept` is the first point and the choices of the first `done` buckets, taken from the positions `from`. */
  ghost predicate Progress(points: seq<Point>, cuts: seq<nat>, done: nat, kept: seq<Point>, from: seq<nat>)
    requires Tiles(cuts, |points|) && done < |cuts|
  {
    && |from| == done + 1 && from[0] == 0
    && (forall i :: 0 <= i < |from| ==> from[i] < |points|)
    && kept == At(points, from)
    && forall b :: 0 <= b < done ==> IsChoice(points, cuts, b, from[b], from[b + 1])
  }

  /** `kept` is both ends of `points` and every bucket's choice between them. */
  ghost predicate Thinned(points: seq<Point>, cuts: seq<nat>, kept: seq<Point>, from: seq<nat>)
    requires Tiles(cuts, |points|)
  {
    && |from| == |cuts| + 1 && from[|cuts|] == |points| - 1
    && |kept| == |from| && kept[|cuts|] == points[|points| - 1]
    && Progress(points, cuts, |cuts| - 1, kept[..|cuts|], from[..|cuts|])
  }

  lemma ProgressExtends(points: seq<Point>, cuts: seq<nat>, done: nat, kept: seq<Point>, from: seq<nat>, k: nat)
    requires Tiles(cuts, |points|) && done < |cuts| - 1
    requires Progress(points, cuts, done, kept, from)
    requires k < |points| && IsChoice(points, cuts, done, from[done], k)
    ensures Progress(points, cuts, done + 1, kept + [points[k]], from + [k])
  {
    var next := from + [k];
    assert forall b :: 0 <= b <= done ==> next[b] == from[b];
    assert At(points, next) == At(points, from) + [points[k]];
  }

  /** One bucket's turn: its slice, the next slice's centre, and the pick between them. */
  method Choose(points: seq<Point>, interior: nat, buckets: nat, bucket: nat, previous: Point, ghost at: nat)
    returns (chosen: Option<Point>, ghost k: nat)
    requires 0 < buckets <= interior && bucket < buckets && |points| == interior + 2
    requires Tiles(Cuts(interior, buckets, buckets), |points|)
    requires at < |points| && previous == points[at]
    ensures k < |points| && chosen == Some(points[k])
    ensures IsChoice(points, Cuts(interior, buckets, buckets), bucket, at, k)
  {
    ghost var cuts := Cuts(interior, buckets, buckets);
    CutsAt(interior, buckets, buckets, bucket);
    CutsAt(interior, buckets, buckets, bucket + 1);
    var start := 1 + bucket * interior / buckets;
    var end := 1 + (bucket + 1) * interior / buckets;
    var nextStart, nextEnd := |points| - 1, |points|;
    if bucket + 1 != buckets {
      CutsAt(interior, buckets, buckets, bucket + 2);
      nextStart, nextEnd := end, 1 + (bucket + 2) * interior / buckets;
    }
    assert points[nextStart..nextEnd] == NextSlice(points, cuts, bucket);
    chosen, k := Pick(points[start..end], previous, Average(points[nextStart..nextEnd]));
    k := start + k;
  }

  method Downsample(points: seq<Point>, threshold: nat) returns (kept: seq<Point>, ghost from: seq<nat>)
    ensures threshold < 3 || |points| <= threshold ==> kept == points
    ensures 3 <= threshold < |points| ==>
              var cuts := Cuts(|points| - 2, threshold - 2, threshold - 2);
              |kept| == threshold && Tiles(cuts, |points|) && Thinned(points, cuts, kept, from)
  {
    if threshold < 3 || |points| <= threshold {
      return points, [];
    }
    kept, from := [points[0]], [0];
    var interior, buckets := |points| - 2, threshold - 2;
    ghost var cuts := Cuts(interior, buckets, buckets);
    CutsTile(interior, buckets);
    var previous := points[0];
    for bucket := 0 to buckets
      invariant Progress(points, cuts, bucket, kept, from)
      invariant previous == points[from[bucket]]
    {
      var chosen, k := Choose(points, interior, buckets, bucket, previous, from[bucket]);
      if chosen.Some? {
        ProgressExtends(points, cuts, bucket, kept, from, k);
        kept := kept + [chosen.value];
        previous := chosen.value;
        from := from + [k];
      }
    }
    ghost var (inner, positions) := (kept, from);
    kept := kept + [points[|points| - 1]];
    from := from + [|points| - 1];
    assert kept[..|cuts|] == inner && from[..|cuts|] == positions;
  }
}
