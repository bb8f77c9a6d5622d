/** What thinning a series keeps of it. */
module LttbTheorems {
  import opened Series
  import opened Numbers
  import opened Lttb

  /** The position kept before bucket `b` lies below the bucket. */
  lemma KeptBelowBucket(points: seq<Point>, cuts: seq<nat>, kept: seq<Point>, from: seq<nat>, b: nat)
    requires Tiles(cuts, |points|) && Thinned(points, cuts, kept, from) && b < |cuts|
    ensures from[b] < cuts[b] <= |points| - 1
  {
    if b > 0 {
      var inner := from[..|cuts|];
      assert IsChoice(points, cuts, b - 1, inner[b - 1], inner[b]);
    }
  }

  lemma NeighboursIncrease(points: seq<Point>, cuts: seq<nat>, kept: seq<Point>, from: seq<nat>, i: nat)
    requires Tiles(cuts, |points|) && Thinned(points, cuts, kept, from) && i < |cuts|
    ensures from[i] < from[i + 1]
  {
    KeptBelowBucket(points, cuts, kept, from, i);
    if i < |cuts| - 1 {
      var inner := from[..|cuts|];
      assert IsChoice(points, cuts, i, inner[i], inner[i + 1]);
    }
  }

  /** Kept positions increase, so the thinned series is a subsequence in the order of the original. */
  lemma {:induction false} ThinningKeepsOrder(points: seq<Point>, cuts: seq<nat>, kept: seq<Point>, from: seq<nat>,
                                              i: nat, j: nat)
    requires Tiles(cuts, |points|) && Thinned(points, cuts, kept, from) && i < j <= |cuts|
    ensures from[i] < from[j] < |points|
    decreases j
  {
    NeighboursIncrease(points, cuts, kept, from, j - 1);
    if i < j - 1 {
      ThinningKeepsOrder(points, cuts, kept, from, i, j - 1);
    }
    if j < |cuts| {
      KeptBelowBucket(points, cuts, kept, from, j);
    }
  }

  /** What is kept is exactly what stands at the kept positions, both ends among them, one more than there are cuts. */
  lemma KeptAreThePoints(points: seq<Point>, cuts: seq<nat>, kept: seq<Point>, from: seq<nat>, i: nat)
    requires Tiles(cuts, |points|) && Thinned(points, cuts, kept, from) && i <= |cuts|
    ensures |kept| == |cuts| + 1
    ensures from[0] == 0 && from[|cuts|] == |points| - 1
    ensures from[i] < |points| && kept[i] == points[from[i]]
  {
    var inner := from[..|cuts|];
    if i < |cuts| {
      assert kept[..|cuts|][i] == kept[i] && inner[i] == from[i];
    }
    assert inner[0] == from[0];
  }

  // ---- one spike in a flat series ----

  /** Times strictly increase, every value is `flat`, and only the one at `spike` is not. */
  ghost predicate FlatButOne(points: seq<Point>, flat: int, spike: nat) {
    && spike < |points|
    && points[spike].value != flat
    && (forall i :: 0 <= i < |points| && i != spike ==> points[i].value == flat)
    && forall i, j :: 0 <= i < j < |points| ==> points[i].t < points[j].t
  }

  lemma {:induction false} SumOfFlat(points: seq<Point>, flat: int)
    requires forall i :: 0 <= i < |points| ==> points[i].value == flat
    ensures SumValue(points) == |points| * flat
  {
    if points != [] {
      SumOfFlat(points[1..], flat);
      assert |points| * flat == |points[1..]| * flat + flat;
    }
  }

  lemma {:induction false} SumOfLater(points: seq<Point>, t: int)
    requires points != [] && forall i :: 0 <= i < |points| ==> points[i].t > t
    ensures SumT(points) > |points| * t
  {
    if |points| == 1 {
      assert points[1..] == [];
    } else {
      SumOfLater(points[1..], t);
      assert |points| * t == |points[1..]| * t + t;
    }
  }

  lemma QuotientAbove(sum: int, n: nat, t: int)
    requires n > 0
    ensures sum == n * t ==> sum as real / n as real == t as real
    ensures sum > n * t ==> sum as real / n as real > t as real
  {
    var q := sum as real / n as real;
    assert q * (n as real) == sum as real;
    assert (n * t) as real == (n as real) * (t as real);
    if sum > n * t && q <= t as real {
      assert q * (n as real) <= (t as real) * (n as real);
    }
  }

  /** The centre of a later, flat slice is later and flat. */
  lemma FlatCentre(slice: seq<Point>, flat: int, t: int)
    requires slice != []
    requires forall i :: 0 <= i < |slice| ==> slice[i].value == flat && slice[i].t > t
    ensures Average(slice).0 > t as real && Average(slice).1 == flat as real
  {
    SumOfFlat(slice, flat);
    SumOfLater(slice, t);
    QuotientAbove(SumT(slice), |slice|, t);
    QuotientAbove(SumValue(slice), |slice|, flat);
  }

  /** Against a flat previous point and a flat centre, an area is zero exactly on the flat line. */
  lemma AreaOffTheLine(previous: Point, candidate: Point, next: (real, real))
    requires next.1 == previous.value as real && next.0 > previous.t as real
    ensures Area(previous, candidate, next) >= 0.0
    ensures Area(previous, candidate, next) == 0.0 <==> candidate.value == previous.value
  {
    var run, rise := previous.t as real - next.0, candidate.value as real - previous.value as real;
    assert Area(previous, candidate, next) == Abs(run * rise);
    if rise != 0.0 {
      assert run * rise != 0.0;
    }
  }

  /** A bucket's areas against a flat previous point and a flat centre are zero but at the spike. */
  lemma OnlyTheSpikeHasArea(bucket: seq<Point>, previous: Point, next: (real, real), spike: nat, k: nat)
    requires spike < |bucket| && bucket[spike].value != previous.value
    requires forall i :: 0 <= i < |bucket| && i != spike ==> bucket[i].value == previous.value
    requires next.1 == previous.value as real && next.0 > previous.t as real
    requires IsFirstLargest(Areas(bucket, previous, next), k)
    ensures k == spike
  {
    var areas := Areas(bucket, previous, next);
    assert areas[k] == Area(previous, bucket[k], next) && areas[spike] == Area(previous, bucket[spike], next);
    AreaOffTheLine(previous, bucket[k], next);
    AreaOffTheLine(previous, bucket[spike], next);
  }

  /** The third corner for the spike's bucket is later than what was kept before, and flat. */
  lemma CentreIsFlat(points: seq<Point>, cuts: seq<nat>, b: nat, flat: int, spike: nat, previous: nat)
    requires Tiles(cuts, |points|) && b < |cuts| - 1
    requires FlatButOne(points, flat, spike)
    requires previous < cuts[b] <= spike < cuts[b + 1]
    ensures Average(NextSlice(points, cuts, b)).0 > points[previous].t as real
    ensures Average(NextSlice(points, cuts, b)).1 == flat as real
  {
    var slice := NextSlice(points, cuts, b);
    var start := cuts[b + 1];
    assert forall i :: 0 <= i < |slice| ==> slice[i] == points[start + i];
    FlatCentre(slice, flat, points[previous].t);
  }

  /** A spike inside the series is what its bucket contributes. */
  lemma InnerSpikeIsChosen(points: seq<Point>, cuts: seq<nat>, b: nat, previous: nat, k: nat, flat: int, spike: nat)
    requires Tiles(cuts, |points|) && b < |cuts| - 1
    requires FlatButOne(points, flat, spike)
    requires previous < cuts[b] <= spike < cuts[b + 1]
    requires IsChoice(points, cuts, b, previous, k)
    ensures k == spike
  {
    CentreIsFlat(points, cuts, b, flat, spike, previous);
    var bucket := points[cuts[b]..cuts[b + 1]];
    assert bucket[spike - cuts[b]] == points[spike];
    assert forall i :: 0 <= i < |bucket| && i != spike - cuts[b] ==> bucket[i].value == flat;
    OnlyTheSpikeHasArea(bucket, points[previous], Average(NextSlice(points, cuts, b)), spike - cuts[b], k - cuts[b]);
  }

  /** A single spike survives thinning, wherever it is and however few points are kept. */
  lemma SpikeSurvives(points: seq<Point>, cuts: seq<nat>, kept: seq<Point>, from: seq<nat>, flat: int, spike: nat)
    requires Tiles(cuts, |points|) && Thinned(points, cuts, kept, from)
    requires FlatButOne(points, flat, spike)
    ensures points[spike] in kept
  {
    if spike == 0 {
      KeptAreThePoints(points, cuts, kept, from, 0);
      assert kept[0] == points[spike];
    } else if spike == |points| - 1 {
      assert kept[|cuts|] == points[spike];
    } else {
      var b := BucketOf(cuts, |points|, spike);
      KeptBelowBucket(points, cuts, kept, from, b);
      var inner := from[..|cuts|];
      InnerSpikeIsChosen(points, cuts, b, inner[b], inner[b + 1], flat, spike);
      KeptAreThePoints(points, cuts, kept, from, b + 1);
      assert kept[b + 1] == points[spike];
    }
  }
}
