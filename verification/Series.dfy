/** A balance over time, walked backwards from what it is now: `pecu-chart/src/series.rs`. */
module Series {
  import Sorting

  datatype Point = Point(t: int, value: int)

  const I64_MIN: int := -0x8000_0000_0000_0000
  const I64_MAX: int := 0x7fff_ffff_ffff_ffff

  /** A transaction's time and what it did to the balance. */
  type Delta = (int, int)

  predicate Fits(x: int) {
    I64_MIN <= x <= I64_MAX
  }

  function SaturatingSub(a: int, b: int): int {
    if a - b < I64_MIN then I64_MIN else if a - b > I64_MAX then I64_MAX else a - b
  }

  function Time(p: Point): int {
    p.t
  }

  /** The readings before each transaction, oldest first, subtracting as the source does. */
  function Walked(balance: int, deltas: seq<Delta>): seq<Point>
    decreases |deltas|
  {
    if deltas == [] then []
    else
      var last := |deltas| - 1;
      var before := SaturatingSub(balance, deltas[last].1);
      Walked(before, deltas[..last]) + [Point(deltas[last].0, before)]
  }

  /** Oldest first, one reading per transaction and one now; in time order whatever the clocks said. */
  function Deltas(now: int, balance: int, deltas: seq<Delta>): seq<Point> {
    if deltas == [] then [] else Sorting.Sort(Time, Walked(balance, deltas) + [Point(now, balance)])
  }

  function Reversed(points: seq<Point>): seq<Point> {
    if points == [] then [] else Reversed(points[1..]) + [points[0]]
  }

  lemma {:induction false} ReversedAppend(points: seq<Point>, p: Point)
    ensures Reversed(points + [p]) == [p] + Reversed(points)
  {
    if points == [] {
      assert [] + [p] == [p] && [p][1..] == [];
    } else {
      ReversedAppend(points[1..], p);
      assert (points + [p])[1..] == points[1..] + [p];
    }
  }

  method FromDeltas(now: int, balanceNow: int, deltas: seq<Delta>) returns (points: seq<Point>)
    ensures points == Deltas(now, balanceNow, deltas)
  {
    if deltas == [] {
      return [];
    }
    points := [Point(now, balanceNow)];
    var running, i := balanceNow, |deltas|;
    assert deltas[..i] == deltas;
    assert Reversed(points) == points by {
      assert points[1..] == [];
    }
    while i > 0
      invariant 0 <= i <= |deltas|
      invariant Walked(running, deltas[..i]) + Reversed(points) == Walked(balanceNow, deltas) + [Point(now, balanceNow)]
    {
      assert deltas[..i][..i - 1] == deltas[..i - 1];
      i := i - 1;
      var before := SaturatingSub(running, deltas[i].1);
      ReversedAppend(points, Point(deltas[i].0, before));
      points := points + [Point(deltas[i].0, before)];
      running := before;
    }
    points := Reversed(points);
    assert points == Walked(running, deltas[..0]) + points;
    points := Sorting.Sort(Time, points);
  }

  // ---- what the series says ----

  function Sum(deltas: seq<Delta>): int {
    if deltas == [] then 0 else deltas[0].1 + Sum(deltas[1..])
  }

  /** Each balance the way one would want it: what is held now, less everything from that transaction on. */
  function Readings(balance: int, deltas: seq<Delta>): seq<Point> {
    seq(|deltas|, i requires 0 <= i < |deltas| => Point(deltas[i].0, balance - Sum(deltas[i..])))
  }

  lemma {:induction false} SumSplits(deltas: seq<Delta>, x: Delta)
    ensures Sum(deltas + [x]) == Sum(deltas) + x.1
  {
    if deltas == [] {
      assert [] + [x] == [x] && [x][1..] == [];
    } else {
      SumSplits(deltas[1..], x);
      assert (deltas + [x])[1..] == deltas[1..] + [x];
    }
  }

  /** Peeling the newest transaction off every reading. */
  lemma ReadingsPeel(balance: int, deltas: seq<Delta>)
    requires deltas != []
    ensures var last := |deltas| - 1;
            Readings(balance, deltas) ==
              Readings(balance - deltas[last].1, deltas[..last]) + [Point(deltas[last].0, balance - deltas[last].1)]
  {
    var last := |deltas| - 1;
    forall i | 0 <= i < last
      ensures Sum(deltas[i..]) == Sum(deltas[..last][i..]) + deltas[last].1
    {
      assert deltas[i..] == deltas[..last][i..] + [deltas[last]];
      SumSplits(deltas[..last][i..], deltas[last]);
    }
    assert deltas[last..] == [deltas[last]] && [deltas[last]][1..] == [];
  }

  /** Saturating comes as near the true difference as an i64 can. */
  lemma SaturatingIsTheNearest(a: int, b: int, n: int)
    requires Fits(n)
    ensures Fits(SaturatingSub(a, b)) && (Fits(a - b) ==> SaturatingSub(a, b) == a - b)
    ensures a - b >= SaturatingSub(a, b) ==> SaturatingSub(a, b) >= n || a - b < n
    ensures a - b <= SaturatingSub(a, b) ==> SaturatingSub(a, b) <= n || a - b > n
  {}

  predicate AllFit(points: seq<Point>) {
    forall i :: 0 <= i < |points| ==> Fits(points[i].value)
  }

  lemma AllFitAppended(points: seq<Point>, p: Point)
    ensures AllFit(points + [p]) <==> AllFit(points) && Fits(p.value)
  {
    if AllFit(points + [p]) {
      assert (points + [p])[|points|] == p;
      assert forall i :: 0 <= i < |points| ==> (points + [p])[i] == points[i];
    }
  }

  /**
   * The walk telescopes to those balances exactly when every one of them fits an
   * i64: saturation is the only way to be wrong.
   */
  lemma {:induction false} WalkTelescopes(balance: int, deltas: seq<Delta>)
    requires Fits(balance)
    ensures Walked(balance, deltas) == Readings(balance, deltas) <==> AllFit(Readings(balance, deltas))
    decreases |deltas|
  {
    if deltas != [] {
      var last := |deltas| - 1;
      var exact := balance - deltas[last].1;
      if Fits(exact) {
        WalkTelescopes(exact, deltas[..last]);
        ExactStep(balance, deltas, exact);
      } else {
        SaturatedStep(balance, deltas, exact);
      }
    }
  }

  lemma ExactStep(balance: int, deltas: seq<Delta>, exact: int)
    requires deltas != [] && exact == balance - deltas[|deltas| - 1].1 && Fits(exact)
    ensures var older := deltas[..|deltas| - 1];
            && (Walked(balance, deltas) == Readings(balance, deltas) <==>
                Walked(exact, older) == Readings(exact, older))
            && (AllFit(Readings(balance, deltas)) <==> AllFit(Readings(exact, older)))
  {
    var (older, last) := (deltas[..|deltas| - 1], Point(deltas[|deltas| - 1].0, exact));
    ReadingsPeel(balance, deltas);
    EqualAppended(Walked(balance, deltas), Walked(exact, older), Readings(balance, deltas), Readings(exact, older),
                  last);
    AllFitAppended(Readings(exact, older), last);
  }

  lemma SaturatedStep(balance: int, deltas: seq<Delta>, exact: int)
    requires deltas != [] && exact == balance - deltas[|deltas| - 1].1 && !Fits(exact)
    ensures Walked(balance, deltas) != Readings(balance, deltas) && !AllFit(Readings(balance, deltas))
  {
    var last := |deltas| - 1;
    ReadingsPeel(balance, deltas);
    assert Readings(balance, deltas)[last].value == exact;
    WalkedEndsFitting(balance, deltas);
  }

  lemma WalkedEndsFitting(balance: int, deltas: seq<Delta>)
    requires deltas != []
    ensures Walked(balance, deltas) != [] && Fits(Walked(balance, deltas)[|Walked(balance, deltas)| - 1].value)
  {
  }

  lemma EqualAppended(walk: seq<Point>, a: seq<Point>, wanted: seq<Point>, b: seq<Point>, p: Point)
    requires walk == a + [p] && wanted == b + [p]
    ensures walk == wanted <==> a == b
  {
    if walk == wanted {
      assert |walk| == |wanted| && a == walk[..|a|] && b == wanted[..|b|];
    }
  }

  /**
   * For any clocks the series is in time order and is those readings and no others,
   * same-second ones in chain order.
   */
  lemma SeriesIsSortedReadings(now: int, balance: int, deltas: seq<Delta>, t: int)
    requires deltas != []
    ensures var all := Walked(balance, deltas) + [Point(now, balance)];
            && Sorting.Ordered(Time, Deltas(now, balance, deltas))
            && multiset(Deltas(now, balance, deltas)) == multiset(all)
            && Sorting.Having(Time, Deltas(now, balance, deltas), t) == Sorting.Having(Time, all, t)
  {
    var all := Walked(balance, deltas) + [Point(now, balance)];
    Sorting.SortSorts(Time, all);
    Sorting.SortIsStable(Time, all, t);
  }

  lemma {:induction false} WalkedTimes(balance: int, deltas: seq<Delta>)
    ensures |Walked(balance, deltas)| == |deltas|
    ensures forall i :: 0 <= i < |deltas| ==> Walked(balance, deltas)[i].t == deltas[i].0
    decreases |deltas|
  {
    if deltas != [] {
      WalkedTimes(SaturatingSub(balance, deltas[|deltas| - 1].1), deltas[..|deltas| - 1]);
    }
  }

  /** With no transaction there is no series, and otherwise one point more than there are transactions. */
  lemma SeriesIsAsLong(now: int, balance: int, deltas: seq<Delta>)
    ensures |Deltas(now, balance, deltas)| == if deltas == [] then 0 else |deltas| + 1
  {
    if deltas != [] {
      WalkedTimes(balance, deltas);
      Sorting.SortSorts(Time, Walked(balance, deltas) + [Point(now, balance)]);
    }
  }

  /** With no transaction later than now the series ends at now, with the balance as it is. */
  lemma SeriesEndsNow(now: int, balance: int, deltas: seq<Delta>)
    requires deltas != [] && forall d :: d in deltas ==> d.0 <= now
    ensures var s := Deltas(now, balance, deltas);
            |s| == |deltas| + 1 && s[|deltas|] == Point(now, balance)
  {
    var walked := Walked(balance, deltas);
    WalkedTimes(balance, deltas);
    forall p | p in walked
      ensures Time(p) <= now
    {
      var i :| 0 <= i < |walked| && walked[i] == p;
      assert deltas[i] in deltas;
    }
    Sorting.SortKeepsLast(Time, walked, Point(now, balance));
    Sorting.SortSorts(Time, walked);
  }

  predicate ClocksAgree(now: int, deltas: seq<Delta>) {
    && (forall i, j :: 0 <= i < j < |deltas| ==> deltas[i].0 <= deltas[j].0)
    && forall i :: 0 <= i < |deltas| ==> deltas[i].0 <= now
  }

  lemma InTimeOrder(now: int, balance: int, deltas: seq<Delta>, readings: seq<Point>)
    requires ClocksAgree(now, deltas) && |readings| == |deltas|
    requires forall i :: 0 <= i < |deltas| ==> readings[i].t == deltas[i].0
    ensures Sorting.Ordered(Time, readings + [Point(now, balance)])
  {
    var all := readings + [Point(now, balance)];
    forall i, j | 0 <= i < j < |all|
      ensures Time(all[i]) <= Time(all[j])
    {
      assert all[i].t == deltas[i].0;
      if j < |deltas| {
        assert all[j].t == deltas[j].0;
      }
    }
  }

  /** And with clocks that never run backwards, and no saturation, it is the readings themselves, untouched. */
  lemma SeriesIsTheReadings(now: int, balance: int, deltas: seq<Delta>)
    requires deltas != [] && Fits(balance) && ClocksAgree(now, deltas)
    requires AllFit(Readings(balance, deltas))
    ensures Deltas(now, balance, deltas) == Readings(balance, deltas) + [Point(now, balance)]
  {
    WalkTelescopes(balance, deltas);
    InTimeOrder(now, balance, deltas, Readings(balance, deltas));
    Sorting.SortOfOrdered(Time, Readings(balance, deltas) + [Point(now, balance)]);
  }

  /** Read forwards, every transaction changes the balance by what it moved, and the last leads to the balance now. */
  lemma ReadingsStepForward(balance: int, deltas: seq<Delta>, i: nat)
    requires i < |deltas|
    ensures var r := Readings(balance, deltas);
            (if i + 1 < |deltas| then r[i + 1].value else balance) == r[i].value + deltas[i].1
  {
    assert deltas[i..][1..] == deltas[i + 1..];
    assert Sum(deltas[i..]) == deltas[i].1 + Sum(deltas[i + 1..]);
  }
}
