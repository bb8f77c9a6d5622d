/** The two-hop series as an as-of join, the prices within a pool, and the change between a series' ends. */
module MarketTheorems {
  import opened Wrappers
  import opened Market

  // ---- the ordered map ----

  /** What stands at or before `t` once `(key, value)` has been put: the new entry unless an older one is later. */
  function Newer(e: Option<(int, real)>, key: int, value: real, t: int): Option<(int, real)> {
    if key <= t && (e.None? || e.value.0 <= key) then Some((key, value)) else e
  }

  /** An entry at the front matters only when nothing behind it does. */
  lemma {:induction false} FrontMattersLast(first: (int, real), rest: Hops, t: int)
    ensures AtOrBefore([first] + rest, t) ==
              if AtOrBefore(rest, t).Some? then AtOrBefore(rest, t) else if first.0 <= t then Some(first) else None
  {
    var all := [first] + rest;
    if rest == [] {
      assert all[..|all| - 1] == [];
    } else {
      assert all[|all| - 1] == rest[|rest| - 1];
      assert all[..|all| - 1] == [first] + rest[..|rest| - 1];
      FrontMattersLast(first, rest[..|rest| - 1], t);
    }
  }

  lemma {:induction false} FoundIsAnEntry(hops: Hops, t: int)
    ensures AtOrBefore(hops, t).Some? ==> AtOrBefore(hops, t).value in hops && AtOrBefore(hops, t).value.0 <= t
    ensures AtOrBefore(hops, t).None? ==> forall e :: e in hops ==> e.0 > t
    decreases |hops|
  {
    if hops != [] {
      assert hops == hops[..|hops| - 1] + [hops[|hops| - 1]];
      FoundIsAnEntry(hops[..|hops| - 1], t);
    }
  }

  /** Every key is later than this one. */
  predicate AllAfter(hops: Hops, key: int) {
    forall j :: 0 <= j < |hops| ==> key < hops[j].0
  }

  lemma {:induction false} PutStaysAfter(hops: Hops, key: int, value: real, bound: int)
    requires AllAfter(hops, bound) && bound < key
    ensures AllAfter(Put(hops, key, value), bound)
  {
    if hops != [] && key > hops[0].0 {
      PutStaysAfter(hops[1..], key, value, bound);
    }
  }

  lemma {:induction false} PutKeepsOrder(hops: Hops, key: int, value: real)
    requires Increasing(hops)
    ensures Increasing(Put(hops, key, value))
  {
    if hops != [] && key > hops[0].0 {
      PutKeepsOrder(hops[1..], key, value);
      PutStaysAfter(hops[1..], key, value, hops[0].0);
    }
  }

  lemma {:induction false} PutIsSeenWhenNewer(hops: Hops, key: int, value: real, t: int)
    requires Increasing(hops)
    ensures AtOrBefore(Put(hops, key, value), t) == Newer(AtOrBefore(hops, t), key, value, t)
  {
    FoundIsAnEntry(hops, t);
    if hops == [] {
      FrontMattersLast((key, value), [], t);
    } else {
      assert hops == [hops[0]] + hops[1..];
      FrontMattersLast(hops[0], hops[1..], t);
      FoundIsAnEntry(hops[1..], t);
      if key < hops[0].0 {
        FrontMattersLast((key, value), hops, t);
      } else if key == hops[0].0 {
        FrontMattersLast((key, value), hops[1..], t);
      } else {
        PutIsSeenWhenNewer(hops[1..], key, value, t);
        FrontMattersLast(hops[0], Put(hops[1..], key, value), t);
      }
    }
  }

  // ---- the as-of join ----

  predicate Usable(readings: seq<Reading>, i: nat, reference: Pool, chain: string, quote: string) {
    i < |readings| && reference.PriceAt(readings[i], chain, quote).Some?
  }

  /** Reading `i` is the latest usable one at or before `t`; of several at one instant, the last published. */
  ghost predicate IsLatest(readings: seq<Reading>, i: nat, t: int, reference: Pool, chain: string, quote: string) {
    && Usable(readings, i, reference, chain, quote) && readings[i].blockTime <= t
    && forall k :: 0 <= k < |readings| && Usable(readings, k, reference, chain, quote) && readings[k].blockTime <= t
         ==> readings[k].blockTime < readings[i].blockTime || (readings[k].blockTime == readings[i].blockTime && k <= i)
  }

  /** `i` answers for `t`: the latest usable reading, or nothing when none is usable by then. */
  ghost predicate Answers(readings: seq<Reading>, i: Option<nat>, t: int, reference: Pool, chain: string,
                          quote: string) {
    match i
    case Some(i) => IsLatest(readings, i, t, reference, chain, quote)
    case None => forall k: nat :: Usable(readings, k, reference, chain, quote) ==> readings[k].blockTime > t
  }

  /** One more reading takes over when it is usable, in time, and no older than the answer so far. */
  predicate TakesOver(readings: seq<Reading>, i: Option<nat>, t: int, reference: Pool, chain: string, quote: string)
    requires readings != [] && (i.Some? ==> i.value < |readings|)
  {
    var n := |readings| - 1;
    && reference.PriceAt(readings[n], chain, quote).Some? && readings[n].blockTime <= t
    && (i.None? || readings[i.value].blockTime <= readings[n].blockTime)
  }

  lemma AnswerGrows(readings: seq<Reading>, i: Option<nat>, t: int, reference: Pool, chain: string, quote: string)
    requires readings != [] && Answers(readings[..|readings| - 1], i, t, reference, chain, quote)
    ensures i.Some? ==> i.value < |readings| - 1
    ensures Answers(readings, if TakesOver(readings, i, t, reference, chain, quote) then Some(|readings| - 1) else i,
                    t, reference, chain, quote)
  {}

  lemma {:induction false} HopsAreOrdered(readings: seq<Reading>, reference: Pool, chain: string, quote: string)
    ensures Increasing(HopsOf(readings, reference, chain, quote))
    decreases |readings|
  {
    if readings != [] {
      var n := |readings| - 1;
      HopsAreOrdered(readings[..n], reference, chain, quote);
      var price := reference.PriceAt(readings[n], chain, quote);
      if price.Some? {
        PutKeepsOrder(HopsOf(readings[..n], reference, chain, quote), readings[n].blockTime, price.value);
      }
    }
  }

  /** Reading `i` as an entry of the map. */
  function EntryOf(readings: seq<Reading>, i: Option<nat>, reference: Pool, chain: string, quote: string)
    : Option<(int, real)>
    requires i.Some? ==> Usable(readings, i.value, reference, chain, quote)
  {
    match i
    case None => None
    case Some(i) => Some((readings[i].blockTime, reference.PriceAt(readings[i], chain, quote).value))
  }

  lemma OneMoreHop(readings: seq<Reading>, i: Option<nat>, t: int, reference: Pool, chain: string, quote: string)
    requires readings != [] && Answers(readings[..|readings| - 1], i, t, reference, chain, quote)
    requires AtOrBefore(HopsOf(readings[..|readings| - 1], reference, chain, quote), t)
               == EntryOf(readings[..|readings| - 1], i, reference, chain, quote)
    requires Answers(readings, i, t, reference, chain, quote) || TakesOver(readings, i, t, reference, chain, quote)
    ensures AtOrBefore(HopsOf(readings, reference, chain, quote), t) ==
              if TakesOver(readings, i, t, reference, chain, quote)
              then EntryOf(readings, Some(|readings| - 1), reference, chain, quote)
              else EntryOf(readings, i, reference, chain, quote)
  {
    var n := |readings| - 1;
    var price := reference.PriceAt(readings[n], chain, quote);
    if price.Some? {
      HopsAreOrdered(readings[..n], reference, chain, quote);
      PutIsSeenWhenNewer(HopsOf(readings[..n], reference, chain, quote), readings[n].blockTime, price.value, t);
    }
    if i.Some? {
      assert readings[..n][i.value] == readings[i.value];
    }
  }

  /** The hop found for a time is the latest usable reference reading, in whatever order they were published. */
  lemma {:induction false} HopIsTheLatest(readings: seq<Reading>, t: int, reference: Pool, chain: string, quote: string)
    returns (i: Option<nat>)
    ensures Answers(readings, i, t, reference, chain, quote)
    ensures AtOrBefore(HopsOf(readings, reference, chain, quote), t) == EntryOf(readings, i, reference, chain, quote)
    decreases |readings|
  {
    if readings == [] {
      i := None;
    } else {
      i := HopIsTheLatest(readings[..|readings| - 1], t, reference, chain, quote);
      AnswerGrows(readings, i, t, reference, chain, quote);
      OneMoreHop(readings, i, t, reference, chain, quote);
      if TakesOver(readings, i, t, reference, chain, quote) {
        i := Some(|readings| - 1);
      }
    }
  }

  /** Reading `i` is one of those listed. */
  predicate Lists(from: seq<nat>, i: nat) {
    i in from
  }

  predicate Climbs(from: seq<nat>) {
    forall j, k :: 0 <= j < k < |from| ==> from[j] < from[k]
  }

  /** The readings a `filter_map` keeps, by position in the list. */
  function Kept(readings: seq<Reading>, f: Reading -> Option<ChartPoint>, at: nat): seq<nat> {
    if readings == [] then []
    else (if f(readings[0]).Some? then [at] else []) + Kept(readings[1..], f, at + 1)
  }

  lemma {:induction false} KeptClimb(readings: seq<Reading>, f: Reading -> Option<ChartPoint>, at: nat)
    ensures Climbs(Kept(readings, f, at))
    ensures forall k :: 0 <= k < |Kept(readings, f, at)| ==> Kept(readings, f, at)[k] >= at
  {
    if readings != [] {
      KeptClimb(readings[1..], f, at + 1);
    }
  }

  lemma {:induction false} KeptYield(readings: seq<Reading>, f: Reading -> Option<ChartPoint>, at: nat, j: nat)
    requires j < |Kept(readings, f, at)|
    ensures |Kept(readings, f, at)| == |FilterMap(readings, f)|
    ensures var k := Kept(readings, f, at)[j];
            at <= k < at + |readings| && f(readings[k - at]) == Some(FilterMap(readings, f)[j])
  {
    KeptAsMany(readings, f, at);
    if !f(readings[0]).Some? {
      KeptYield(readings[1..], f, at + 1, j);
    } else if j > 0 {
      KeptYield(readings[1..], f, at + 1, j - 1);
    }
  }

  lemma {:induction false} KeptAsMany(readings: seq<Reading>, f: Reading -> Option<ChartPoint>, at: nat)
    ensures |Kept(readings, f, at)| == |FilterMap(readings, f)|
  {
    if readings != [] {
      KeptAsMany(readings[1..], f, at + 1);
    }
  }

  lemma {:induction false} KeptAreThoseThatYield(readings: seq<Reading>, f: Reading -> Option<ChartPoint>, at: nat,
                                                 i: nat)
    requires i < |readings|
    ensures Lists(Kept(readings, f, at), at + i) <==> f(readings[i]).Some?
  {
    var rest := Kept(readings[1..], f, at + 1);
    KeptClimb(readings[1..], f, at + 1);
    if i > 0 {
      KeptAreThoseThatYield(readings[1..], f, at + 1, i - 1);
      assert Lists(Kept(readings, f, at), at + i) <==> Lists(rest, at + i);
    } else {
      assert at !in rest;
    }
  }

  /** A point joins the pool's reading with the latest usable reference reading at or before it, and no other. */
  ghost predicate IsAsOfPoint(p: ChartPoint, pool: Pool, i: nat, reference: Pool, target: string, chain: string,
                              quote: string) {
    && i < |pool.history| && p.t == pool.history[i].blockTime
    && pool.PriceAt(pool.history[i], target, chain).Some?
    && exists h: nat ::
         IsLatest(reference.history, h, p.t, reference, chain, quote)
         && IsWorth(p, pool.PriceAt(pool.history[i], target, chain).value,
                    reference.PriceAt(reference.history[h], chain, quote).value)
  }

  /** The point's figure is the two prices multiplied, in satoshis. */
  predicate IsWorth(p: ChartPoint, priced: real, hop: real) {
    PointAt(p.t, Across(priced, hop)) == Some(p)
  }

  lemma HoppedPointIsAsOf(pool: Pool, i: nat, reference: Pool, target: string, chain: string, quote: string)
    requires i < |pool.history|
    ensures var p := HoppedPoint(pool, pool.history[i], target, chain,
                                 HopsOf(reference.history, reference, chain, quote));
            p.Some? ==> IsAsOfPoint(p.value, pool, i, reference, target, chain, quote)
  {
    var h := HopIsTheLatest(reference.history, pool.history[i].blockTime, reference, chain, quote);
    var p := HoppedPoint(pool, pool.history[i], target, chain, HopsOf(reference.history, reference, chain, quote));
    if p.Some? {
      var (priced, hop) := (pool.PriceAt(pool.history[i], target, chain).value,
                            AtOrBefore(HopsOf(reference.history, reference, chain, quote), p.value.t).value.1);
      assert IsWorth(p.value, priced, hop);
      assert hop == reference.PriceAt(reference.history[h.value], chain, quote).value;
      assert IsLatest(reference.history, h.value, p.value.t, reference, chain, quote);
    }
  }

  /** No point is due: the pool had no price, the reference none yet, or the two multiplied do not fit. */
  ghost predicate YieldsNothing(pool: Pool, i: nat, reference: Pool, target: string, chain: string, quote: string) {
    i < |pool.history| &&
    (pool.PriceAt(pool.history[i], target, chain).None?
     || (forall k: nat :: Usable(reference.history, k, reference, chain, quote)
           ==> reference.history[k].blockTime > pool.history[i].blockTime)
     || (exists h: nat ::
           IsLatest(reference.history, h, pool.history[i].blockTime, reference, chain, quote)
           && TooDear(pool.PriceAt(pool.history[i], target, chain).value,
                      reference.PriceAt(reference.history[h], chain, quote).value)))
  }

  predicate TooDear(priced: real, hop: real) {
    priced * hop * 100_000_000.0 + 0.5 >= (I64_MAX + 2) as real
  }

  lemma DroppedForAReason(pool: Pool, i: nat, reference: Pool, target: string, chain: string, quote: string)
    requires i < |pool.history|
    requires HoppedPoint(pool, pool.history[i], target, chain, HopsOf(reference.history, reference, chain, quote)).None?
    ensures YieldsNothing(pool, i, reference, target, chain, quote)
  {
    var h := HopIsTheLatest(reference.history, pool.history[i].blockTime, reference, chain, quote);
    if h.Some? && pool.PriceAt(pool.history[i], target, chain).Some? {
      var (priced, hop) := (pool.PriceAt(pool.history[i], target, chain).value,
                            reference.PriceAt(reference.history[h.value], chain, quote).value);
      assert priced > 0.0 && hop > 0.0;
      assert priced * hop > 0.0;
      assert TooDear(priced, hop);
      assert IsLatest(reference.history, h.value, pool.history[i].blockTime, reference, chain, quote);
    }
  }

  /** Points drawn in order from some of the pool's readings, every other reading being due none. */
  ghost predicate IsAsOfJoin(series: seq<ChartPoint>, from: seq<nat>, pool: Pool, reference: Pool,
                             target: string, chain: string, quote: string) {
    && |from| == |series| && Climbs(from)
    && (forall j :: 0 <= j < |from| ==> IsAsOfPoint(series[j], pool, from[j], reference, target, chain, quote))
    && (forall i: nat :: i < |pool.history| && !Lists(from, i) ==>
          YieldsNothing(pool, i, reference, target, chain, quote))
  }

  lemma JoinOf(pool: Pool, reference: Pool, target: string, chain: string, quote: string,
               f: Reading -> Option<ChartPoint>)
    requires forall r :: f(r) == HoppedPoint(pool, r, target, chain, HopsOf(reference.history, reference, chain, quote))
    ensures IsAsOfJoin(FilterMap(pool.history, f), Kept(pool.history, f, 0), pool, reference, target, chain, quote)
  {
    var (series, from) := (FilterMap(pool.history, f), Kept(pool.history, f, 0));
    KeptClimb(pool.history, f, 0);
    KeptAsMany(pool.history, f, 0);
    forall j | 0 <= j < |from|
      ensures IsAsOfPoint(series[j], pool, from[j], reference, target, chain, quote)
    {
      KeptYield(pool.history, f, 0, j);
      HoppedPointIsAsOf(pool, from[j], reference, target, chain, quote);
    }
    forall i: nat | i < |pool.history| && !Lists(from, i)
      ensures YieldsNothing(pool, i, reference, target, chain, quote)
    {
      KeptAreThoseThatYield(pool.history, f, 0, i);
      DroppedForAReason(pool, i, reference, target, chain, quote);
    }
  }

  /**
   * The two-hop series is an as-of join: its points come, in order, from
   * increasing readings of the pool, each joined with the reference in force at
   * its own time; a reading with no price or no reference yet yields none.
   */
  lemma SeriesIsAnAsOfJoin(book: Book, target: string) returns (from: seq<nat>)
    requires book.RouteFor(target).Some? && book.RouteFor(target).value.Through?
    ensures var (pool, reference) := (book.RouteFor(target).value.pool, book.RouteFor(target).value.reference);
            IsAsOfJoin(book.Series(target), from, pool, reference, target, book.chain, book.quote)
  {
    var (pool, reference) := (book.RouteFor(target).value.pool, book.RouteFor(target).value.reference);
    var hops := HopsOf(reference.history, reference, book.chain, book.quote);
    var f := (r: Reading) => HoppedPoint(pool, r, target, book.chain, hops);
    from := Kept(pool.history, f, 0);
    JoinOf(pool, reference, target, book.chain, book.quote, f);
  }

  // ---- one pool's prices ----

  lemma QuotientsCompose(a: real, b: real)
    requires a > 0.0 && b > 0.0
    ensures a * (b / a) == b && (a / b) * (b / a) == 1.0
  {
    assert a * (b / a) == b;
    assert (a / b) * (b / a) == (a / b * b) / a;
  }

  /**
   * A pool's prices cannot be played against each other: going round through
   * the pool's own currency gives the direct price, and there and back gives
   * one. A price is given, and positive, exactly when both sides have one.
   */
  lemma PricesAgreeWithinAPool(pool: Pool, a: string, b: string)
    requires a != pool.id && b != pool.id
    ensures pool.Price(a, b).Some? <==> pool.Price(pool.id, a).Some? && pool.Price(pool.id, b).Some?
    ensures pool.Price(a, b).Some? ==>
              && pool.Price(a, b).value > 0.0
              && pool.Price(pool.id, a).value * pool.Price(a, b).value == pool.Price(pool.id, b).value
              && pool.Price(b, a).Some? && pool.Price(b, a).value * pool.Price(a, b).value == 1.0
  {
    if pool.Price(a, b).Some? {
      QuotientsCompose(pool.ReserveOf(a).value.priceInReserve, pool.ReserveOf(b).value.priceInReserve);
    }
  }

  /** And so it was at every past reading. */
  lemma PastPricesAgreeWithinAPool(pool: Pool, r: Reading, a: string, b: string)
    requires a != pool.id && b != pool.id
    ensures pool.PriceAt(r, a, b).Some? <==> pool.PriceAt(r, pool.id, a).Some? && pool.PriceAt(r, pool.id, b).Some?
    ensures pool.PriceAt(r, a, b).Some? ==>
              && pool.PriceAt(r, a, b).value > 0.0
              && pool.PriceAt(r, pool.id, a).value * pool.PriceAt(r, a, b).value == pool.PriceAt(r, pool.id, b).value
              && pool.PriceAt(r, b, a).Some? && pool.PriceAt(r, b, a).value * pool.PriceAt(r, a, b).value == 1.0
  {
    if pool.PriceAt(r, a, b).Some? {
      QuotientsCompose(r.prices[a], r.prices[b]);
    }
  }

  // ---- the change ----

  predicate TimeOrdered(series: seq<ChartPoint>) {
    forall i, j :: 0 <= i < j < |series| ==> series[i].t <= series[j].t
  }

  /** Reading `i` is the oldest at or after the cutoff. */
  predicate IsBaseline(series: seq<ChartPoint>, cutoff: int, i: nat) {
    && i < |series| && series[i].t >= cutoff
    && forall j :: 0 <= j < |series| && series[j].t >= cutoff ==> series[i].t <= series[j].t && i <= j
  }

  predicate InTime(readings: seq<Reading>) {
    forall i, j :: 0 <= i < j < |readings| ==> readings[i].blockTime <= readings[j].blockTime
  }

  lemma KeptInTime(readings: seq<Reading>, f: Reading -> Option<ChartPoint>)
    requires InTime(readings)
    requires forall r :: f(r).Some? ==> f(r).value.t == r.blockTime
    ensures TimeOrdered(FilterMap(readings, f))
  {
    KeptClimb(readings, f, 0);
    KeptAsMany(readings, f, 0);
    var series := FilterMap(readings, f);
    forall i, j | 0 <= i < j < |series|
      ensures series[i].t <= series[j].t
    {
      KeptYield(readings, f, 0, i);
      KeptYield(readings, f, 0, j);
    }
  }

  /** A series is in time order whenever its pool's readings are; the reference's order does not matter. */
  lemma SeriesKeepsTheReadingsOrder(book: Book, target: string)
    requires book.RouteFor(target).Some? ==> InTime(book.RouteFor(target).value.pool.history)
    ensures TimeOrdered(book.Series(target))
  {
    match book.RouteFor(target)
    case None =>
    case Some(Direct(pool)) =>
      KeptInTime(pool.history, (r: Reading) => DirectPoint(pool, r, target, book.quote));
    case Some(Through(pool, reference)) =>
      var hops := HopsOf(reference.history, reference, book.chain, book.quote);
      KeptInTime(pool.history, (r: Reading) => HoppedPoint(pool, r, target, book.chain, hops));
  }

  /**
   * The baseline and the newest reading are apart, the baseline is not nothing, and
   * the change takes the one to the other.
   */
  predicate IsChange(series: seq<ChartPoint>, i: nat, change: real) {
    && i < |series| && series[i].sats > 0 && series[i].t < series[|series| - 1].t
    && series[i].sats as real * (1.0 + change) == series[|series| - 1].sats as real
  }

  lemma GrowthIs(was: int, now: int, change: real)
    requires was > 0
    ensures change == (now - was) as real / was as real <==> was as real * (1.0 + change) == now as real
  {
    var exact := (now - was) as real / was as real;
    assert was as real * exact == (now - was) as real;
    assert was as real * (1.0 + change) == was as real + was as real * change;
    if was as real * change == was as real * exact {
      assert was as real * (change - exact) == 0.0;
    }
  }

  lemma BaselineIsTheFirst(series: seq<ChartPoint>, cutoff: int, i: nat)
    requires TimeOrdered(series)
    ensures IsBaseline(series, cutoff, i) <==> i == FirstAtOrAfter(series, cutoff) && i < |series|
  {
    var first := FirstAtOrAfter(series, cutoff);
    assert IsBaseline(series, cutoff, i) && first < |series| ==> i <= first;
  }

  /**
   * The change compares the newest reading with the oldest inside the window.
   * There is one exactly when the window's start is a time at all, the two
   * readings are apart and the older is not nothing; it is then the growth
   * from the one to the other.
   */
  lemma ChangeComparesTheWindowsEnds(series: seq<ChartPoint>, now: int, seconds: int, change: real)
    requires TimeOrdered(series)
    ensures ChangeSince(series, now, seconds) == Some(change) <==>
              && FitsI64(now - seconds)
              && exists i: nat :: IsBaseline(series, now - seconds, i) && IsChange(series, i, change)
  {
    var i := FirstAtOrAfter(series, now - seconds);
    BaselineIsTheFirst(series, now - seconds, i);
    ChangeFromTheFirst(series, now, seconds, change);
    if k: nat :| IsBaseline(series, now - seconds, k) && IsChange(series, k, change) {
      BaselineIsTheFirst(series, now - seconds, k);
    }
  }

  lemma ChangeFromTheFirst(series: seq<ChartPoint>, now: int, seconds: int, change: real)
    requires TimeOrdered(series)
    ensures var i := FirstAtOrAfter(series, now - seconds);
            ChangeSince(series, now, seconds) == Some(change) <==>
            FitsI64(now - seconds) && i < |series| && IsChange(series, i, change)
  {
    var i := FirstAtOrAfter(series, now - seconds);
    if i < |series| && series[i].sats > 0 {
      GrowthIs(series[i].sats, series[|series| - 1].sats, change);
      assert i == |series| - 1 || series[i].t <= series[|series| - 1].t;
    }
  }
}
