/**
 * What a price is, read off the published reserves: of a pool now, at a past
 * reading, of a figure, of a point on a chart, and of a holding.
 */
module MarketPrices {
  import opened Wrappers
  import opened Market
  import opened MarketTheorems
  import opened MarketRoutes
  import opened Valuation

  // ---- in one pool ----

  /** Reserve `k` is the first listed for a currency. */
  predicate ListedFirst(reserves: seq<Reserve>, currency: string, k: nat) {
    k < |reserves| && reserves[k].id == currency && forall j :: 0 <= j < k ==> reserves[j].id != currency
  }

  /** The pool publishes `units` of the currency for one of its own. */
  ghost predicate Publishes(pool: Pool, currency: string, units: real) {
    exists k: nat :: ListedFirst(pool.reserves, currency, k) && pool.reserves[k].priceInReserve == units
  }

  lemma {:induction false} FoundIsListedFirst(reserves: seq<Reserve>, currency: string) returns (k: nat)
    ensures FindReserve(reserves, currency).Some? ==>
              ListedFirst(reserves, currency, k) && FindReserve(reserves, currency) == Some(reserves[k])
    ensures FindReserve(reserves, currency).None? ==> forall j :: 0 <= j < |reserves| ==> reserves[j].id != currency
  {
    k := 0;
    if reserves != [] && reserves[0].id != currency {
      k := FoundIsListedFirst(reserves[1..], currency);
      k := k + 1;
      assert forall j :: 1 <= j < |reserves| ==> reserves[j] == reserves[1..][j - 1];
    }
  }

  lemma PublishedIsFound(pool: Pool, currency: string, units: real)
    ensures Publishes(pool, currency, units) <==>
              pool.ReserveOf(currency).Some? && pool.ReserveOf(currency).value.priceInReserve == units
  {
    var k := FoundIsListedFirst(pool.reserves, currency);
    if j: nat :| ListedFirst(pool.reserves, currency, j) && pool.reserves[j].priceInReserve == units {
      assert pool.ReserveOf(currency).Some?;
      assert j == k;
    }
  }

  /**
   * One of `target` is worth `price` of `quote`: what the pool gives for its
   * own unit in the two currencies, the one against the other.
   */
  ghost predicate IsPrice(pool: Pool, target: string, quote: string, price: real) {
    if target == pool.id then price > 0.0 && Publishes(pool, quote, price)
    else exists q: real, t: real ::
      Publishes(pool, quote, q) && Publishes(pool, target, t) && q > 0.0 && t > 0.0 && price * t == q
  }

  lemma RatioIs(q: real, t: real, price: real)
    requires t > 0.0
    ensures price == q / t <==> price * t == q
  {
    assert q / t * t == q;
    if price * t == q {
      assert (price - q / t) * t == 0.0;
    }
  }

  /** A pool's price is that ratio, and there is one exactly when both currencies are published as worth something. */
  lemma PriceIsTheReservesRatio(pool: Pool, target: string, quote: string, price: real)
    ensures pool.Price(target, quote) == Some(price) <==> IsPrice(pool, target, quote, price)
  {
    var (q, t) := (pool.ReserveOf(quote), pool.ReserveOf(target));
    forall units
      ensures Publishes(pool, quote, units) <==> q.Some? && q.value.priceInReserve == units
      ensures Publishes(pool, target, units) <==> t.Some? && t.value.priceInReserve == units
    {
      PublishedIsFound(pool, quote, units);
      PublishedIsFound(pool, target, units);
    }
    if target != pool.id && q.Some? && t.Some? && t.value.priceInReserve > 0.0 {
      var (had, asked) := (q.value.priceInReserve, t.value.priceInReserve);
      RatioIs(had, asked, price);
      assert Publishes(pool, quote, had) && Publishes(pool, target, asked);
    }
  }

  /** The same at a past reading, off the prices it recorded. */
  predicate WasPrice(pool: Pool, reading: Reading, target: string, quote: string, price: real) {
    && quote in reading.prices && reading.prices[quote] > 0.0
    && if target == pool.id then price == reading.prices[quote]
       else target in reading.prices && reading.prices[target] > 0.0
            && price * reading.prices[target] == reading.prices[quote]
  }

  lemma PastPriceIsTheReadingsRatio(pool: Pool, reading: Reading, target: string, quote: string, price: real)
    ensures pool.PriceAt(reading, target, quote) == Some(price) <==> WasPrice(pool, reading, target, quote, price)
  {
    if quote in reading.prices && target in reading.prices && reading.prices[target] > 0.0 {
      RatioIs(reading.prices[quote], reading.prices[target], price);
    }
  }

  // ---- the figure ----

  /** A price through some pools: one pool's own, or one in the chain's currency times the reference's price of that. */
  ghost predicate IsFigure(book: Book, target: string, price: real, pools: seq<Pool>) {
    || (|pools| == 1 && IsPrice(pools[0], target, book.quote, price))
    || (|pools| == 2 && exists a: real, b: real ::
          IsPrice(pools[0], target, book.chain, a) && IsPrice(pools[1], book.chain, book.quote, b) && price == a * b)
  }

  /** Pool `k` is the first listed that trades a currency and is not `but`. */
  predicate TradesFirst(pools: seq<Pool>, currency: string, but: Option<string>, k: nat) {
    && k < |pools| && DealsIn(pools[k], currency) && but != Some(pools[k].id)
    && forall j :: 0 <= j < k ==> !(DealsIn(pools[j], currency) && but != Some(pools[j].id))
  }

  /** The currency is the pool's own, or one of its reserves. */
  predicate DealsIn(pool: Pool, currency: string) {
    pool.id == currency || exists k :: 0 <= k < |pool.reserves| && pool.reserves[k].id == currency
  }

  lemma TradesIsDealing(pool: Pool, currency: string)
    ensures pool.Trades(currency) <==> DealsIn(pool, currency)
  {
    var k := FoundIsListedFirst(pool.reserves, currency);
    if k < |pool.reserves| && pool.reserves[k].id == currency {
      assert DealsIn(pool, currency);
    }
  }

  lemma {:induction false} FirstTradingIsFirst(pools: seq<Pool>, currency: string, but: Option<string>) returns (k: nat)
    ensures FirstTrading(pools, currency, but).Some? ==>
              TradesFirst(pools, currency, but, k) && FirstTrading(pools, currency, but) == Some(pools[k])
    ensures FirstTrading(pools, currency, but).None? ==>
              forall j :: 0 <= j < |pools| ==> !(DealsIn(pools[j], currency) && but != Some(pools[j].id))
  {
    k := 0;
    if pools != [] {
      TradesIsDealing(pools[0], currency);
      if !(pools[0].Trades(currency) && but != Some(pools[0].id)) {
        k := FirstTradingIsFirst(pools[1..], currency, but);
        k := k + 1;
        assert forall j :: 1 <= j < |pools| ==> pools[j] == pools[1..][j - 1];
      }
    }
  }

  /** A figure is the ratio the reserves publish: one pool's, or one pool's times the reference's. */
  lemma FigureIsTheReservesRatio(book: Book, target: string)
    requires target != book.quote && book.QuoteFor(target).Some?
    ensures var (price, pools) := (book.QuoteFor(target).value.0, book.QuoteFor(target).value.1);
            IsFigure(book, target, price, pools)
  {
    var (price, pools) := (book.QuoteFor(target).value.0, book.QuoteFor(target).value.1);
    if |pools| == 1 {
      PriceIsTheReservesRatio(pools[0], target, book.quote, price);
    } else {
      var (a, b) := (pools[0].Price(target, book.chain).value, pools[1].Price(book.chain, book.quote).value);
      PriceIsTheReservesRatio(pools[0], target, book.chain, a);
      PriceIsTheReservesRatio(pools[1], book.chain, book.quote, b);
      assert price == Across(a, b);
    }
  }

  /** The first listed pool for the quote if it has a price, else the first for the chain that is not the reference. */
  ghost predicate ComesThrough(book: Book, target: string, pools: seq<Pool>) {
    var listed := book.PoolsFor(target);
    || (|pools| == 1 && exists k: nat :: TradesFirst(listed, book.quote, None, k) && pools[0] == listed[k])
    || (|pools| == 2
        && (exists k: nat :: TradesFirst(listed, book.chain, Some(pools[1].id), k) && pools[0] == listed[k])
        && forall k: nat, price :: TradesFirst(listed, book.quote, None, k) ==>
             !IsPrice(listed[k], target, book.quote, price))
  }

  lemma FigureComesThrough(book: Book, target: string)
    requires target != book.quote && book.QuoteFor(target).Some?
    ensures ComesThrough(book, target, book.QuoteFor(target).value.1)
  {
    var (pools, listed) := (book.QuoteFor(target).value.1, book.PoolsFor(target));
    var direct := FirstTradingIsFirst(listed, book.quote, None);
    if |pools| == 2 {
      var hop := FirstTradingIsFirst(listed, book.chain, Some(pools[1].id));
      assert TradesFirst(listed, book.chain, Some(pools[1].id), hop);
      forall k: nat, price | TradesFirst(listed, book.quote, None, k)
        ensures !IsPrice(listed[k], target, book.quote, price)
      {
        assert k == direct;
        PriceIsTheReservesRatio(listed[k], target, book.quote, price);
      }
    }
  }

  /** A chart is drawn from the first listed pool for the quote, or else, through the reference, for the chain. */
  lemma ChartComesThrough(book: Book, target: string)
    ensures var (route, listed) := (book.RouteFor(target), book.PoolsFor(target));
            match route
            case Some(Direct(pool)) =>
              exists k: nat :: TradesFirst(listed, book.quote, None, k) && pool == listed[k]
            case Some(Through(pool, reference)) =>
              && (forall j :: 0 <= j < |listed| ==> !DealsIn(listed[j], book.quote))
              && book.Reference().Some? && reference == book.Reference().value.0
              && exists k: nat :: TradesFirst(listed, book.chain, Some(reference.id), k) && pool == listed[k]
            case None =>
              && (forall j :: 0 <= j < |listed| ==> !DealsIn(listed[j], book.quote))
              && (book.Reference().Some? ==> forall j :: 0 <= j < |listed| ==>
                    !(DealsIn(listed[j], book.chain) && book.Reference().value.0.id != listed[j].id))
  {
    var listed := book.PoolsFor(target);
    var direct := FirstTradingIsFirst(listed, book.quote, None);
    if book.Reference().Some? {
      var hop := FirstTradingIsFirst(listed, book.chain, Some(book.Reference().value.0.id));
    }
  }

  // ---- which pools may price anything ----

  /** Begun, not given back, with something issued; and holding some of the currency, or being it. */
  ghost predicate MayPrice(pool: Pool, target: string) {
    && pool.started && !pool.refunded && pool.supply > 0.0
    && (pool.id == target || exists k: nat :: ListedFirst(pool.reserves, target, k) && pool.reserves[k].held > 0.0)
  }

  /** Exactly those pools are ranked for a currency. */
  lemma ListedAreThoseThatMayPrice(book: Book, target: string, pool: Pool)
    requires book.Ranks()
    ensures pool in book.PoolsFor(target) <==> pool in book.pools && MayPrice(pool, target)
  {
    var (venues, listed) := (Venues(book.pools, target), book.PoolsFor(target));
    VenuesAre(book.pools, target);
    assert multiset(book.order(target, venues)) == multiset(venues);
    assert pool in listed <==> pool in multiset(listed);
    assert pool in venues <==> pool in multiset(venues);
    if pool.supply > 0.0 {
      HoldsIsHolding(pool, target);
    }
  }

  lemma HoldsIsHolding(pool: Pool, target: string)
    requires pool.supply > 0.0
    ensures pool.Holds(target) <==>
              pool.id == target || exists k: nat :: ListedFirst(pool.reserves, target, k) && pool.reserves[k].held > 0.0
  {
    var k := FoundIsListedFirst(pool.reserves, target);
    if j: nat :| ListedFirst(pool.reserves, target, j) && pool.reserves[j].held > 0.0 {
      assert pool.ReserveOf(target).Some? && j == k;
    }
  }

  lemma PricedIsTraded(pool: Pool, target: string, quote: string)
    requires pool.Price(target, quote).Some?
    ensures pool.Trades(target) && pool.Trades(quote)
  {}

  /** A reference is a begun pool that prices the chain's currency; there is one exactly when there is such a pool. */
  lemma ReferenceExactlyWhen(book: Book)
    requires book.Ranks()
    ensures book.Reference().Some? ==>
              var (pool, price) := book.Reference().value;
              pool in book.pools && pool.started && IsPrice(pool, book.chain, book.quote, price)
    ensures book.Reference().None? ==> forall pool, price ::
              pool in book.pools && pool.started ==> !IsPrice(pool, book.chain, book.quote, price)
  {
    var references := References(book.pools, book.chain, book.quote);
    ReferencesAre(book.pools, book.chain, book.quote);
    if book.Reference().Some? {
      var (pool, price) := book.Reference().value;
      PriceIsTheReservesRatio(pool, book.chain, book.quote, price);
    } else {
      forall pool, price | pool in book.pools && pool.started
        ensures !IsPrice(pool, book.chain, book.quote, price)
      {
        PriceIsTheReservesRatio(pool, book.chain, book.quote, price);
        if pool.Price(book.chain, book.quote).Some? {
          PricedIsTraded(pool, book.chain, book.quote);
        }
      }
    }
  }

  // ---- in satoshis ----

  /** The nearest satoshi to a price, halves going up, or the last that fits. */
  predicate InSats(price: real, sats: int) {
    && price >= 0.0
    && (sats as real - 0.5 <= price * 100_000_000.0 < sats as real + 0.5
        || (sats == I64_MAX && I64_MAX as real + 0.5 <= price * 100_000_000.0 < I64_MAX as real + 1.5))
    && sats <= I64_MAX
  }

  /** A price that is not negative comes to its nearest satoshi, and to nothing exactly when that passes the ceiling. */
  lemma SatsAreTheNearest(price: real, sats: int)
    ensures SatsOf(price) == Some(sats) <==> InSats(price, sats)
    ensures SatsOf(price).None? <==> price < 0.0 || price * 100_000_000.0 >= I64_MAX as real + 1.5
  {}

  /** A holding through one pool is worth its share of what that pool's reserves give, to the rounding. */
  lemma HoldingIsWorthTheReservesRatio(book: Book, target: string, held: U64, price: real)
    requires target != book.quote && ValueOf(book, target, held).Some?
    requires IsFigure(book, target, price, book.QuoteFor(target).value.1)
    ensures var v := ValueOf(book, target, held).value;
            Within((v * SATS_PER_COIN) as real, Exact(held, price), ValueRoom(held, price))
  {
    FigureIsTheReservesRatio(book, target);
    FigureIsUnique(book, target, price, book.QuoteFor(target).value.0, book.QuoteFor(target).value.1);
    ValueAgainstTheTruePrice(book, target, held);
  }

  lemma PriceIsUnique(pool: Pool, target: string, quote: string, a: real, b: real)
    requires IsPrice(pool, target, quote, a) && IsPrice(pool, target, quote, b)
    ensures a == b
  {
    PriceIsTheReservesRatio(pool, target, quote, a);
    PriceIsTheReservesRatio(pool, target, quote, b);
  }

  lemma FigureIsUnique(book: Book, target: string, x: real, y: real, pools: seq<Pool>)
    requires IsFigure(book, target, x, pools) && IsFigure(book, target, y, pools)
    ensures x == y
  {
    if |pools| == 1 {
      PriceIsUnique(pools[0], target, book.quote, x, y);
    } else {
      var a: real, b: real :|
        IsPrice(pools[0], target, book.chain, a) && IsPrice(pools[1], book.chain, book.quote, b) && x == a * b;
      var c: real, d: real :|
        IsPrice(pools[0], target, book.chain, c) && IsPrice(pools[1], book.chain, book.quote, d) && y == c * d;
      PriceIsUnique(pools[0], target, book.chain, a, c);
      PriceIsUnique(pools[1], book.chain, book.quote, b, d);
    }
  }

  // ---- on the chart ----

  /** A point of a direct series: its reading's time, and the ratio then, in satoshis. */
  ghost predicate IsDirectPoint(p: ChartPoint, pool: Pool, reading: Reading, target: string, quote: string) {
    && p.t == reading.blockTime
    && exists price: real :: WasPrice(pool, reading, target, quote, price) && InSats(price, p.sats)
  }

  lemma DirectPointIs(pool: Pool, reading: Reading, target: string, quote: string)
    ensures var p := DirectPoint(pool, reading, target, quote);
            && (p.Some? ==> IsDirectPoint(p.value, pool, reading, target, quote))
            && (p.None? ==>
                  forall price, sats :: WasPrice(pool, reading, target, quote, price) ==> !InSats(price, sats))
  {
    var (p, then_) := (DirectPoint(pool, reading, target, quote), pool.PriceAt(reading, target, quote));
    if p.Some? {
      PastPriceIsTheReadingsRatio(pool, reading, target, quote, then_.value);
      SatsAreTheNearest(then_.value, p.value.sats);
    } else {
      forall price, sats | WasPrice(pool, reading, target, quote, price)
        ensures !InSats(price, sats)
      {
        PastPriceIsTheReadingsRatio(pool, reading, target, quote, price);
        SatsAreTheNearest(price, sats);
      }
    }
  }

  /** A direct series is a point for each reading with a price that fits, in order, each what the reserves then gave. */
  lemma DirectSeriesIsTheReadings(book: Book, target: string) returns (from: seq<nat>)
    requires book.RouteFor(target).Some? && book.RouteFor(target).value.Direct?
    ensures var (pool, series) := (book.RouteFor(target).value.pool, book.Series(target));
            && |from| == |series| && Climbs(from)
            && (forall j :: 0 <= j < |from| ==>
                  from[j] < |pool.history| && IsDirectPoint(series[j], pool, pool.history[from[j]], target, book.quote))
            && (forall i: nat, price, sats ::
                  i < |pool.history| && !Lists(from, i) && WasPrice(pool, pool.history[i], target, book.quote, price)
                  ==> !InSats(price, sats))
  {
    var pool := book.RouteFor(target).value.pool;
    var f := (r: Reading) => DirectPoint(pool, r, target, book.quote);
    from := Kept(pool.history, f, 0);
    KeptClimb(pool.history, f, 0);
    KeptAsMany(pool.history, f, 0);
    forall j | 0 <= j < |from|
      ensures from[j] < |pool.history|
      ensures IsDirectPoint(book.Series(target)[j], pool, pool.history[from[j]], target, book.quote)
    {
      KeptYield(pool.history, f, 0, j);
      DirectPointIs(pool, pool.history[from[j]], target, book.quote);
    }
    forall i: nat, price, sats |
      i < |pool.history| && !Lists(from, i) && WasPrice(pool, pool.history[i], target, book.quote, price)
      ensures !InSats(price, sats)
    {
      KeptAreThoseThatYield(pool.history, f, 0, i);
      DirectPointIs(pool, pool.history[i], target, book.quote);
    }
  }

  /**
   * And a point of a two-hop series is the two ratios multiplied: what the pool
   * gave at its own reading, and what the reference gave at the reading in
   * force then.
   */
  lemma HoppedPointIsBothRatios(p: ChartPoint, pool: Pool, i: nat, reference: Pool, target: string, chain: string,
                                quote: string)
    requires IsAsOfPoint(p, pool, i, reference, target, chain, quote)
    ensures exists h: nat, a: real, b: real ::
              && IsLatest(reference.history, h, p.t, reference, chain, quote)
              && WasPrice(pool, pool.history[i], target, chain, a)
              && WasPrice(reference, reference.history[h], chain, quote, b)
              && InSats(a * b, p.sats)
  {
    var a := pool.PriceAt(pool.history[i], target, chain).value;
    var h: nat :| IsLatest(reference.history, h, p.t, reference, chain, quote)
                  && IsWorth(p, a, reference.PriceAt(reference.history[h], chain, quote).value);
    var b := reference.PriceAt(reference.history[h], chain, quote).value;
    PastPriceIsTheReadingsRatio(pool, pool.history[i], target, chain, a);
    PastPriceIsTheReadingsRatio(reference, reference.history[h], chain, quote, b);
    WorthIsTheProduct(p, a, b);
  }

  lemma WorthIsTheProduct(p: ChartPoint, a: real, b: real)
    requires IsWorth(p, a, b)
    ensures InSats(a * b, p.sats)
  {
    SatsAreTheNearest(a * b, p.sats);
  }
}
