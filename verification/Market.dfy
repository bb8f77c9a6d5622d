/**
 * Prices over time, derived from reserve state: the series of
 * `pecu-core/src/market.rs`. A price is a real; how deep a pool is, which only
 * ranks pools, is a parameter of the book.
 */
module Market {
  import opened Wrappers

  datatype Reserve = Reserve(id: string, priceInReserve: real, held: real)

  datatype Reading = Reading(blockTime: int, prices: map<string, real>)

  datatype Pool = Pool(id: string, name: string, started: bool, refunded: bool, supply: real,
                       reserves: seq<Reserve>, history: seq<Reading>) {

    function ReserveOf(currency: string): Option<Reserve> {
      FindReserve(reserves, currency)
    }

    predicate Trades(currency: string) {
      id == currency || ReserveOf(currency).Some?
    }

    predicate IsVenue() {
      started && !refunded && supply > 0.0
    }

    predicate Holds(currency: string) {
      if id == currency then supply > 0.0
      else ReserveOf(currency).Some? && ReserveOf(currency).value.held > 0.0
    }

    /** What one `target` is worth in `quote`, now. */
    function Price(target: string, quote: string): Option<real> {
      match ReserveOf(quote)
      case None => None
      case Some(q) =>
        if q.priceInReserve <= 0.0 then None
        else if target == id then Some(q.priceInReserve)
        else match ReserveOf(target)
          case None => None
          case Some(t) => if t.priceInReserve <= 0.0 then None else Some(q.priceInReserve / t.priceInReserve)
    }

    /** The same, at one past reading. */
    function PriceAt(reading: Reading, target: string, quote: string): Option<real> {
      if quote !in reading.prices || reading.prices[quote] <= 0.0 then None
      else if target == id then Some(reading.prices[quote])
      else if target !in reading.prices || reading.prices[target] <= 0.0 then None
      else Some(reading.prices[quote] / reading.prices[target])
    }
  }

  function FindReserve(reserves: seq<Reserve>, currency: string): Option<Reserve> {
    if reserves == [] then None
    else if reserves[0].id == currency then Some(reserves[0])
    else FindReserve(reserves[1..], currency)
  }

  datatype ChartPoint = ChartPoint(t: int, sats: int)

  const I64_MAX: int := 0x7fff_ffff_ffff_ffff
  const SATS_PER_COIN: int := 100_000_000

  /** Satoshis per whole unit, or nothing for a price that will not fit; the ceiling is i64's largest as a double. */
  function SatsOf(price: real): Option<int> {
    if price < 0.0 then None
    else
      var sats := (price * 100_000_000.0 + 0.5).Floor;
      if sats > I64_MAX + 1 then None else if sats > I64_MAX then Some(I64_MAX) else Some(sats)
  }

  // ---- the ordered map of hops ----

  /** A `BTreeMap`: entries in increasing order of key. */
  type Hops = seq<(int, real)>

  predicate Increasing(hops: Hops) {
    forall i, j :: 0 <= i < j < |hops| ==> hops[i].0 < hops[j].0
  }

  /** A later value for a key replaces the earlier one. */
  function Put(hops: Hops, key: int, value: real): Hops {
    if hops == [] || key < hops[0].0 then [(key, value)] + hops
    else if key == hops[0].0 then [(key, value)] + hops[1..]
    else [hops[0]] + Put(hops[1..], key, value)
  }

  /** `range(..=t).next_back()`: the entry with the greatest key not above `t`. */
  function AtOrBefore(hops: Hops, t: int): Option<(int, real)> {
    if hops == [] then None
    else if hops[|hops| - 1].0 <= t then Some(hops[|hops| - 1])
    else AtOrBefore(hops[..|hops| - 1], t)
  }

  /** Collecting the usable reference readings, in the order they were published. */
  function HopsOf(readings: seq<Reading>, reference: Pool, chain: string, quote: string): Hops {
    if readings == [] then []
    else
      var last := readings[|readings| - 1];
      var before := HopsOf(readings[..|readings| - 1], reference, chain, quote);
      match reference.PriceAt(last, chain, quote)
      case None => before
      case Some(price) => Put(before, last.blockTime, price)
  }

  // ---- the series ----

  function PointAt(t: int, price: real): Option<ChartPoint> {
    match SatsOf(price)
    case None => None
    case Some(sats) => Some(ChartPoint(t, sats))
  }

  /** A price in the chain currency carried into the quote currency. */
  function Across(priced: real, hop: real): real {
    priced * hop
  }

  /** The point a reading of the pool yields, priced directly. */
  function DirectPoint(pool: Pool, reading: Reading, target: string, quote: string): Option<ChartPoint> {
    match pool.PriceAt(reading, target, quote)
    case None => None
    case Some(price) => PointAt(reading.blockTime, price)
  }

  /** The point it yields through the hop in force at its own time. */
  function HoppedPoint(pool: Pool, reading: Reading, target: string, chain: string, hops: Hops): Option<ChartPoint> {
    match pool.PriceAt(reading, target, chain)
    case None => None
    case Some(priced) =>
      match AtOrBefore(hops, reading.blockTime)
      case None => None
      case Some((_, hop)) => PointAt(reading.blockTime, Across(priced, hop))
  }

  /** `iter().filter_map(f).collect()`. */
  function FilterMap(readings: seq<Reading>, f: Reading -> Option<ChartPoint>): seq<ChartPoint> {
    if readings == [] then []
    else (if f(readings[0]).Some? then [f(readings[0]).value] else []) + FilterMap(readings[1..], f)
  }

  datatype Route = Direct(pool: Pool) | Through(pool: Pool, reference: Pool)

  /** `order` ranks the pools that could price a currency; `deepest` is the pool the reference hop is taken from. */
  datatype Book = Book(pools: seq<Pool>, quote: string, chain: string,
                       order: (string, seq<Pool>) -> seq<Pool>, deepest: seq<Pool> -> Option<Pool>) {

    /** Ranking loses and invents no pool, and the deepest of some pools is one of them. */
    ghost predicate Ranks() {
      && (forall target, ps :: multiset(order(target, ps)) == multiset(ps))
      && (forall ps :: ps != [] ==> deepest(ps).Some?)
      && (forall ps :: deepest(ps).Some? ==> deepest(ps).value in ps)
    }

    function PoolsFor(target: string): seq<Pool> {
      order(target, Venues(pools, target))
    }

    function Reference(): Option<(Pool, real)> {
      match deepest(References(pools, chain, quote))
      case None => None
      case Some(pool) => if pool.Price(chain, quote).None? then None else Some((pool, pool.Price(chain, quote).value))
    }

    function RouteFor(target: string): Option<Route> {
      match FirstTrading(PoolsFor(target), quote, None)
      case Some(pool) => Some(Direct(pool))
      case None =>
        match Reference()
        case None => None
        case Some((reference, _)) =>
          match FirstTrading(PoolsFor(target), chain, Some(reference.id))
          case None => None
          case Some(pool) => Some(Through(pool, reference))
    }

    /** The pools a price is reached through, with the price; of itself the quote currency is worth one. */
    function QuoteFor(target: string): Option<(real, seq<Pool>)> {
      if target == quote then Some((1.0, PoolsFor(target)[..if PoolsFor(target) == [] then 0 else 1]))
      else PricedFor(target)
    }

    /** The price of any other currency: direct, or one hop away. */
    function PricedFor(target: string): Option<(real, seq<Pool>)> {
      var direct := FirstTrading(PoolsFor(target), quote, None);
      if direct.Some? && direct.value.Price(target, quote).Some? then
        Some((direct.value.Price(target, quote).value, [direct.value]))
      else match Reference()
        case None => None
        case Some((reference, hop)) =>
          match FirstTrading(PoolsFor(target), chain, Some(reference.id))
          case None => None
          case Some(pool) =>
            if pool.Price(target, chain).None? then None
            else Some((Across(pool.Price(target, chain).value, hop), [pool, reference]))
    }

    function Series(target: string): seq<ChartPoint> {
      match RouteFor(target)
      case None => []
      case Some(Direct(pool)) => FilterMap(pool.history, (r: Reading) => DirectPoint(pool, r, target, quote))
      case Some(Through(pool, reference)) =>
        var hops := HopsOf(reference.history, reference, chain, quote);
        FilterMap(pool.history, (r: Reading) => HoppedPoint(pool, r, target, chain, hops))
    }
  }

  function Venues(pools: seq<Pool>, target: string): seq<Pool> {
    if pools == [] then []
    else (if pools[0].IsVenue() && pools[0].Holds(target) then [pools[0]] else []) + Venues(pools[1..], target)
  }

  function References(pools: seq<Pool>, chain: string, quote: string): seq<Pool> {
    if pools == [] then []
    else (if pools[0].started && pools[0].Trades(chain) && pools[0].Trades(quote) && pools[0].Price(chain, quote).Some?
          then [pools[0]] else []) + References(pools[1..], chain, quote)
  }

  /** The first pool trading `currency` that is not the pool `but`. */
  function FirstTrading(pools: seq<Pool>, currency: string, but: Option<string>): Option<Pool> {
    if pools == [] then None
    else if pools[0].Trades(currency) && but != Some(pools[0].id) then Some(pools[0])
    else FirstTrading(pools[1..], currency, but)
  }

  predicate FitsI64(n: int) {
    -I64_MAX - 1 <= n <= I64_MAX
  }

  /** The growth from the oldest price of the last `seconds` to the newest. */
  function ChangeSince(series: seq<ChartPoint>, now: int, seconds: int): Option<real> {
    if !FitsI64(now - seconds) || series == [] then None
    else
      var i := FirstAtOrAfter(series, now - seconds);
      if i == |series| then None
      else
        var (earliest, latest) := (series[i], series[|series| - 1]);
        if earliest.t == latest.t || earliest.sats <= 0 then None
        else Some((latest.sats - earliest.sats) as real / earliest.sats as real)
  }

  function FirstAtOrAfter(series: seq<ChartPoint>, cutoff: int): (i: nat)
    ensures i <= |series|
    ensures i < |series| ==> series[i].t >= cutoff
    ensures forall j :: 0 <= j < i ==> series[j].t < cutoff
  {
    if series == [] || series[0].t >= cutoff then 0 else 1 + FirstAtOrAfter(series[1..], cutoff)
  }
}
