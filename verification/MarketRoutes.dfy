/** Which pools a chart and the figure above it come through, and when the two part. */
module MarketRoutes {
  import opened Wrappers
  import opened Market

  // ---- the chart and the figure above it ----

  function RoutePools(r: Route): seq<Pool> {
    match r
    case Direct(pool) => [pool]
    case Through(pool, reference) => [pool, reference]
  }

  /** The pools a chart is drawn from. */
  function ChartPools(book: Book, target: string): seq<Pool> {
    match book.RouteFor(target)
    case None => []
    case Some(route) => RoutePools(route)
  }

  /** The pools the figure above it comes through. */
  function FigurePools(book: Book, target: string): seq<Pool> {
    match book.QuoteFor(target)
    case None => []
    case Some((_, pools)) => pools
  }

  /** The charted pool can price the currency in what its route asks for. */
  predicate ChartedPoolPrices(book: Book, target: string, route: Route) {
    route.pool.Price(target, if route.Direct? then book.quote else book.chain).Some?
  }

  /** Every pool listed for the quote currency trades it, so chart and figure are both from the first. */
  lemma QuoteCurrencyIsChartedWhereListed(book: Book)
    requires book.Ranks()
    ensures ChartPools(book, book.quote) == FigurePools(book, book.quote)
  {
    var (pools, venues) := (book.PoolsFor(book.quote), Venues(book.pools, book.quote));
    VenuesAre(book.pools, book.quote);
    assert multiset(book.order(book.quote, venues)) == multiset(venues);
    if pools != [] {
      assert pools[0] in multiset(pools);
      assert pools[0] in venues && pools[0].Trades(book.quote);
      assert pools[..1] == [pools[0]];
    }
  }

  /**
   * The chart and the figure come through the same pools, or neither is there,
   * exactly when the currency is the quote itself or the charted pool has a
   * price now.
   */
  lemma ChartFollowsTheFigureExactlyWhen(book: Book, target: string)
    requires target == book.quote ==> book.Ranks()
    ensures ChartPools(book, target) == FigurePools(book, target) <==>
              || target == book.quote || book.RouteFor(target).None?
              || ChartedPoolPrices(book, target, book.RouteFor(target).value)
  {
    if target == book.quote {
      QuoteCurrencyIsChartedWhereListed(book);
    }
    var direct := FirstTrading(book.PoolsFor(target), book.quote, None);
    if target != book.quote && direct.Some? && direct.value.Price(target, book.quote).None? {
      assert |ChartPools(book, target)| == 1 && |FigurePools(book, target)| != 1;
    }
  }

  /** A started pool of one unit, holding two reserves. */
  function TwoReserves(id: string, a: string, aPrice: real, b: string, bPrice: real, refunded: bool): Pool {
    Pool(id, id, true, refunded, 1.0, [Reserve(a, aPrice, 1.0), Reserve(b, bPrice, 1.0)], [])
  }

  /** A book that ranks pools in the order they are listed. */
  function AsListed(pools: seq<Pool>): Book {
    Book(pools, "Q", "C", (target: string, ps: seq<Pool>) => ps,
         (ps: seq<Pool>) => if ps == [] then None else Some(ps[0]))
  }

  predicate Bridges(p: Pool) {
    p.started && p.Trades("C") && p.Trades("Q") && p.Price("C", "Q").Some?
  }

  lemma ListOfOne(p: Pool, target: string)
    ensures Venues([p], target) == (if p.IsVenue() && p.Holds(target) then [p] else [])
    ensures References([p], "C", "Q") == if Bridges(p) then [p] else []
  {}

  lemma ListOfMore(p: Pool, rest: seq<Pool>, target: string)
    ensures Venues([p] + rest, target) == (if p.IsVenue() && p.Holds(target) then [p] else []) + Venues(rest, target)
    ensures References([p] + rest, "C", "Q") ==
              (if Bridges(p) then [p] else []) + References(rest, "C", "Q")
  {
    assert ([p] + rest)[1..] == rest;
  }

  lemma ReservesFound(id: string, a: string, aPrice: real, b: string, bPrice: real, refunded: bool)
    requires a != b
    ensures var p := TwoReserves(id, a, aPrice, b, bPrice, refunded);
            && p.ReserveOf(a) == Some(Reserve(a, aPrice, 1.0)) && p.ReserveOf(b) == Some(Reserve(b, bPrice, 1.0))
            && forall c :: c != a && c != b ==> p.ReserveOf(c) == None
  {
    var (first, second) := (Reserve(a, aPrice, 1.0), Reserve(b, bPrice, 1.0));
    var reserves := TwoReserves(id, a, aPrice, b, bPrice, refunded).reserves;
    assert reserves == [first, second] && reserves[1..] == [second] && [second][1..] == [];
    forall c
      ensures FindReserve(reserves, c) == if a == c then Some(first) else if b == c then Some(second) else None
    {
      assert FindReserve([second], c) == if b == c then Some(second) else None by {
        assert FindReserve([second][1..], c) == None;
      }
    }
  }

  /** A pool for the quote currency with no price, one for the chain's currency, and the reference between the two. */
  function Unpriced(): Pool { TwoReserves("A", "T", 0.0, "Q", 1.0, false) }
  function Hop(): Pool { TwoReserves("B", "T", 1.0, "C", 1.0, false) }
  function Bridge(refunded: bool): Pool { TwoReserves("R", "C", 1.0, "Q", 1.0, refunded) }

  lemma ExamplePools(refunded: bool)
    ensures var (a, b, r) := (Unpriced(), Hop(), Bridge(refunded));
            && a.IsVenue() && a.Holds("T") && a.Trades("Q") && !a.Trades("C") && a.Price("T", "Q").None?
            && b.IsVenue() && b.Holds("T") && b.Trades("C") && !b.Trades("Q") && b.Price("T", "C").Some?
            && !r.Holds("T") && r.Trades("C") && r.Trades("Q") && r.Price("C", "Q").Some?
  {
    ReservesFound("A", "T", 0.0, "Q", 1.0, false);
    ReservesFound("B", "T", 1.0, "C", 1.0, false);
    ReservesFound("R", "C", 1.0, "Q", 1.0, refunded);
    assert "T"[0] != "Q"[0] && "T"[0] != "C"[0] && "C"[0] != "Q"[0];
    assert "A"[0] != "T"[0] && "A"[0] != "C"[0] && "B"[0] != "T"[0] && "B"[0] != "Q"[0];
    assert "R"[0] != "T"[0] && "R"[0] != "C"[0];
  }

  /** What each of the example books has for `T`, and what it has to bridge its chain with. */
  lemma ExampleLists(refunded: bool)
    ensures var (a, b, r) := (Unpriced(), Hop(), Bridge(refunded));
            && Venues([a], "T") == [a] && References([a], "C", "Q") == []
            && Venues([b, r], "T") == [b] && References([b, r], "C", "Q") == [r]
  {
    var (a, b, r) := (Unpriced(), Hop(), Bridge(refunded));
    ExamplePools(refunded);
    ListOfOne(a, "T");
    ListOfOne(r, "T");
    ListOfMore(b, [r], "T");
    assert [b] + [r] == [b, r];
  }

  lemma ThreeLists(a: Pool, b: Pool, r: Pool)
    requires a.IsVenue() && a.Holds("T") && !a.Trades("C")
    requires Venues([b, r], "T") == [b] && References([b, r], "C", "Q") == [r]
    ensures Venues([a, b, r], "T") == [a, b] && References([a, b, r], "C", "Q") == [r]
  {
    ListOfMore(a, [b, r], "T");
    assert [a] + [b, r] == [a, b, r];
  }

  lemma FirstOfTwo(p: Pool, q: Pool, currency: string, but: Option<string>)
    ensures FirstTrading([p], currency, but) == (if p.Trades(currency) && but != Some(p.id) then Some(p) else None)
    ensures FirstTrading([p, q], currency, but) ==
              if p.Trades(currency) && but != Some(p.id) then Some(p)
              else if q.Trades(currency) && but != Some(q.id) then Some(q) else None
  {
    assert [p, q][1..] == [q] && [q][1..] == [];
    assert FirstTrading([q], currency, but) == if q.Trades(currency) && but != Some(q.id) then Some(q) else None;
  }

  lemma BridgedBook(book: Book, venues: seq<Pool>, b: Pool, r: Pool)
    requires book.quote == "Q" && book.chain == "C" && book.PoolsFor("T") == venues && book.Reference().Some?
    requires book.Reference().value.0 == r && FirstTrading(venues, "C", Some(r.id)) == Some(b)
    requires b.Price("T", "C").Some? && "T" != "Q"
    ensures FirstTrading(venues, "Q", None).None? ==> book.RouteFor("T") == Some(Through(b, r))
    ensures var direct := FirstTrading(venues, "Q", None);
            (direct.Some? && direct.value.Price("T", "Q").None?) ==>
              (ChartPools(book, "T") == [direct.value] && FigurePools(book, "T") == [b, r])
  {}

  /** A chart drawn from one pool under a figure that came through two others. */
  lemma ChartAndFigureDisagree()
    ensures "T" != "Q"
    ensures var book := AsListed([Unpriced(), Hop(), Bridge(false)]);
            && book.Ranks()
            && ChartPools(book, "T") == [Unpriced()] && FigurePools(book, "T") == [Hop(), Bridge(false)]
  {
    assert "T"[0] != "Q"[0];
    var (a, b, r) := (Unpriced(), Hop(), Bridge(false));
    ExamplePools(false);
    ExampleLists(false);
    ThreeLists(a, b, r);
    FirstOfTwo(a, b, "Q", None);
    FirstOfTwo(a, b, "C", Some(r.id));
    BridgedBook(AsListed([a, b, r]), [a, b], b, r);
  }

  /** And a chart under no figure at all. */
  lemma ChartWithoutAFigure()
    ensures "T" != "Q"
    ensures var book := AsListed([Unpriced()]);
            book.Ranks() && ChartPools(book, "T") == [Unpriced()] && FigurePools(book, "T") == []
  {
    assert "T"[0] != "Q"[0];
    ExamplePools(false);
    ExampleLists(false);
    FirstOfTwo(Unpriced(), Unpriced(), "Q", None);
  }

  lemma {:induction false} FirstTradingIsOneOf(pools: seq<Pool>, currency: string, but: Option<string>)
    ensures FirstTrading(pools, currency, but).Some? ==>
              var p := FirstTrading(pools, currency, but).value;
              p in pools && p.Trades(currency) && but != Some(p.id)
  {
    if pools != [] && !(pools[0].Trades(currency) && but != Some(pools[0].id)) {
      FirstTradingIsOneOf(pools[1..], currency, but);
    }
  }

  lemma {:induction false} VenuesAre(pools: seq<Pool>, target: string)
    ensures forall p :: p in Venues(pools, target) <==> p in pools && p.IsVenue() && p.Holds(target)
  {
    if pools != [] {
      VenuesAre(pools[1..], target);
      assert pools == [pools[0]] + pools[1..];
    }
  }

  lemma {:induction false} ReferencesAre(pools: seq<Pool>, chain: string, quote: string)
    ensures forall p :: p in References(pools, chain, quote) <==>
              && p in pools && p.started && p.Trades(chain) && p.Trades(quote) && p.Price(chain, quote).Some?
  {
    if pools != [] {
      ReferencesAre(pools[1..], chain, quote);
      assert pools == [pools[0]] + pools[1..];
    }
  }

  /**
   * The pool a chart is drawn from is one of the book's venues and holds the
   * currency, and no pool is its own reference. The reference is only ever
   * asked to have started.
   */
  lemma RoutesRunThroughVenues(book: Book, target: string)
    requires book.Ranks() && book.RouteFor(target).Some?
    ensures var route := book.RouteFor(target).value;
            && route.pool in book.pools && route.pool.IsVenue() && route.pool.Holds(target)
            && (route.Through? ==>
                  && route.reference in book.pools && route.reference.started
                  && route.reference.id != route.pool.id
                  && route.reference.Price(book.chain, book.quote).Some?)
  {
    var route := book.RouteFor(target).value;
    var venues := Venues(book.pools, target);
    VenuesAre(book.pools, target);
    ReferencesAre(book.pools, book.chain, book.quote);
    FirstTradingIsOneOf(book.PoolsFor(target), book.quote, None);
    if route.Through? {
      FirstTradingIsOneOf(book.PoolsFor(target), book.chain, Some(route.reference.id));
    }
    assert multiset(book.order(target, venues)) == multiset(venues);
    assert route.pool in multiset(book.order(target, venues));
  }

  /** A reference whose launch was refunded, under a chart that is drawn through it. */
  lemma ReferenceMayBeRefunded()
    ensures var book := AsListed([Hop(), Bridge(true)]);
            && book.Ranks()
            && book.RouteFor("T") == Some(Through(Hop(), Bridge(true))) && Bridge(true).refunded
  {
    assert "T"[0] != "Q"[0];
    var (b, r) := (Hop(), Bridge(true));
    ExamplePools(true);
    ExampleLists(true);
    FirstOfTwo(b, b, "Q", None);
    FirstOfTwo(b, b, "C", Some(r.id));
    BridgedBook(AsListed([b, r]), [b], b, r);
  }

  /** The same book, taking its reference as `deepest` says. */
  function Deepest(book: Book, deepest: seq<Pool> -> Option<Pool>): Book {
    book.(deepest := deepest)
  }

  /** However depth ranks them, the reference is a venue exactly when every pool that could be one is. */
  lemma ReferenceIsAVenueExactlyWhen(book: Book)
    requires book.Ranks()
    ensures (forall deepest :: Deepest(book, deepest).Ranks() && Deepest(book, deepest).Reference().Some?
               ==> Deepest(book, deepest).Reference().value.0.IsVenue())
            <==> (forall p :: p in References(book.pools, book.chain, book.quote) ==> p.IsVenue())
  {
    var references := References(book.pools, book.chain, book.quote);
    ReferencesAre(book.pools, book.chain, book.quote);
    if p :| p in references && !p.IsVenue() {
      var deepest := (ps: seq<Pool>) => if p in ps then Some(p) else if ps == [] then None else Some(ps[0]);
      assert Deepest(book, deepest).Ranks();
      assert Deepest(book, deepest).Reference().value.0 == p;
    }
  }
}
