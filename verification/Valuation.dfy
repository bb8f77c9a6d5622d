/**
 * What a holding is worth: `value_of` and `value_holdings` in
 * `pecu-core/src/market.rs`, and the least a conversion is held to, `floor` in
 * `pecu-core/src/convert.rs`.
 */
module Valuation {
  import opened Wrappers
  import opened Market

  const U64_MAX: int := 0xffff_ffff_ffff_ffff
  const I128_MAX: int := 0x7fff_ffff_ffff_ffff_ffff_ffff_ffff_ffff

  type U64 = n: int | 0 <= n <= U64_MAX

  function PriceFor(book: Book, target: string): Option<real> {
    match book.QuoteFor(target)
    case None => None
    case Some((price, _)) => Some(price)
  }

  function PriceInSats(book: Book, target: string): Option<int> {
    match PriceFor(book, target)
    case None => None
    case Some(price) => SatsOf(price)
  }

  /** What `held` satoshis are worth at `price` satoshis of the quote per whole unit. */
  function Valued(held: U64, price: int): int {
    (held * price + SATS_PER_COIN / 2) / SATS_PER_COIN
  }

  function ValueOf(book: Book, target: string, held: U64): Option<int> {
    match PriceInSats(book, target)
    case None => None
    case Some(price) => if Valued(held, price) > I64_MAX then None else Some(Valued(held, price))
  }

  lemma PriceFits(book: Book, target: string)
    ensures var price := PriceInSats(book, target); price.Some? ==> 0 <= price.value <= I64_MAX
  {
    var price := PriceFor(book, target);
    if price.Some? && price.value >= 0.0 {
      assert price.value * 100_000_000.0 + 0.5 > 0.0;
    }
  }

  lemma WideEnough(held: U64, price: int)
    requires 0 <= price <= I64_MAX
    ensures 0 <= held * price + SATS_PER_COIN / 2 <= I128_MAX
  {
    assert held * price <= U64_MAX * price;
  }

  /** The wide product never overflows, so the division is the real one: the value is the nearest satoshi. */
  lemma ValueIsTheNearestSatoshi(book: Book, target: string, held: U64)
    requires PriceInSats(book, target).Some?
    ensures var price := PriceInSats(book, target).value;
            && 0 <= held * price + SATS_PER_COIN / 2 <= I128_MAX
            && (ValueOf(book, target, held).Some? ==>
                  var v := ValueOf(book, target, held).value;
                  0 <= v <= I64_MAX
                  && -SATS_PER_COIN < 2 * (v * SATS_PER_COIN - held * price) <= SATS_PER_COIN)
            && (ValueOf(book, target, held).None? <==> 2 * held * price >= (2 * I64_MAX + 1) * SATS_PER_COIN)
  {
    PriceFits(book, target);
    WideEnough(held, PriceInSats(book, target).value);
  }

  /** Holding more is never worth less, and what is worth a figure stays worth one when less is held. */
  lemma MoreIsNeverWorthLess(book: Book, target: string, less: U64, more: U64)
    requires less <= more && ValueOf(book, target, more).Some?
    ensures ValueOf(book, target, less).Some?
    ensures ValueOf(book, target, less).value <= ValueOf(book, target, more).value
  {
    PriceFits(book, target);
    var price := PriceInSats(book, target).value;
    assert less * price <= more * price;
    Divides(less * price + SATS_PER_COIN / 2, more * price + SATS_PER_COIN / 2);
  }

  lemma Divides(a: int, b: int)
    requires a <= b
    ensures a / SATS_PER_COIN <= b / SATS_PER_COIN
  {
  }

  /** Two holdings valued apart come to within a satoshi of the two valued together. */
  lemma PartsAddUpToASatoshi(book: Book, target: string, a: U64, b: U64)
    requires a + b <= U64_MAX && ValueOf(book, target, a + b).Some?
    ensures ValueOf(book, target, a).Some? && ValueOf(book, target, b).Some?
    ensures var apart := ValueOf(book, target, a).value + ValueOf(book, target, b).value;
            -1 <= ValueOf(book, target, a + b).value - apart <= 1
  {
    MoreIsNeverWorthLess(book, target, a, a + b);
    MoreIsNeverWorthLess(book, target, b, a + b);
    var price := PriceInSats(book, target).value;
    ValuedInParts(a, b, price);
  }

  lemma ValuedInParts(a: U64, b: U64, price: int)
    requires a + b <= U64_MAX
    ensures -1 <= Valued(a + b, price) - Valued(a, price) - Valued(b, price) <= 1
  {
    assert (a + b) * price == a * price + b * price;
    RoundedParts(a * price, b * price);
  }

  lemma RoundedParts(x: int, y: int)
    ensures var half := SATS_PER_COIN / 2;
            -1 <= (x + y + half) / SATS_PER_COIN - (x + half) / SATS_PER_COIN - (y + half) / SATS_PER_COIN <= 1
  {
  }

  /** How far a price in satoshis may be from the price: half of one, or three halves at the last price that fits. */
  function PriceRoom(price: real): real {
    if price * 100_000_000.0 + 0.5 < (I64_MAX + 1) as real then 0.5 else 1.5
  }

  predicate Within(x: real, y: real, room: real) {
    -room <= x - y <= room
  }

  /** What a holding is worth unrounded, in hundred-millionths of a satoshi, and how far a value may be from it. */
  function Exact(held: U64, price: real): real {
    held as real * (price * 100_000_000.0)
  }

  function ValueRoom(held: U64, price: real): real {
    held as real * PriceRoom(price) + 50_000_000.0
  }

  /**
   * Against the unrounded price, the value is out by at most half a satoshi for
   * each whole unit held, and half a satoshi more.
   */
  lemma ValueAgainstTheTruePrice(book: Book, target: string, held: U64)
    requires ValueOf(book, target, held).Some?
    ensures var (v, price) := (ValueOf(book, target, held).value, PriceFor(book, target).value);
            Within((v * SATS_PER_COIN) as real, Exact(held, price), ValueRoom(held, price))
  {
    ValueIsTheNearestSatoshi(book, target, held);
    ValuedWithin(held, PriceFor(book, target).value, PriceInSats(book, target).value,
                 ValueOf(book, target, held).value);
  }

  lemma ValuedWithin(held: U64, price: real, sats: int, v: int)
    requires SatsOf(price) == Some(sats)
    requires -SATS_PER_COIN < 2 * (v * SATS_PER_COIN - held * sats) <= SATS_PER_COIN
    ensures Within((v * SATS_PER_COIN) as real, Exact(held, price), ValueRoom(held, price))
  {
    HeldAtThePrice(held, price, sats);
    HalfASatoshiMore(v, held * sats, Exact(held, price), held as real * PriceRoom(price));
  }

  lemma HeldAtThePrice(held: U64, price: real, sats: int)
    requires SatsOf(price) == Some(sats)
    ensures Within((held * sats) as real, Exact(held, price), held as real * PriceRoom(price))
  {
    PriceInRoom(price);
    HeldTimes(held, price * 100_000_000.0, sats, PriceRoom(price));
  }

  lemma HalfASatoshiMore(v: int, product: int, exact: real, room: real)
    requires -SATS_PER_COIN < 2 * (v * SATS_PER_COIN - product) <= SATS_PER_COIN
    requires Within(product as real, exact, room)
    ensures Within((v * SATS_PER_COIN) as real, exact, room + 50_000_000.0)
  {}

  lemma PriceInRoom(price: real)
    requires SatsOf(price).Some?
    ensures -PriceRoom(price) <= SatsOf(price).value as real - price * 100_000_000.0 <= PriceRoom(price)
  {}

  lemma HeldTimes(held: U64, price: real, sats: int, room: real)
    requires -room <= sats as real - price <= room
    ensures Within((held * sats) as real, held as real * price, held as real * room)
  {
    var off := sats as real - price;
    assert (held * sats) as real == held as real * sats as real;
    assert (held * sats) as real - held as real * price == held as real * off;
    Scaled(held as real, off, room);
  }

  lemma Scaled(h: real, off: real, room: real)
    requires h >= 0.0 && -room <= off <= room
    ensures -(h * room) <= h * off <= h * room
  {
    assert h * (room - off) >= 0.0 && h * (off + room) >= 0.0;
  }

  // ---- every row from one book ----

  datatype Asset = Asset(currency: string, amount: string, shown: string, sats: Option<int>)

  /** How a held amount is read back from its text, how a value is written, and what stands for not knowing. */
  datatype Figures = Figures(read: string -> Option<U64>, written: int -> string, unknown: string)

  function Worth(book: Book, figures: Figures, asset: Asset): Option<int> {
    match figures.read(asset.amount)
    case None => None
    case Some(held) => ValueOf(book, asset.currency, held)
  }

  function Repriced(book: Book, figures: Figures, asset: Asset): Asset {
    var worth := Worth(book, figures, asset);
    asset.(shown := if worth.Some? then figures.written(worth.value) else figures.unknown, sats := worth)
  }

  function AllRepriced(book: Book, figures: Figures, assets: seq<Asset>): seq<Asset> {
    seq(|assets|, i requires 0 <= i < |assets| => Repriced(book, figures, assets[i]))
  }

  method ValueHoldings(book: Book, figures: Figures, assets: array<Asset>)
    modifies assets
    ensures assets[..] == AllRepriced(book, figures, old(assets[..]))
  {
    var i := 0;
    while i < assets.Length
      invariant 0 <= i <= assets.Length
      invariant forall k :: 0 <= k < i ==> assets[k] == Repriced(book, figures, old(assets[k]))
      invariant forall k :: i <= k < assets.Length ==> assets[k] == old(assets[k])
    {
      var valued := match figures.read(assets[i].amount)
        case None => None
        case Some(held) => ValueOf(book, assets[i].currency, held);
      var shown := match valued
        case None => figures.unknown
        case Some(sats) => figures.written(sats);
      assets[i] := assets[i].(shown := shown, sats := valued);
      i := i + 1;
    }
  }

  /**
   * A row shows what its amount, read as a number, is worth in this book, in
   * satoshis and in words; failing either, that it is not known. What it is a
   * row of does not change.
   */
  lemma EveryRowShowsItsWorth(book: Book, figures: Figures, assets: seq<Asset>, i: nat)
    requires i < |assets|
    ensures |AllRepriced(book, figures, assets)| == |assets|
    ensures var (was, now) := (assets[i], AllRepriced(book, figures, assets)[i]);
            && now.currency == was.currency && now.amount == was.amount
            && (now.sats.Some? <==> figures.read(was.amount).Some?
                                    && ValueOf(book, was.currency, figures.read(was.amount).value).Some?)
            && (now.sats.Some? ==> now.sats == ValueOf(book, was.currency, figures.read(was.amount).value))
            && now.shown == (match now.sats case Some(v) => figures.written(v) case None => figures.unknown)
  {}

  /**
   * Nothing of an earlier book survives a revaluation: whatever figures the
   * rows carried, the same holdings come out the same, and a row this book
   * cannot price shows that it is not known and carries no figure.
   */
  lemma NoFigureOutlivesItsBook(book: Book, earlier: Book, figures: Figures, assets: seq<Asset>)
    ensures AllRepriced(book, figures, AllRepriced(earlier, figures, assets)) == AllRepriced(book, figures, assets)
    ensures forall i :: 0 <= i < |assets| && PriceInSats(book, assets[i].currency).None? ==>
              && AllRepriced(book, figures, assets)[i].sats.None?
              && AllRepriced(book, figures, assets)[i].shown == figures.unknown
  {
  }

  // ---- the least a conversion may return ----

  const FLOOR_ROOM_PERMILLE: int := 30

  function Saturated(n: nat): U64 {
    if n > U64_MAX then U64_MAX else n
  }

  function FloorOf(estimated: U64): U64 {
    Saturated(estimated * (1000 - FLOOR_ROOM_PERMILLE)) / 1000
  }

  /**
   * The floor is never above the estimate, nor above 97 per cent of it; it is
   * exactly that, rounded down, until the multiplication saturates past the
   * last whole thousand.
   */
  lemma FloorIsTheShareUntilItSaturates(estimated: U64)
    ensures 0 <= FloorOf(estimated) <= 970 * estimated / 1000 <= estimated
    ensures FloorOf(estimated) == 970 * estimated / 1000 <==> 970 * estimated < (U64_MAX / 1000 + 1) * 1000
  {
  }

  /** Raising an estimate never lowers the floor it is held to, and past saturation the floor stays where it is. */
  lemma FloorIsMonotone(a: U64, b: U64)
    requires a <= b
    ensures FloorOf(a) <= FloorOf(b)
    ensures 970 * a >= U64_MAX ==> FloorOf(a) == FloorOf(b) == U64_MAX / 1000
  {
    assert Saturated(a * 970) <= Saturated(b * 970);
  }

  /** The quote currency is worth itself, satoshi for satoshi. */
  lemma QuoteIsWorthItself(book: Book, held: U64)
    ensures ValueOf(book, book.quote, held) == if held <= I64_MAX then Some(held) else None
  {
    assert SatsOf(1.0) == Some(SATS_PER_COIN);
    assert Valued(held, SATS_PER_COIN) == held;
  }
}
