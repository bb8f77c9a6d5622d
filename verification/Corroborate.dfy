/**
 * Comparing the coins two nodes list: the rule of
 * `pecu-chain/src/corroborate.rs`, the filtered reader it feeds, and the
 * funding decision `pecu-core/src/send.rs` takes from its verdict.
 */
module Corroborate {
  import opened Wrappers
  import opened Text
  import opened Chain
  import opened Numbers

  datatype Utxo = Utxo(address: string, outpoint: Outpoint, height: nat, satoshis: nat, isSpendable: bool)

  /** A node, as far as this rule reads one. Every read may fail. */
  datatype Reader = Reader(
    blockCount: Result<nat, string>,
    addressUtxos: seq<string> -> Result<seq<Utxo>, string>,
    blockHash: nat -> Result<string, string>)

  /** A week of blocks at one a minute. */
  const CREDIBLE_LAG: nat := 10_080

  datatype Corroboration =
    | Agreed(checked: nat)
    | OutOfStep(withheld: seq<Outpoint>, kept: nat, secondaryTip: nat, primaryTip: nat)
    | Diverged(unexplained: seq<Outpoint>, kept: nat)
    | Unavailable(reason: string)
    | PrimarySilent(reason: string)

  datatype SharedBlock = Same | Differ | PrimaryMute(reason: string) | SecondaryMute(reason: string)

  function Points(utxos: seq<Utxo>): seq<Outpoint> {
    seq(|utxos|, i requires 0 <= i < |utxos| => utxos[i].outpoint)
  }

  function PointSet(utxos: seq<Utxo>): set<Outpoint> {
    set u | u in utxos :: u.outpoint
  }

  /** `iter().filter(p).collect()`. */
  function Filter(utxos: seq<Utxo>, p: Utxo -> bool): (r: seq<Utxo>)
    ensures |r| <= |utxos|
  {
    if utxos == [] then []
    else (if p(utxos[0]) then [utxos[0]] else []) + Filter(utxos[1..], p)
  }

  lemma {:induction false} FilterMembers(utxos: seq<Utxo>, p: Utxo -> bool)
    ensures forall u :: u in Filter(utxos, p) <==> u in utxos && p(u)
  {
    if utxos != [] {
      FilterMembers(utxos[1..], p);
      assert utxos == [utxos[0]] + utxos[1..];
    }
  }

  /** Whether a difference of height accounts for one missing coin. */
  predicate HeightsExcuse(height: nat, primaryTip: nat, secondaryTip: nat) {
    if height > primaryTip then false
    else if height > secondaryTip then height - secondaryTip <= CREDIBLE_LAG
    else secondaryTip > primaryTip
  }

  function SameChain(primary: Reader, secondary: Reader, height: nat): SharedBlock {
    match primary.blockHash(height)
    case Err(reason) => PrimaryMute(reason)
    case Ok(ours) =>
      match secondary.blockHash(height)
      case Err(reason) => SecondaryMute(reason)
      case Ok(theirs) => if EqIgnoreAsciiCase(ours, theirs) then Same else Differ
  }

  function Missing(offered: seq<Utxo>, held: seq<Utxo>): (r: seq<Utxo>)
    ensures |r| <= |offered|
    ensures forall u :: u in r <==> u in offered && u.outpoint !in PointSet(held)
  {
    var absent := (u: Utxo) => u.outpoint !in PointSet(held);
    FilterMembers(offered, absent);
    Filter(offered, absent)
  }

  function Unexplained(missing: seq<Utxo>, primaryTip: nat, secondaryTip: nat): (r: seq<Utxo>)
    ensures forall u :: u in r <==> u in missing && !HeightsExcuse(u.height, primaryTip, secondaryTip)
  {
    var unexcused := (u: Utxo) => !HeightsExcuse(u.height, primaryTip, secondaryTip);
    FilterMembers(missing, unexcused);
    Filter(missing, unexcused)
  }

  /** The secondary's tip first and its coins after, as the source orders the reads. */
  function Against(primary: Reader, secondary: Reader, address: string, offered: seq<Utxo>, primaryTip: nat)
    : Corroboration
  {
    if offered == [] then Agreed(0)
    else match secondary.blockCount
      case Err(reason) => Unavailable(reason)
      case Ok(secondaryTip) =>
        match secondary.addressUtxos([address])
        case Err(reason) => Unavailable(reason)
        case Ok(found) => Judge(primary, secondary, offered, found, primaryTip, secondaryTip)
  }

  function Judge(primary: Reader, secondary: Reader, offered: seq<Utxo>, held: seq<Utxo>,
                 primaryTip: nat, secondaryTip: nat): Corroboration
  {
    var missing := Missing(offered, held);
    var kept := |offered| - |missing|;
    if missing == [] then Agreed(kept)
    else
      var unexplained := Unexplained(missing, primaryTip, secondaryTip);
      if unexplained != [] then Diverged(Points(unexplained), kept)
      else match SameChain(primary, secondary, Smaller(primaryTip, secondaryTip))
        case Same => OutOfStep(Points(missing), kept, secondaryTip, primaryTip)
        case Differ => Diverged(Points(missing), kept)
        case PrimaryMute(reason) => PrimarySilent(reason)
        case SecondaryMute(reason) => Unavailable(reason)
  }

  function AgreedOutpoints(offered: seq<Utxo>, withheld: seq<Outpoint>): set<Outpoint> {
    set u | u in offered && u.outpoint !in withheld :: u.outpoint
  }

  /** `Corroborated`: the primary, with one address's coins filtered. */
  datatype Corroborated = Corroborated(primary: Reader, address: string, allowed: set<Outpoint>) {
    predicate Passes(u: Utxo) {
      u.address != address || u.outpoint in allowed
    }

    function AddressUtxos(addresses: seq<string>): Result<seq<Utxo>, string> {
      match primary.addressUtxos(addresses)
      case Err(reason) => Err(reason)
      case Ok(found) => Ok(Filter(found, Passes))
    }
  }

  datatype Refusal =
    | Uncorroborated(count: nat)
    | SecondSourceBehind(count: nat, tip: nat)
    | SecondSourceAhead(count: nat, tip: nat)
    | SecondSourceSilent
    | PrimaryFailed(reason: string)

  /** What the send path may fund from: the primary's coins and tip, then the verdict. */
  function CorroboratedFunding(primary: Reader, secondary: Reader, address: string): Result<set<Outpoint>, Refusal>
  {
    match (primary.addressUtxos([address]), primary.blockCount)
    case (Err(reason), _) => Err(PrimaryFailed(reason))
    case (_, Err(reason)) => Err(PrimaryFailed(reason))
    case (Ok(offered), Ok(primaryTip)) =>
      match Against(primary, secondary, address, offered, primaryTip)
      case Agreed(_) => Ok(AgreedOutpoints(offered, []))
      case OutOfStep(withheld, kept, secondaryTip, _) =>
        if kept == 0 then
          Err(if secondaryTip < primaryTip then SecondSourceBehind(|withheld|, secondaryTip)
              else SecondSourceAhead(|withheld|, secondaryTip))
        else Ok(AgreedOutpoints(offered, withheld))
      case Diverged(unexplained, _) => Err(Uncorroborated(|unexplained|))
      case Unavailable(_) => Err(SecondSourceSilent)
      case PrimarySilent(reason) => Err(PrimaryFailed(reason))
  }
}
