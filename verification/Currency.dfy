/**
 * The checked draft and the definition built from it: `problems`, `check` and
 * `definition` in `pecu-core/src/currency.rs`. Reading numbers, names and
 * addresses out of text is `Forms`, shared by all three.
 */
module Currency {
  import opened Wrappers
  import Text

  const ONE: int := 100_000_000
  const FAR_AHEAD: int := 20_000
  const U32_MAX: int := 0xffff_ffff
  const I32_MAX: int := 0x7fff_ffff
  const I64_MAX: int := 0x7fff_ffff_ffff_ffff
  const CENTRALIZED: int := 2

  /** What a typed number reads as: refused below zero, and held at the top of i64. */
  type Units = n: int | 0 <= n <= I64_MAX
  type Height = n: int | 0 <= n <= U32_MAX

  // ---- arithmetic as i64 does it ----

  type I64 = n: int | -I64_MAX - 1 <= n <= I64_MAX

  /** Two's complement addition: a sum past either end comes back in at the other. */
  function Plus(a: I64, b: I64): I64 {
    if a + b > I64_MAX then a + b - 0x1_0000_0000_0000_0000
    else if a + b < -I64_MAX - 1 then a + b + 0x1_0000_0000_0000_0000
    else a + b
  }

  function WrapSum(s: seq<Units>): I64 {
    if s == [] then 0 else Plus(WrapSum(s[..|s| - 1]), s[|s| - 1])
  }

  function Sum(s: seq<Units>): nat {
    if s == [] then 0 else Sum(s[..|s| - 1]) + s[|s| - 1]
  }

  function OrZero(read: Option<Units>): Units {
    match read case None => 0 case Some(units) => units
  }

  predicate IsNothing(read: Option<Units>) {
    OrZero(read) == 0
  }

  // ---- the draft ----

  datatype Kind = Token | Basket | Nft

  function Named(text: string): Kind {
    if text == "basket" then Basket else if text == "nft" then Nft else Token
  }

  datatype ReserveDraft = ReserveDraft(currency: string, name: string, weight: string)

  datatype AllocationDraft = AllocationDraft(recipient: string, amount: string)

  datatype Draft = Draft(identity: string, newName: string, kind: string, mintable: bool, startDelay: string,
                         reserves: seq<ReserveDraft>, preallocations: seq<AllocationDraft>)

  /** An address is a kind and twenty bytes; a currency id is the bytes alone. */
  datatype Address = Address(version: int, hash: seq<int>)

  datatype Forms = Forms(weight: string -> Option<Units>, sats: string -> Option<Units>, delay: string -> Height,
                         address: string -> Option<Address>, nameProblem: string -> Option<string>)

  datatype Problem = Problem(blocking: bool, code: string)

  function Stop(code: string): Problem { Problem(true, code) }
  function Warn(code: string): Problem { Problem(false, code) }

  predicate Blocked(found: seq<Problem>) {
    exists i :: 0 <= i < |found| && found[i].blocking
  }

  // ---- what is wrong with it ----

  function IdentityProblems(forms: Forms, draft: Draft): seq<Problem> {
    var (identity, name) := (Text.Trim(draft.identity), Text.Trim(draft.newName));
    if identity == "" && name == "" then [Stop("draft-pick-identity")]
    else if identity != "" && name != "" then [Stop("draft-two-names")]
    else if identity == "" then match forms.nameProblem(name) case None => [] case Some(code) => [Stop(code)]
    else []
  }

  function Key(reserve: ReserveDraft): string { Text.Trim(reserve.currency) }

  /** The keys of the reserves that have one, in order. */
  function Keys(reserves: seq<ReserveDraft>): seq<string> {
    if reserves == [] then []
    else
      var last := reserves[|reserves| - 1];
      Keys(reserves[..|reserves| - 1]) + if Key(last) == "" then [] else [Key(last)]
  }

  function ReserveProblems(forms: Forms, seen: seq<string>, reserve: ReserveDraft): seq<Problem> {
    if Key(reserve) == "" then [Stop("draft-reserve-no-currency")]
    else
      (if Key(reserve) in seen then [Stop("draft-reserve-twice")] else [])
      + (if IsNothing(forms.weight(reserve.weight)) then [Stop("draft-reserve-no-weight")] else [])
  }

  function ReservesProblems(forms: Forms, reserves: seq<ReserveDraft>): seq<Problem> {
    if reserves == [] then []
    else
      var n := |reserves| - 1;
      ReservesProblems(forms, reserves[..n]) + ReserveProblems(forms, Keys(reserves[..n]), reserves[n])
  }

  /** The weights of the reserves that name a currency. */
  function WeightsCounted(forms: Forms, reserves: seq<ReserveDraft>): seq<Units> {
    if reserves == [] then []
    else
      var last := reserves[|reserves| - 1];
      var before := WeightsCounted(forms, reserves[..|reserves| - 1]);
      if Key(last) == "" || IsNothing(forms.weight(last.weight)) then before
      else before + [forms.weight(last.weight).value]
  }

  /** The weights are only added up for somebody who has nothing else to put right first. */
  function BasketProblems(forms: Forms, draft: Draft, found: seq<Problem>): seq<Problem> {
    if draft.reserves == [] then found + [Stop("draft-basket-no-reserves")]
    else
      var all := found + ReservesProblems(forms, draft.reserves);
      if WrapSum(WeightsCounted(forms, draft.reserves)) != ONE && !Blocked(all) then all + [Stop("draft-weights-wrong")]
      else all
  }

  function NftProblems(draft: Draft): seq<Problem> {
    (if draft.reserves != [] then [Stop("draft-nft-no-reserves")] else [])
    + (if |draft.preallocations| > 1 then [Stop("draft-nft-one-holder")] else [])
    + [Warn("draft-nft-never-sent")]
  }

  function Amounts(forms: Forms, allocations: seq<AllocationDraft>): seq<Units> {
    if allocations == [] then []
    else
      var n := |allocations| - 1;
      Amounts(forms, allocations[..n]) + [OrZero(forms.sats(allocations[n].amount))]
  }

  function AllocationProblems(forms: Forms, allocation: AllocationDraft): seq<Problem> {
    (if Text.Trim(allocation.recipient) == "" then [Stop("draft-alloc-no-recipient")] else [])
    + (if IsNothing(forms.sats(allocation.amount)) then [Stop("draft-alloc-nothing")] else [])
  }

  function AllocationsProblems(forms: Forms, allocations: seq<AllocationDraft>): seq<Problem> {
    if allocations == [] then []
    else
      var n := |allocations| - 1;
      AllocationsProblems(forms, allocations[..n]) + AllocationProblems(forms, allocations[n])
  }

  function SupplyProblems(supply: int, mintable: bool): seq<Problem> {
    if supply != 0 then []
    else if !mintable then [Stop("draft-supply-none-ever")]
    else [Warn("draft-supply-mint-later")]
  }

  function TokenProblems(forms: Forms, draft: Draft, found: seq<Problem>): seq<Problem> {
    found
    + (if draft.reserves != [] then [Stop("draft-token-no-reserves")] else [])
    + SupplyProblems(WrapSum(Amounts(forms, draft.preallocations)), draft.mintable)
    + AllocationsProblems(forms, draft.preallocations)
  }

  function StartProblems(forms: Forms, draft: Draft, tip: Height): seq<Problem> {
    var delay := forms.delay(draft.startDelay);
    (if delay == 0 then [Stop("draft-start-needed")]
     else if delay > FAR_AHEAD then [Warn("draft-start-far")] else [])
    + (if tip + delay > U32_MAX then [Stop("draft-start-past-chain")] else [])
  }

  function Problems(forms: Forms, draft: Draft, tip: Height): seq<Problem> {
    var found := IdentityProblems(forms, draft);
    (match Named(draft.kind)
     case Basket => BasketProblems(forms, draft, found)
     case Nft => found + NftProblems(draft)
     case Token => TokenProblems(forms, draft, found))
    + StartProblems(forms, draft, tip)
  }

  // ---- the same, as it is accumulated ----

  method CheckBasket(forms: Forms, draft: Draft, found: seq<Problem>) returns (out: seq<Problem>)
    ensures out == BasketProblems(forms, draft, found)
  {
    out := found;
    if draft.reserves == [] {
      out := out + [Stop("draft-basket-no-reserves")];
      return;
    }
    var wrong, total := CheckReserves(forms, draft.reserves);
    out := out + wrong;
    var blocked := IsBlocked(out);
    if total != ONE && !blocked {
      out := out + [Stop("draft-weights-wrong")];
    }
  }

  method CheckReserves(forms: Forms, reserves: seq<ReserveDraft>) returns (out: seq<Problem>, total: I64)
    ensures out == ReservesProblems(forms, reserves)
    ensures total == WrapSum(WeightsCounted(forms, reserves))
  {
    out, total := [], 0;
    var seen := [];
    for i := 0 to |reserves|
      invariant out == ReservesProblems(forms, reserves[..i])
      invariant seen == Keys(reserves[..i])
      invariant total == WrapSum(WeightsCounted(forms, reserves[..i]))
    {
      ReserveTaken(forms, reserves, i);
      var wrong, units := CheckReserve(forms, seen, reserves[i]);
      out := out + wrong;
      total := Plus(total, units);
      if Key(reserves[i]) != "" {
        seen := seen + [Key(reserves[i])];
      }
    }
    assert reserves[..|reserves|] == reserves;
  }

  /** One turn of the loop over the reserves: what is wrong with this one, and what it adds to the total. */
  method CheckReserve(forms: Forms, seen: seq<string>, reserve: ReserveDraft)
    returns (wrong: seq<Problem>, units: Units)
    ensures wrong == ReserveProblems(forms, seen, reserve)
    ensures units == UnitsCounted(forms, reserve)
  {
    wrong, units := [], 0;
    if Key(reserve) == "" {
      return [Stop("draft-reserve-no-currency")], 0;
    }
    if Key(reserve) in seen {
      wrong := wrong + [Stop("draft-reserve-twice")];
    }
    match forms.weight(reserve.weight) {
      case None => wrong := wrong + [Stop("draft-reserve-no-weight")];
      case Some(read) =>
        if read == 0 {
          wrong := wrong + [Stop("draft-reserve-no-weight")];
        } else {
          units := read;
        }
    }
  }

  function UnitsCounted(forms: Forms, reserve: ReserveDraft): Units {
    if Key(reserve) == "" then 0 else OrZero(forms.weight(reserve.weight))
  }

  lemma ReserveTaken(forms: Forms, reserves: seq<ReserveDraft>, i: nat)
    requires i < |reserves|
    ensures ReservesProblems(forms, reserves[..i + 1])
              == ReservesProblems(forms, reserves[..i]) + ReserveProblems(forms, Keys(reserves[..i]), reserves[i])
    ensures Keys(reserves[..i + 1]) == Keys(reserves[..i]) + if Key(reserves[i]) == "" then [] else [Key(reserves[i])]
    ensures WrapSum(WeightsCounted(forms, reserves[..i + 1]))
              == Plus(WrapSum(WeightsCounted(forms, reserves[..i])), UnitsCounted(forms, reserves[i]))
  {
    assert reserves[..i + 1][..i] == reserves[..i] && reserves[..i + 1] != [];
    WrapSumOneMore(WeightsCounted(forms, reserves[..i]), UnitsCounted(forms, reserves[i]));
  }

  lemma WrapSumOneMore(s: seq<Units>, units: Units)
    ensures WrapSum(s + [units]) == Plus(WrapSum(s), units)
  {}

  method IsBlocked(found: seq<Problem>) returns (blocked: bool)
    ensures blocked <==> Blocked(found)
  {
    for i := 0 to |found|
      invariant forall k :: 0 <= k < i ==> !found[k].blocking
    {
      if found[i].blocking {
        return true;
      }
    }
    return false;
  }

  method CheckToken(forms: Forms, draft: Draft, found: seq<Problem>) returns (out: seq<Problem>)
    ensures out == TokenProblems(forms, draft, found)
  {
    out := found;
    if draft.reserves != [] {
      out := out + [Stop("draft-token-no-reserves")];
    }
    var supply := TotalOf(forms, draft.preallocations);
    if supply == 0 && !draft.mintable {
      out := out + [Stop("draft-supply-none-ever")];
    } else if supply == 0 {
      out := out + [Warn("draft-supply-mint-later")];
    }
    var wrong := CheckAllocations(forms, draft.preallocations);
    out := out + wrong;
  }

  method CheckAllocations(forms: Forms, allocations: seq<AllocationDraft>) returns (out: seq<Problem>)
    ensures out == AllocationsProblems(forms, allocations)
  {
    out := [];
    for i := 0 to |allocations|
      invariant out == AllocationsProblems(forms, allocations[..i])
    {
      var allocation := allocations[i];
      assert allocations[..i + 1][..i] == allocations[..i];
      var wrong: seq<Problem> := [];
      if Text.Trim(allocation.recipient) == "" {
        wrong := wrong + [Stop("draft-alloc-no-recipient")];
      }
      var sats := forms.sats(allocation.amount);
      if sats.None? || sats.value <= 0 {
        wrong := wrong + [Stop("draft-alloc-nothing")];
      }
      out := out + wrong;
    }
    assert allocations[..|allocations|] == allocations;
  }

  /** The amounts that read as numbers, added up. */
  method TotalOf(forms: Forms, allocations: seq<AllocationDraft>) returns (total: I64)
    ensures total == WrapSum(Amounts(forms, allocations))
  {
    total := 0;
    for i := 0 to |allocations|
      invariant total == WrapSum(Amounts(forms, allocations[..i]))
    {
      assert allocations[..i + 1][..i] == allocations[..i] && allocations[..i + 1] != [];
      WrapSumOneMore(Amounts(forms, allocations[..i]), OrZero(forms.sats(allocations[i].amount)));
      var sats := forms.sats(allocations[i].amount);
      if sats.Some? {
        total := Plus(total, sats.value);
      }
    }
    assert allocations[..|allocations|] == allocations;
  }

  // ---- what the form shows ----

  /** What is read off the screen before agreeing: whether it may go ahead, and the supply in satoshis. */
  datatype Checked = Checked(problems: seq<Problem>, ready: bool, weightTotal: int, supply: nat, start: Height)

  function ClampToU64(sats: int): nat {
    if sats < 0 then 0 else sats
  }

  function WeightsTyped(forms: Forms, reserves: seq<ReserveDraft>): seq<Units> {
    if reserves == [] then []
    else
      var n := |reserves| - 1;
      WeightsTyped(forms, reserves[..n]) + [OrZero(forms.weight(reserves[n].weight))]
  }

  function Check(forms: Forms, draft: Draft, tip: Height): Checked {
    var found := Problems(forms, draft, tip);
    var start := tip + forms.delay(draft.startDelay);
    Checked(found, !Blocked(found), WrapSum(WeightsTyped(forms, draft.reserves)),
            ClampToU64(WrapSum(Amounts(forms, draft.preallocations))), if start > U32_MAX then U32_MAX else start)
  }

  // ---- what goes on the chain ----

  type Hash = seq<int>

  datatype Preallocation = Preallocation(recipient: Hash, amount: nat)

  datatype Definition =
    | Divisible(proofProtocol: int, fractional: bool, preallocations: seq<Preallocation>,
                currencies: seq<Hash>, weights: seq<int>, initialSupply: nat)
    | OneOfAKind(holder: Hash)

  datatype Refusal =
    | NoHolder
    | ManyHolders
    | Unresolved(key: string)
    | NotANumber(key: string)
    | NoAddress(reserve: ReserveDraft)
    | NoWeight(reserve: ReserveDraft)
    | WeightTooLarge(reserve: ReserveDraft)

  function Allocate(forms: Forms, resolved: map<string, Hash>, allocation: AllocationDraft)
    : Result<Preallocation, Refusal>
  {
    var key := Text.Trim(allocation.recipient);
    match forms.sats(allocation.amount)
    case None => Err(NotANumber(key))
    case Some(sats) => if key in resolved then Ok(Preallocation(resolved[key], sats)) else Err(Unresolved(key))
  }

  function AllocateAll(forms: Forms, resolved: map<string, Hash>, allocations: seq<AllocationDraft>)
    : Result<seq<Preallocation>, Refusal>
  {
    if allocations == [] then Ok([])
    else match Allocate(forms, resolved, allocations[0])
      case Err(e) => Err(e)
      case Ok(first) => After([first], AllocateAll(forms, resolved, allocations[1..]))
  }

  /** What was gathered, followed by the rest, unless the rest was refused. */
  function After<T>(gathered: seq<T>, rest: Result<seq<T>, Refusal>): Result<seq<T>, Refusal> {
    match rest
    case Err(e) => Err(e)
    case Ok(rest) => Ok(gathered + rest)
  }

  function Weigh(forms: Forms, reserve: ReserveDraft): Result<(Hash, int), Refusal> {
    match forms.address(Key(reserve))
    case None => Err(NoAddress(reserve))
    case Some(address) =>
      match forms.weight(reserve.weight)
      case None => Err(NoWeight(reserve))
      case Some(units) => if units > I32_MAX then Err(WeightTooLarge(reserve)) else Ok((address.hash, units))
  }

  function WeighAll(forms: Forms, reserves: seq<ReserveDraft>): Result<seq<(Hash, int)>, Refusal> {
    if reserves == [] then Ok([])
    else match Weigh(forms, reserves[0])
      case Err(e) => Err(e)
      case Ok(first) => After([first], WeighAll(forms, reserves[1..]))
  }

  function Firsts(pairs: seq<(Hash, int)>): seq<Hash> {
    seq(|pairs|, i requires 0 <= i < |pairs| => pairs[i].0)
  }

  function Seconds(pairs: seq<(Hash, int)>): seq<int> {
    seq(|pairs|, i requires 0 <= i < |pairs| => pairs[i].1)
  }

  function DefinitionOf(forms: Forms, draft: Draft, resolved: map<string, Hash>): Result<Definition, Refusal> {
    var kind := Named(draft.kind);
    if kind.Nft? then HolderOf(draft.preallocations, resolved)
    else match AllocateAll(forms, resolved, draft.preallocations)
      case Err(e) => Err(e)
      case Ok(preallocations) =>
        var proof := if draft.mintable then CENTRALIZED else 1;
        if kind.Token? then Ok(Divisible(proof, false, preallocations, [], [], 0))
        else match WeighAll(forms, draft.reserves)
          case Err(e) => Err(e)
          case Ok(pairs) =>
            Ok(Divisible(proof, true, preallocations, Firsts(pairs), Seconds(pairs),
                         ClampToU64(WrapSum(Amounts(forms, draft.preallocations)))))
  }

  function HolderOf(allocations: seq<AllocationDraft>, resolved: map<string, Hash>): Result<Definition, Refusal> {
    if allocations == [] then Err(NoHolder)
    else if |allocations| > 1 then Err(ManyHolders)
    else
      var key := Text.Trim(allocations[0].recipient);
      if key in resolved then Ok(OneOfAKind(resolved[key])) else Err(Unresolved(key))
  }

  /** `definition`, as the form is turned into it entry by entry. */
  method BuildDefinition(forms: Forms, draft: Draft, resolved: map<string, Hash>)
    returns (r: Result<Definition, Refusal>)
    ensures r == DefinitionOf(forms, draft, resolved)
  {
    var kind := Named(draft.kind);
    if kind == Nft {
      return HolderOf(draft.preallocations, resolved);
    }
    var definition := Divisible(1, false, [], [], [], 0);
    if draft.mintable {
      definition := definition.(proofProtocol := CENTRALIZED);
    }
    var paid := PayOut(forms, draft.preallocations, resolved);
    match paid {
      case Err(e) => return Err(e);
      case Ok(preallocations) => definition := definition.(preallocations := preallocations);
    }
    if kind == Basket {
      definition := definition.(fractional := true);
      var currencies, weights, refused := Reserves(forms, draft.reserves);
      if refused.Some? {
        return Err(refused.value);
      }
      var supply := TotalOf(forms, draft.preallocations);
      definition := definition.(currencies := currencies, weights := weights, initialSupply := ClampToU64(supply));
    }
    return Ok(definition);
  }

  method PayOut(forms: Forms, allocations: seq<AllocationDraft>, resolved: map<string, Hash>)
    returns (r: Result<seq<Preallocation>, Refusal>)
    ensures r == AllocateAll(forms, resolved, allocations)
  {
    var paid: seq<Preallocation> := [];
    assert allocations[0..] == allocations;
    AfterNothing(AllocateAll(forms, resolved, allocations));
    for i := 0 to |allocations|
      invariant AllocateAll(forms, resolved, allocations) == After(paid, AllocateAll(forms, resolved, allocations[i..]))
    {
      var key := Text.Trim(allocations[i].recipient);
      var sats := forms.sats(allocations[i].amount);
      assert allocations[i..][1..] == allocations[i + 1..];
      if sats.None? {
        return Err(NotANumber(key));
      }
      if key !in resolved {
        return Err(Unresolved(key));
      }
      Regroup(paid, Preallocation(resolved[key], sats.value), AllocateAll(forms, resolved, allocations[i + 1..]));
      paid := paid + [Preallocation(resolved[key], sats.value)];
    }
    assert paid + [] == paid;
    return Ok(paid);
  }

  lemma AfterNothing<T>(rest: Result<seq<T>, Refusal>)
    ensures After([], rest) == rest
  {
    if rest.Ok? {
      assert [] + rest.value == rest.value;
    }
  }

  lemma Regroup<T>(gathered: seq<T>, next: T, rest: Result<seq<T>, Refusal>)
    ensures After(gathered, After([next], rest)) == After(gathered + [next], rest)
  {
    if rest.Ok? {
      assert gathered + ([next] + rest.value) == gathered + [next] + rest.value;
    }
  }

  method Reserves(forms: Forms, reserves: seq<ReserveDraft>)
    returns (currencies: seq<Hash>, weights: seq<int>, refused: Option<Refusal>)
    ensures match WeighAll(forms, reserves)
            case Err(e) => refused == Some(e)
            case Ok(pairs) => refused == None && currencies == Firsts(pairs) && weights == Seconds(pairs)
  {
    currencies, weights, refused := [], [], None;
    ghost var pairs: seq<(Hash, int)> := [];
    assert reserves[0..] == reserves;
    AfterNothing(WeighAll(forms, reserves));
    for i := 0 to |reserves|
      invariant currencies == Firsts(pairs) && weights == Seconds(pairs) && refused == None
      invariant WeighAll(forms, reserves) == After(pairs, WeighAll(forms, reserves[i..]))
    {
      assert reserves[i..][1..] == reserves[i + 1..];
      var address := forms.address(Key(reserves[i]));
      if address.None? {
        refused := Some(NoAddress(reserves[i]));
        return;
      }
      var units := forms.weight(reserves[i].weight);
      if units.None? {
        refused := Some(NoWeight(reserves[i]));
        return;
      }
      if units.value > I32_MAX {
        refused := Some(WeightTooLarge(reserves[i]));
        return;
      }
      currencies := currencies + [address.value.hash];
      weights := weights + [units.value];
      Regroup(pairs, (address.value.hash, units.value), WeighAll(forms, reserves[i + 1..]));
      pairs := pairs + [(address.value.hash, units.value)];
    }
  }
}
