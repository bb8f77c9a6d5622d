/** What a draft called ready builds, and where what it builds can part from what was shown. */
module CurrencyTheorems {
  import opened Wrappers
  import opened Currency
  import Text

  // ---- ready, said without the list of problems ----

  predicate IdentityStands(forms: Forms, draft: Draft) {
    var (identity, name) := (Text.Trim(draft.identity), Text.Trim(draft.newName));
    (identity == "") != (name == "") && (identity == "" ==> forms.nameProblem(name).None?)
  }

  predicate StartStands(forms: Forms, draft: Draft, tip: Height) {
    forms.delay(draft.startDelay) > 0 && tip + forms.delay(draft.startDelay) <= U32_MAX
  }

  predicate ReserveStands(forms: Forms, reserve: ReserveDraft) {
    Key(reserve) != "" && OrZero(forms.weight(reserve.weight)) > 0
  }

  predicate KeysDiffer(reserves: seq<ReserveDraft>) {
    forall i, j :: 0 <= i < j < |reserves| ==> Key(reserves[i]) != Key(reserves[j])
  }

  predicate ReservesStand(forms: Forms, reserves: seq<ReserveDraft>) {
    (forall i :: 0 <= i < |reserves| ==> ReserveStands(forms, reserves[i])) && KeysDiffer(reserves)
  }

  predicate AllocationStands(forms: Forms, allocation: AllocationDraft) {
    Text.Trim(allocation.recipient) != "" && OrZero(forms.sats(allocation.amount)) > 0
  }

  predicate AllocationsStand(forms: Forms, allocations: seq<AllocationDraft>) {
    forall i :: 0 <= i < |allocations| ==> AllocationStands(forms, allocations[i])
  }

  predicate KindStands(forms: Forms, draft: Draft) {
    match Named(draft.kind)
    case Basket =>
      && draft.reserves != [] && ReservesStand(forms, draft.reserves)
      && WrapSum(WeightsTyped(forms, draft.reserves)) == ONE
    case Nft => draft.reserves == [] && |draft.preallocations| <= 1
    case Token =>
      && draft.reserves == [] && AllocationsStand(forms, draft.preallocations)
      && (draft.mintable || WrapSum(Amounts(forms, draft.preallocations)) != 0)
  }

  lemma BlockedInEither(a: seq<Problem>, b: seq<Problem>)
    ensures Blocked(a + b) <==> Blocked(a) || Blocked(b)
  {
    if Blocked(a) {
      var i :| 0 <= i < |a| && a[i].blocking;
      assert (a + b)[i].blocking;
    }
    if Blocked(b) {
      var i :| 0 <= i < |b| && b[i].blocking;
      assert (a + b)[|a| + i].blocking;
    }
  }

  lemma StopBlocks(code: string)
    ensures Blocked([Stop(code)])
  {
    assert [Stop(code)][0].blocking;
  }

  lemma {:induction false} KeysOfStanding(forms: Forms, reserves: seq<ReserveDraft>)
    requires forall i :: 0 <= i < |reserves| ==> ReserveStands(forms, reserves[i])
    ensures |Keys(reserves)| == |reserves|
    ensures forall i :: 0 <= i < |reserves| ==> Keys(reserves)[i] == Key(reserves[i])
    ensures WeightsCounted(forms, reserves) == WeightsTyped(forms, reserves)
    decreases |reserves|
  {
    if reserves != [] {
      KeysOfStanding(forms, reserves[..|reserves| - 1]);
    }
  }

  lemma ReserveIsFine(forms: Forms, seen: seq<string>, reserve: ReserveDraft)
    ensures !Blocked(ReserveProblems(forms, seen, reserve)) <==> ReserveStands(forms, reserve) && Key(reserve) !in seen
  {
    StopBlocks("draft-reserve-no-currency");
    StopBlocks("draft-reserve-twice");
    StopBlocks("draft-reserve-no-weight");
    BlockedInEither(if Key(reserve) in seen then [Stop("draft-reserve-twice")] else [],
                    if IsNothing(forms.weight(reserve.weight)) then [Stop("draft-reserve-no-weight")] else []);
  }

  lemma {:induction false} ReservesAreFine(forms: Forms, reserves: seq<ReserveDraft>)
    ensures !Blocked(ReservesProblems(forms, reserves)) <==> ReservesStand(forms, reserves)
    decreases |reserves|
  {
    if reserves != [] {
      var n := |reserves| - 1;
      var before := reserves[..n];
      ReservesAreFine(forms, before);
      BlockedInEither(ReservesProblems(forms, before), ReserveProblems(forms, Keys(before), reserves[n]));
      ReserveIsFine(forms, Keys(before), reserves[n]);
      OneMoreStands(forms, reserves);
    }
  }

  lemma OneMoreStands(forms: Forms, reserves: seq<ReserveDraft>)
    requires reserves != []
    ensures var n := |reserves| - 1;
            ReservesStand(forms, reserves) <==>
            && ReservesStand(forms, reserves[..n]) && ReserveStands(forms, reserves[n])
            && Key(reserves[n]) !in Keys(reserves[..n])
  {
    var before := reserves[..|reserves| - 1];
    assert forall i :: 0 <= i < |before| ==> before[i] == reserves[i];
    if ReservesStand(forms, before) {
      KeysOfStanding(forms, before);
      OneMoreKey(reserves);
    }
  }

  lemma OneMoreKey(reserves: seq<ReserveDraft>)
    requires reserves != [] && KeysDiffer(reserves[..|reserves| - 1])
    requires |Keys(reserves[..|reserves| - 1])| == |reserves| - 1
    requires forall i :: 0 <= i < |reserves| - 1 ==> Keys(reserves[..|reserves| - 1])[i] == Key(reserves[i])
    ensures KeysDiffer(reserves) <==> Key(reserves[|reserves| - 1]) !in Keys(reserves[..|reserves| - 1])
  {
    var n := |reserves| - 1;
    var before := reserves[..n];
    assert forall i :: 0 <= i < n ==> before[i] == reserves[i];
    if Key(reserves[n]) in Keys(before) {
      var i :| 0 <= i < n && Keys(before)[i] == Key(reserves[n]);
      assert Key(reserves[i]) == Key(reserves[n]);
    } else {
      forall i, j | 0 <= i < j < |reserves|
        ensures Key(reserves[i]) != Key(reserves[j])
      {
        if j == n {
          assert Keys(before)[i] in Keys(before);
        } else {
          assert Key(before[i]) != Key(before[j]);
        }
      }
    }
  }

  lemma {:induction false} AllocationsAreFine(forms: Forms, allocations: seq<AllocationDraft>)
    ensures !Blocked(AllocationsProblems(forms, allocations)) <==> AllocationsStand(forms, allocations)
    decreases |allocations|
  {
    if allocations != [] {
      var n := |allocations| - 1;
      AllocationsAreFine(forms, allocations[..n]);
      BlockedInEither(AllocationsProblems(forms, allocations[..n]), AllocationProblems(forms, allocations[n]));
      AllocationIsFine(forms, allocations[n]);
      assert forall i :: 0 <= i < n ==> allocations[..n][i] == allocations[i];
    }
  }

  lemma AllocationIsFine(forms: Forms, allocation: AllocationDraft)
    ensures !Blocked(AllocationProblems(forms, allocation)) <==> AllocationStands(forms, allocation)
  {
    StopBlocks("draft-alloc-no-recipient");
    StopBlocks("draft-alloc-nothing");
    BlockedInEither(if Text.Trim(allocation.recipient) == "" then [Stop("draft-alloc-no-recipient")] else [],
                    if IsNothing(forms.sats(allocation.amount)) then [Stop("draft-alloc-nothing")] else []);
  }

  lemma BasketIsFine(forms: Forms, draft: Draft, found: seq<Problem>)
    requires Named(draft.kind).Basket?
    ensures !Blocked(BasketProblems(forms, draft, found)) <==> !Blocked(found) && KindStands(forms, draft)
  {
    StopBlocks("draft-basket-no-reserves");
    BlockedInEither(found, [Stop("draft-basket-no-reserves")]);
    var all := found + ReservesProblems(forms, draft.reserves);
    BlockedInEither(found, ReservesProblems(forms, draft.reserves));
    StopBlocks("draft-weights-wrong");
    BlockedInEither(all, [Stop("draft-weights-wrong")]);
    ReservesAreFine(forms, draft.reserves);
    if ReservesStand(forms, draft.reserves) {
      KeysOfStanding(forms, draft.reserves);
    }
  }

  lemma TokenIsFine(forms: Forms, draft: Draft, found: seq<Problem>)
    requires Named(draft.kind).Token?
    ensures !Blocked(TokenProblems(forms, draft, found)) <==> !Blocked(found) && KindStands(forms, draft)
  {
    var first := if draft.reserves != [] then [Stop("draft-token-no-reserves")] else [];
    var second := SupplyProblems(WrapSum(Amounts(forms, draft.preallocations)), draft.mintable);
    var third := AllocationsProblems(forms, draft.preallocations);
    BlockedInEither(found, first);
    BlockedInEither(found + first, second);
    BlockedInEither(found + first + second, third);
    StopBlocks("draft-token-no-reserves");
    StopBlocks("draft-supply-none-ever");
    AllocationsAreFine(forms, draft.preallocations);
  }

  lemma NftIsFine(forms: Forms, draft: Draft)
    requires Named(draft.kind).Nft?
    ensures !Blocked(NftProblems(draft)) <==> KindStands(forms, draft)
  {
    var first := if draft.reserves != [] then [Stop("draft-nft-no-reserves")] else [];
    var second := if |draft.preallocations| > 1 then [Stop("draft-nft-one-holder")] else [];
    StopBlocks("draft-nft-no-reserves");
    StopBlocks("draft-nft-one-holder");
    BlockedInEither(first, second);
    BlockedInEither(first + second, [Warn("draft-nft-never-sent")]);
  }

  lemma IdentityIsFine(forms: Forms, draft: Draft)
    ensures !Blocked(IdentityProblems(forms, draft)) <==> IdentityStands(forms, draft)
  {
    StopBlocks("draft-pick-identity");
    StopBlocks("draft-two-names");
    var name := Text.Trim(draft.newName);
    if forms.nameProblem(name).Some? {
      StopBlocks(forms.nameProblem(name).value);
    }
  }

  lemma StartIsFine(forms: Forms, draft: Draft, tip: Height)
    ensures !Blocked(StartProblems(forms, draft, tip)) <==> StartStands(forms, draft, tip)
  {
    var delay := forms.delay(draft.startDelay);
    var first := if delay == 0 then [Stop("draft-start-needed")]
                 else if delay > FAR_AHEAD then [Warn("draft-start-far")] else [];
    var second := if tip + delay > U32_MAX then [Stop("draft-start-past-chain")] else [];
    StopBlocks("draft-start-needed");
    StopBlocks("draft-start-past-chain");
    BlockedInEither(first, second);
  }

  /** A draft is called ready exactly when its identity, its kind's own rules and its start all stand. */
  lemma ReadyExactlyWhen(forms: Forms, draft: Draft, tip: Height)
    ensures Check(forms, draft, tip).ready <==>
              IdentityStands(forms, draft) && KindStands(forms, draft) && StartStands(forms, draft, tip)
  {
    var found := IdentityProblems(forms, draft);
    IdentityIsFine(forms, draft);
    StartIsFine(forms, draft, tip);
    match Named(draft.kind)
    case Basket =>
      BasketIsFine(forms, draft, found);
      BlockedInEither(BasketProblems(forms, draft, found), StartProblems(forms, draft, tip));
    case Nft =>
      NftIsFine(forms, draft);
      BlockedInEither(found, NftProblems(draft));
      BlockedInEither(found + NftProblems(draft), StartProblems(forms, draft, tip));
    case Token =>
      TokenIsFine(forms, draft, found);
      BlockedInEither(TokenProblems(forms, draft, found), StartProblems(forms, draft, tip));
  }

  // ---- what building takes from each entry ----

  predicate CanAllocate(forms: Forms, resolved: map<string, Hash>, allocation: AllocationDraft) {
    forms.sats(allocation.amount).Some? && Text.Trim(allocation.recipient) in resolved
  }

  predicate CanWeigh(forms: Forms, reserve: ReserveDraft) {
    && forms.address(Key(reserve)).Some? && forms.weight(reserve.weight).Some?
    && forms.weight(reserve.weight).value <= I32_MAX
  }

  lemma {:induction false} AllocatesEach(forms: Forms, resolved: map<string, Hash>, allocations: seq<AllocationDraft>)
    ensures var r := AllocateAll(forms, resolved, allocations);
            && (r.Ok? <==> forall i :: 0 <= i < |allocations| ==> CanAllocate(forms, resolved, allocations[i]))
            && (r.Ok? ==> |r.value| == |allocations|)
            && (r.Ok? ==> forall i :: 0 <= i < |allocations| ==>
                  Allocate(forms, resolved, allocations[i]) == Ok(r.value[i]))
  {
    if allocations != [] {
      AllocatesEach(forms, resolved, allocations[1..]);
      assert forall i :: 1 <= i < |allocations| ==> allocations[i] == allocations[1..][i - 1];
    }
  }

  lemma {:induction false} WeighsEach(forms: Forms, reserves: seq<ReserveDraft>)
    ensures var r := WeighAll(forms, reserves);
            && (r.Ok? <==> forall i :: 0 <= i < |reserves| ==> CanWeigh(forms, reserves[i]))
            && (r.Ok? ==> |r.value| == |reserves|)
            && (r.Ok? ==> forall i :: 0 <= i < |reserves| ==> Weigh(forms, reserves[i]) == Ok(r.value[i]))
  {
    if reserves != [] {
      WeighsEach(forms, reserves[1..]);
      assert forall i :: 1 <= i < |reserves| ==> reserves[i] == reserves[1..][i - 1];
    }
  }

  /**
   * What a ready draft still needs before it is a definition: recipients that
   * resolve; for a basket, whose allocations were not looked at, amounts that
   * read, reserves with addresses and weights that fit; for an NFT, a holder.
   */
  lemma ReadyBuildsExactlyWhen(forms: Forms, draft: Draft, tip: Height, resolved: map<string, Hash>)
    requires Check(forms, draft, tip).ready
    ensures DefinitionOf(forms, draft, resolved).Ok? <==>
              && (forall i :: 0 <= i < |draft.preallocations| ==>
                    Text.Trim(draft.preallocations[i].recipient) in resolved)
              && (match Named(draft.kind)
                  case Token => true
                  case Nft => draft.preallocations != []
                  case Basket =>
                    && (forall i :: 0 <= i < |draft.preallocations| ==>
                          forms.sats(draft.preallocations[i].amount).Some?)
                    && (forall i :: 0 <= i < |draft.reserves| ==>
                          && forms.address(Key(draft.reserves[i])).Some?
                          && OrZero(forms.weight(draft.reserves[i].weight)) <= I32_MAX))
  {
    ReadyExactlyWhen(forms, draft, tip);
    AllocatesEach(forms, resolved, draft.preallocations);
    WeighsEach(forms, draft.reserves);
    match Named(draft.kind)
    case Nft =>
    case Token =>
      assert forall i :: 0 <= i < |draft.preallocations| ==> AllocationStands(forms, draft.preallocations[i]);
    case Basket =>
      assert forall i :: 0 <= i < |draft.reserves| ==> ReserveStands(forms, draft.reserves[i]);
  }

  // ---- totals that wrap ----

  lemma {:induction false} WrapsByWholeTurns(s: seq<Units>) returns (turns: nat)
    ensures WrapSum(s) == Sum(s) - turns * 0x1_0000_0000_0000_0000
  {
    if s == [] {
      turns := 0;
    } else {
      turns := WrapsByWholeTurns(s[..|s| - 1]);
      if WrapSum(s[..|s| - 1]) + s[|s| - 1] > I64_MAX {
        turns := turns + 1;
      }
    }
  }

  /** A total is the true one exactly while the true one fits. */
  lemma TotalIsTrueExactlyWhen(s: seq<Units>)
    ensures WrapSum(s) == Sum(s) <==> Sum(s) <= I64_MAX
    ensures ClampToU64(WrapSum(s)) == Sum(s) <==> Sum(s) <= I64_MAX
  {
    var turns := WrapsByWholeTurns(s);
  }

  lemma {:induction false} SumAtMost(s: seq<Units>, most: nat)
    requires forall i :: 0 <= i < |s| ==> s[i] <= most
    ensures Sum(s) <= |s| * most
  {
    if s != [] {
      SumAtMost(s[..|s| - 1], most);
      assert |s| * most == (|s| - 1) * most + most;
    }
  }

  lemma SmallWeightsFit(s: seq<Units>)
    requires |s| <= 0x1_0000_0000 && forall i :: 0 <= i < |s| ==> s[i] <= I32_MAX
    ensures Sum(s) <= I64_MAX
  {
    SumAtMost(s, I32_MAX);
    assert |s| * I32_MAX <= 0x1_0000_0000 * I32_MAX;
  }

  lemma {:induction false} NoneExceedsTheSum(s: seq<Units>, i: nat)
    requires i < |s|
    ensures s[i] <= Sum(s)
    decreases |s|
  {
    if i < |s| - 1 {
      NoneExceedsTheSum(s[..|s| - 1], i);
    }
  }

  lemma {:induction false} TypedAt(forms: Forms, reserves: seq<ReserveDraft>)
    ensures |WeightsTyped(forms, reserves)| == |reserves|
    ensures forall i :: 0 <= i < |reserves| ==>
              WeightsTyped(forms, reserves)[i] == OrZero(forms.weight(reserves[i].weight))
    decreases |reserves|
  {
    if reserves != [] {
      TypedAt(forms, reserves[..|reserves| - 1]);
    }
  }

  /**
   * When the true total of a ready basket's weights fits 64 bits it is one, and
   * each weight fits the field it is recorded in. Up to four thousand million
   * reserves, weights that all fit have a total that does.
   */
  lemma WeightsFitExactlyWhenTheirTotalDoes(forms: Forms, draft: Draft, tip: Height)
    requires Check(forms, draft, tip).ready && Named(draft.kind).Basket?
    ensures var weights := WeightsTyped(forms, draft.reserves);
            && (Sum(weights) <= I64_MAX <==> Sum(weights) == ONE)
            && (Sum(weights) <= I64_MAX ==> forall i :: 0 <= i < |weights| ==> weights[i] <= I32_MAX)
            && ((|draft.reserves| <= 0x1_0000_0000 && forall i :: 0 <= i < |weights| ==> weights[i] <= I32_MAX) ==>
                  Sum(weights) <= I64_MAX)
  {
    ReadyExactlyWhen(forms, draft, tip);
    var weights := WeightsTyped(forms, draft.reserves);
    TypedAt(forms, draft.reserves);
    TotalIsTrueExactlyWhen(weights);
    if Sum(weights) <= I64_MAX {
      forall i | 0 <= i < |weights|
        ensures weights[i] <= I32_MAX
      {
        NoneExceedsTheSum(weights, i);
      }
    } else if |weights| <= 0x1_0000_0000 && forall i :: 0 <= i < |weights| ==> weights[i] <= I32_MAX {
      SmallWeightsFit(weights);
    }
  }

  /** A spelling with nothing to trim. */
  predicate Spelled(s: string) {
    s != "" && Text.Trim(s) == s
  }

  /** A basket of three enormous weights, whose total comes round to exactly one. */
  function Enormous(x: string, y: string, z: string): Draft {
    Draft("a", "", "basket", false, "20",
          [ReserveDraft(x, "", "1e30"), ReserveDraft(y, "", "1e30"), ReserveDraft(z, "", "100.000002")], [])
  }

  /** So whatever three reserves it has, a ready basket may have no definition: its weights are too large to record. */
  lemma ReadyBasketWithNoDefinition(forms: Forms, resolved: map<string, Hash>, x: string, y: string, z: string)
    requires forms.weight("1e30") == Some(I64_MAX) && forms.weight("100.000002") == Some(100_000_002)
    requires forms.delay("20") == 20 && forms.address(x).Some?
    requires Spelled(x) && Spelled(y) && Spelled(z) && x != y && y != z && x != z
    ensures Check(forms, Enormous(x, y, z), 1000).ready
    ensures DefinitionOf(forms, Enormous(x, y, z), resolved) == Err(WeightTooLarge(Enormous(x, y, z).reserves[0]))
  {
    var draft := Enormous(x, y, z);
    ReadyExactlyWhen(forms, draft, 1000);
    ExampleIdentity(forms, draft);
    ThreeWeights(forms, draft.reserves);
    EnormousKeys(draft.reserves, x, y, z);
    FirstRefused(forms, draft.reserves);
    assert AllocateAll(forms, resolved, draft.preallocations) == Ok([]);
  }

  lemma EnormousKeys(reserves: seq<ReserveDraft>, x: string, y: string, z: string)
    requires reserves == Enormous(x, y, z).reserves
    requires Spelled(x) && Spelled(y) && Spelled(z) && x != y && y != z && x != z
    ensures Key(reserves[0]) == x && KeysDiffer(reserves)
    ensures forall i :: 0 <= i < |reserves| ==> Key(reserves[i]) != ""
  {}

  lemma FirstRefused(forms: Forms, reserves: seq<ReserveDraft>)
    requires reserves != [] && forms.address(Key(reserves[0])).Some?
    requires forms.weight(reserves[0].weight).Some? && forms.weight(reserves[0].weight).value > I32_MAX
    ensures WeighAll(forms, reserves) == Err(WeightTooLarge(reserves[0]))
  {
  }

  lemma NotSpaces(s: string)
    requires |s| == 1 && !Text.IsSpace(s[0])
    ensures Text.Trim(s) == s
  {
  }

  lemma ExampleIdentity(forms: Forms, draft: Draft)
    requires draft.identity == "a" && draft.newName == ""
    ensures IdentityStands(forms, draft)
  {
    NotSpaces("a");
  }

  lemma TwoWeights(forms: Forms, reserves: seq<ReserveDraft>)
    requires |reserves| == 2
    ensures WrapSum(WeightsTyped(forms, reserves))
              == Plus(OrZero(forms.weight(reserves[0].weight)), OrZero(forms.weight(reserves[1].weight)))
  {
    TypedAt(forms, reserves);
    var w := WeightsTyped(forms, reserves);
    WrapSumOneMore([], w[0]);
    WrapSumOneMore([w[0]], w[1]);
    assert w == [w[0]] + [w[1]];
    assert [] + [w[0]] == [w[0]];
  }

  lemma ThreeWeights(forms: Forms, reserves: seq<ReserveDraft>)
    requires |reserves| == 3
    ensures WrapSum(WeightsTyped(forms, reserves))
              == Plus(Plus(OrZero(forms.weight(reserves[0].weight)), OrZero(forms.weight(reserves[1].weight))),
                      OrZero(forms.weight(reserves[2].weight)))
  {
    TwoWeights(forms, reserves[..2]);
  }

  // ---- what was shown is what is built ----

  /** A currency and a weight are the reserve's own, the weight positive and small enough to record. */
  predicate Carries(forms: Forms, reserve: ReserveDraft, currency: Hash, weight: int) {
    && forms.address(Key(reserve)).Some? && forms.address(Key(reserve)).value.hash == currency
    && 0 < weight <= I32_MAX && forms.weight(reserve.weight) == Some(weight)
  }

  /**
   * A ready basket's definition: a currency and a weight for each reserve, in
   * order, from reserves no two of which are spelled alike; each weight
   * positive, and together exactly one; the supply declared is the one shown.
   */
  lemma BasketIsAsShown(forms: Forms, draft: Draft, tip: Height, resolved: map<string, Hash>)
    requires Check(forms, draft, tip).ready && Named(draft.kind).Basket?
    requires DefinitionOf(forms, draft, resolved).Ok?
    ensures var d := DefinitionOf(forms, draft, resolved).value;
            && d.Divisible? && d.fractional
            && |d.currencies| == |d.weights| == |draft.reserves| > 0
            && KeysDiffer(draft.reserves)
            && (forall i :: 0 <= i < |draft.reserves| ==>
                  Carries(forms, draft.reserves[i], d.currencies[i], d.weights[i]))
            && d.weights == WeightsTyped(forms, draft.reserves)
            && Check(forms, draft, tip).weightTotal == ONE
            && (Sum(d.weights) == ONE <==> Sum(d.weights) <= I64_MAX)
            && (|draft.reserves| <= 0x1_0000_0000 ==> Sum(d.weights) == ONE)
            && d.initialSupply == Check(forms, draft, tip).supply
  {
    ReadyExactlyWhen(forms, draft, tip);
    WeighedAsTyped(forms, draft.reserves);
    WeightsFitExactlyWhenTheirTotalDoes(forms, draft, tip);
  }

  lemma WeighedAsTyped(forms: Forms, reserves: seq<ReserveDraft>)
    requires ReservesStand(forms, reserves) && WeighAll(forms, reserves).Ok?
    ensures var pairs := WeighAll(forms, reserves).value;
            && |pairs| == |reserves| && Seconds(pairs) == WeightsTyped(forms, reserves)
            && (forall i :: 0 <= i < |reserves| ==> Carries(forms, reserves[i], Firsts(pairs)[i], Seconds(pairs)[i]))
  {
    WeighsEach(forms, reserves);
    TypedAt(forms, reserves);
    var pairs := WeighAll(forms, reserves).value;
    forall i | 0 <= i < |reserves|
      ensures Carries(forms, reserves[i], pairs[i].0, pairs[i].1)
    {
      assert ReserveStands(forms, reserves[i]) && CanWeigh(forms, reserves[i]);
      assert Weigh(forms, reserves[i]) == Ok(pairs[i]);
    }
  }

  function TotalPaid(paid: seq<Preallocation>): nat {
    if paid == [] then 0 else TotalPaid(paid[..|paid| - 1]) + paid[|paid| - 1].amount
  }

  lemma {:induction false} PaidIsTheSum(forms: Forms, allocations: seq<AllocationDraft>, paid: seq<Preallocation>)
    requires |paid| == |allocations|
    requires forall i :: 0 <= i < |paid| ==> forms.sats(allocations[i].amount) == Some(paid[i].amount)
    ensures TotalPaid(paid) == Sum(Amounts(forms, allocations))
    decreases |paid|
  {
    if paid != [] {
      var n := |paid| - 1;
      PaidIsTheSum(forms, allocations[..n], paid[..n]);
      var before := Amounts(forms, allocations[..n]);
      assert forms.sats(allocations[n].amount) == Some(paid[n].amount);
      assert Amounts(forms, allocations)[..|before|] == before;
    }
  }

  /** What a divisible currency pays out is the supply that was shown exactly when it fits 64 bits. */
  lemma PaidOutIsShownExactlyWhen(forms: Forms, draft: Draft, tip: Height, resolved: map<string, Hash>)
    requires !Named(draft.kind).Nft? && DefinitionOf(forms, draft, resolved).Ok?
    ensures var d := DefinitionOf(forms, draft, resolved).value;
            && d.Divisible? && |d.preallocations| == |draft.preallocations|
            && (forall i :: 0 <= i < |d.preallocations| ==>
                  && Text.Trim(draft.preallocations[i].recipient) in resolved
                  && d.preallocations[i].recipient == resolved[Text.Trim(draft.preallocations[i].recipient)]
                  && forms.sats(draft.preallocations[i].amount) == Some(d.preallocations[i].amount))
            && (TotalPaid(d.preallocations) == Check(forms, draft, tip).supply <==>
                TotalPaid(d.preallocations) <= I64_MAX)
  {
    AllocatesEach(forms, resolved, draft.preallocations);
    var paid := AllocateAll(forms, resolved, draft.preallocations).value;
    forall i | 0 <= i < |paid|
      ensures forms.sats(draft.preallocations[i].amount) == Some(paid[i].amount)
      ensures Text.Trim(draft.preallocations[i].recipient) in resolved
      ensures paid[i].recipient == resolved[Text.Trim(draft.preallocations[i].recipient)]
    {
      assert Allocate(forms, resolved, draft.preallocations[i]) == Ok(paid[i]);
    }
    PaidIsTheSum(forms, draft.preallocations, paid);
    TotalIsTrueExactlyWhen(Amounts(forms, draft.preallocations));
  }

  /**
   * Each permanent decision of a draft is the one its definition records: what
   * kind it is, whether more can ever be minted, who holds the one of a kind;
   * and what is not a basket has no reserves to speak of.
   */
  lemma DecisionsAreRecorded(forms: Forms, draft: Draft, resolved: map<string, Hash>)
    requires DefinitionOf(forms, draft, resolved).Ok?
    ensures var d := DefinitionOf(forms, draft, resolved).value;
            && (d.OneOfAKind? <==> draft.kind == "nft")
            && (d.OneOfAKind? ==> |draft.preallocations| == 1
                                  && Text.Trim(draft.preallocations[0].recipient) in resolved
                                  && d.holder == resolved[Text.Trim(draft.preallocations[0].recipient)])
            && (d.Divisible? ==>
                  && (d.proofProtocol == CENTRALIZED <==> draft.mintable) && (d.proofProtocol == 1 <==> !draft.mintable)
                  && (d.fractional <==> draft.kind == "basket")
                  && (!d.fractional ==> d.currencies == [] && d.weights == [] && d.initialSupply == 0))
  {}

  /** What is refused is refused for the first allocation, or reserve, that cannot be used. */
  lemma {:induction false} RefusalIsTheFirst(forms: Forms, resolved: map<string, Hash>,
                                             allocations: seq<AllocationDraft>)
    returns (i: nat)
    requires AllocateAll(forms, resolved, allocations).Err?
    ensures i < |allocations|
    ensures Allocate(forms, resolved, allocations[i]) == Err(AllocateAll(forms, resolved, allocations).error)
    ensures forall j :: 0 <= j < i ==> CanAllocate(forms, resolved, allocations[j])
  {
    if Allocate(forms, resolved, allocations[0]).Err? {
      i := 0;
    } else {
      i := RefusalIsTheFirst(forms, resolved, allocations[1..]);
      i := i + 1;
      assert forall j :: 1 <= j < i ==> allocations[j] == allocations[1..][j - 1];
    }
  }

  /** And says which thing is wrong with it, the first that is. */
  lemma RefusalsSayWhy(forms: Forms, resolved: map<string, Hash>, allocation: AllocationDraft, reserve: ReserveDraft)
    ensures var (key, r) := (Text.Trim(allocation.recipient), Allocate(forms, resolved, allocation));
            && (r == Err(NotANumber(key)) <==> forms.sats(allocation.amount).None?)
            && (r == Err(Unresolved(key)) <==> forms.sats(allocation.amount).Some? && key !in resolved)
    ensures var r := Weigh(forms, reserve);
            && (r == Err(NoAddress(reserve)) <==> forms.address(Key(reserve)).None?)
            && (r == Err(NoWeight(reserve)) <==>
                  forms.address(Key(reserve)).Some? && forms.weight(reserve.weight).None?)
            && (r == Err(WeightTooLarge(reserve)) <==>
                  forms.address(Key(reserve)).Some? && OrZero(forms.weight(reserve.weight)) > I32_MAX)
  {}

  lemma {:induction false} ReserveRefusedIsTheFirst(forms: Forms, reserves: seq<ReserveDraft>) returns (i: nat)
    requires WeighAll(forms, reserves).Err?
    ensures i < |reserves| && Weigh(forms, reserves[i]) == Err(WeighAll(forms, reserves).error)
    ensures forall j :: 0 <= j < i ==> CanWeigh(forms, reserves[j])
  {
    if Weigh(forms, reserves[0]).Err? {
      i := 0;
    } else {
      i := ReserveRefusedIsTheFirst(forms, reserves[1..]);
      i := i + 1;
      assert forall j :: 1 <= j < i ==> reserves[j] == reserves[1..][j - 1];
    }
  }

  /** A ready currency starts where the form shows, after the tip, as many blocks on as were typed. */
  lemma StartIsAsTyped(forms: Forms, draft: Draft, tip: Height)
    requires Check(forms, draft, tip).ready
    ensures tip < Check(forms, draft, tip).start == tip + forms.delay(draft.startDelay)
  {
    ReadyExactlyWhen(forms, draft, tip);
  }

  /** A ready token that can never be minted again pays something out, and nothing to nobody. */
  lemma FixedTokenHasASupply(forms: Forms, draft: Draft, tip: Height, resolved: map<string, Hash>)
    requires Check(forms, draft, tip).ready && Named(draft.kind).Token? && !draft.mintable
    requires DefinitionOf(forms, draft, resolved).Ok?
    ensures var d := DefinitionOf(forms, draft, resolved).value;
            && d.Divisible? && d.proofProtocol == 1 && d.currencies == [] && d.weights == []
            && (forall i :: 0 <= i < |d.preallocations| ==> d.preallocations[i].amount > 0)
            && TotalPaid(d.preallocations) > 0
  {
    ReadyExactlyWhen(forms, draft, tip);
    AllocatesEach(forms, resolved, draft.preallocations);
    var paid := AllocateAll(forms, resolved, draft.preallocations).value;
    forall i | 0 <= i < |paid|
      ensures forms.sats(draft.preallocations[i].amount) == Some(paid[i].amount) && paid[i].amount > 0
    {
      assert Allocate(forms, resolved, draft.preallocations[i]) == Ok(paid[i]);
      assert AllocationStands(forms, draft.preallocations[i]);
    }
    assert draft.preallocations != [];
    assert paid != [] && paid[|paid| - 1].amount > 0;
  }

  // ---- one currency twice ----

  /** No address has two spellings. */
  ghost predicate OneSpelling(forms: Forms) {
    forall a, b :: forms.address(a).Some? && forms.address(a) == forms.address(b) ==> a == b
  }

  /** Two reserves are addresses of different kinds with the same bytes. */
  predicate SameBytes(forms: Forms, a: ReserveDraft, b: ReserveDraft) {
    var (p, q) := (forms.address(Key(a)), forms.address(Key(b)));
    p.Some? && q.Some? && p.value.version != q.value.version && p.value.hash == q.value.hash
  }

  predicate AllDiffer(currencies: seq<Hash>) {
    forall i, j :: 0 <= i < j < |currencies| ==> currencies[i] != currencies[j]
  }

  predicate NoneSameBytes(forms: Forms, reserves: seq<ReserveDraft>) {
    forall i, j :: 0 <= i < j < |reserves| ==> !SameBytes(forms, reserves[i], reserves[j])
  }

  /**
   * Spelled apart is a different currency, exactly as long as no two reserves are
   * one currency under two kinds of address.
   */
  lemma ReservesAreDifferentExactlyWhen(forms: Forms, draft: Draft, tip: Height, resolved: map<string, Hash>)
    requires Check(forms, draft, tip).ready && Named(draft.kind).Basket?
    requires DefinitionOf(forms, draft, resolved).Ok? && OneSpelling(forms)
    ensures var d := DefinitionOf(forms, draft, resolved).value;
            && d.Divisible? && |d.currencies| == |draft.reserves|
            && (AllDiffer(d.currencies) <==> NoneSameBytes(forms, draft.reserves))
  {
    BasketIsAsShown(forms, draft, tip, resolved);
    var d := DefinitionOf(forms, draft, resolved).value;
    AlikeExactlyWhenSameBytes(forms, draft.reserves, d.currencies, d.weights);
  }

  lemma AlikeExactlyWhenSameBytes(forms: Forms, reserves: seq<ReserveDraft>, currencies: seq<Hash>, weights: seq<int>)
    requires OneSpelling(forms) && KeysDiffer(reserves) && |currencies| == |weights| == |reserves|
    requires forall i :: 0 <= i < |reserves| ==> Carries(forms, reserves[i], currencies[i], weights[i])
    ensures AllDiffer(currencies) <==> NoneSameBytes(forms, reserves)
  {
    forall i, j | 0 <= i < j < |reserves|
      ensures currencies[i] == currencies[j] <==> SameBytes(forms, reserves[i], reserves[j])
    {
      assert Key(reserves[i]) != Key(reserves[j]);
      assert Carries(forms, reserves[i], currencies[i], weights[i]);
      assert Carries(forms, reserves[j], currencies[j], weights[j]);
      SameHashSameVersion(forms, reserves[i], reserves[j]);
    }
  }

  lemma SameHashSameVersion(forms: Forms, a: ReserveDraft, b: ReserveDraft)
    requires OneSpelling(forms) && Key(a) != Key(b)
    requires forms.address(Key(a)).Some? && forms.address(Key(b)).Some?
    ensures forms.address(Key(a)).value.hash == forms.address(Key(b)).value.hash <==> SameBytes(forms, a, b)
  {}

  predicate OneVersion(forms: Forms, reserves: seq<ReserveDraft>) {
    forall i, j :: 0 <= i < j < |reserves|
                   && forms.address(Key(reserves[i])).Some? && forms.address(Key(reserves[j])).Some?
      ==> forms.address(Key(reserves[i])).value.version == forms.address(Key(reserves[j])).value.version
  }

  /** Which nothing can be when every reserve is written as the same kind of address. */
  lemma ReservesAreDifferentCurrencies(forms: Forms, draft: Draft, tip: Height, resolved: map<string, Hash>)
    requires Check(forms, draft, tip).ready && Named(draft.kind).Basket?
    requires DefinitionOf(forms, draft, resolved).Ok?
    requires OneSpelling(forms) && OneVersion(forms, draft.reserves)
    ensures var d := DefinitionOf(forms, draft, resolved).value;
            d.Divisible? && AllDiffer(d.currencies)
  {
    ReservesAreDifferentExactlyWhen(forms, draft, tip, resolved);
  }

  /** One currency written as two kinds of address. */
  function Doubled(a: string, b: string): Draft {
    Draft("a", "", "basket", false, "20", [ReserveDraft(a, "", "50"), ReserveDraft(b, "", "50")], [])
  }

  /**
   * Two spellings may carry the same bytes, one for each kind of address: a
   * ready basket then holds one currency twice.
   */
  lemma OneCurrencyTwice(forms: Forms, hash: Hash, resolved: map<string, Hash>, a: string, b: string)
    requires forms.weight("50") == Some(50_000_000) && forms.delay("20") == 20
    requires Spelled(a) && Spelled(b) && a != b
    requires forms.address(a).Some? && forms.address(a).value.hash == hash
    requires forms.address(b).Some? && forms.address(b).value.hash == hash
    ensures Check(forms, Doubled(a, b), 1000).ready
    ensures DefinitionOf(forms, Doubled(a, b), resolved).Ok?
    ensures DefinitionOf(forms, Doubled(a, b), resolved).value.currencies == [hash, hash]
  {
    DoubledIsReady(forms, a, b);
    DoubledReserves(forms, hash, a, b);
    assert AllocateAll(forms, resolved, Doubled(a, b).preallocations) == Ok([]);
    assert Firsts([(hash, 50_000_000), (hash, 50_000_000)]) == [hash, hash];
  }

  lemma DoubledIsReady(forms: Forms, a: string, b: string)
    requires forms.weight("50") == Some(50_000_000) && forms.delay("20") == 20
    requires Spelled(a) && Spelled(b) && a != b
    ensures Check(forms, Doubled(a, b), 1000).ready
  {
    var reserves := Doubled(a, b).reserves;
    ReadyExactlyWhen(forms, Doubled(a, b), 1000);
    ExampleIdentity(forms, Doubled(a, b));
    TwoWeights(forms, reserves);
    DoubledStand(forms, a, b);
  }

  lemma DoubledStand(forms: Forms, a: string, b: string)
    requires forms.weight("50") == Some(50_000_000) && Spelled(a) && Spelled(b) && a != b
    ensures ReservesStand(forms, Doubled(a, b).reserves)
  {
    var reserves := Doubled(a, b).reserves;
    assert ReserveStands(forms, reserves[0]) && ReserveStands(forms, reserves[1]);
  }

  lemma DoubledReserves(forms: Forms, hash: Hash, a: string, b: string)
    requires forms.weight("50") == Some(50_000_000) && Spelled(a) && Spelled(b)
    requires forms.address(a).Some? && forms.address(a).value.hash == hash
    requires forms.address(b).Some? && forms.address(b).value.hash == hash
    ensures WeighAll(forms, Doubled(a, b).reserves) == Ok([(hash, 50_000_000), (hash, 50_000_000)])
  {
    var reserves := Doubled(a, b).reserves;
    WeighsEach(forms, reserves);
    assert CanWeigh(forms, reserves[0]) && CanWeigh(forms, reserves[1]);
    var pair := (hash, 50_000_000);
    assert Weigh(forms, reserves[0]) == Ok(pair) && Weigh(forms, reserves[1]) == Ok(pair);
    var pairs := WeighAll(forms, reserves).value;
    assert |pairs| == 2 && pairs[0] == pair && pairs[1] == pair;
    assert pairs == [pair, pair];
  }
}
