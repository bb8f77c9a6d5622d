/** What is wrong with a draft is named: each problem is listed exactly when it is one. */
module DraftProblems {
  import opened Wrappers
  import opened Currency
  import opened CurrencyTheorems
  import Text

  // ---- the reserves ----

  predicate SomeUnnamed(reserves: seq<ReserveDraft>) {
    exists i :: 0 <= i < |reserves| && Key(reserves[i]) == ""
  }

  /** A reserve names what one before it does. */
  predicate SomeTwice(reserves: seq<ReserveDraft>) {
    exists i, j :: 0 <= i < j < |reserves| && Key(reserves[i]) == Key(reserves[j]) != ""
  }

  predicate SomeWeightless(forms: Forms, reserves: seq<ReserveDraft>) {
    exists i :: 0 <= i < |reserves| && Weightless(forms, reserves[i])
  }

  predicate Weightless(forms: Forms, reserve: ReserveDraft) {
    Key(reserve) != "" && (forms.weight(reserve.weight) == None || forms.weight(reserve.weight) == Some(0))
  }

  lemma {:induction false} KeysAreTheNames(reserves: seq<ReserveDraft>, key: string)
    ensures key in Keys(reserves) <==> key != "" && exists i :: 0 <= i < |reserves| && Key(reserves[i]) == key
    decreases |reserves|
  {
    if reserves != [] {
      var n := |reserves| - 1;
      KeysAreTheNames(reserves[..n], key);
      if i :| 0 <= i < |reserves| && Key(reserves[i]) == key {
        assert i < n ==> Key(reserves[..n][i]) == key;
      }
    }
  }

  lemma TwiceGrows(reserves: seq<ReserveDraft>)
    requires reserves != []
    ensures var n := |reserves| - 1;
            SomeTwice(reserves) <==> SomeTwice(reserves[..n]) || Key(reserves[n]) in Keys(reserves[..n])
  {
    var n := |reserves| - 1;
    var before := reserves[..n];
    KeysAreTheNames(before, Key(reserves[n]));
    if i, j :| 0 <= i < j < |reserves| && Key(reserves[i]) == Key(reserves[j]) != "" {
      if j < n {
        assert Key(before[i]) == Key(before[j]) != "";
      } else {
        assert Key(before[i]) == Key(reserves[n]);
      }
    }
    if i, j :| 0 <= i < j < |before| && Key(before[i]) == Key(before[j]) != "" {
      assert Key(reserves[i]) == Key(reserves[j]) != "";
    }
    if Key(reserves[n]) in Keys(before) {
      var i :| 0 <= i < n && Key(before[i]) == Key(reserves[n]);
      assert Key(reserves[i]) == Key(reserves[n]) != "";
    }
  }

  lemma SomeGrow(forms: Forms, reserves: seq<ReserveDraft>)
    requires reserves != []
    ensures var n := |reserves| - 1;
            && (SomeUnnamed(reserves) <==> SomeUnnamed(reserves[..n]) || Key(reserves[n]) == "")
            && (SomeWeightless(forms, reserves) <==>
                  SomeWeightless(forms, reserves[..n]) || Weightless(forms, reserves[n]))
  {
    var n := |reserves| - 1;
    if i :| 0 <= i < n && Key(reserves[..n][i]) == "" {
      assert Key(reserves[i]) == "";
    }
    if i :| 0 <= i < n && Weightless(forms, reserves[..n][i]) {
      assert Weightless(forms, reserves[i]);
    }
    if i :| 0 <= i < |reserves| && Key(reserves[i]) == "" {
      assert i < n ==> Key(reserves[..n][i]) == "";
    }
    if i :| 0 <= i < |reserves| && Weightless(forms, reserves[i]) {
      assert i < n ==> Weightless(forms, reserves[..n][i]);
    }
  }

  /** Each problem the reserves have is named, and only those they have. */
  lemma {:induction false} ReserveProblemsAreNamed(forms: Forms, reserves: seq<ReserveDraft>)
    ensures var found := ReservesProblems(forms, reserves);
            && (Stop("draft-reserve-no-currency") in found <==> SomeUnnamed(reserves))
            && (Stop("draft-reserve-twice") in found <==> SomeTwice(reserves))
            && (Stop("draft-reserve-no-weight") in found <==> SomeWeightless(forms, reserves))
    decreases |reserves|
  {
    if reserves != [] {
      var n := |reserves| - 1;
      ReserveProblemsAreNamed(forms, reserves[..n]);
      TwiceGrows(reserves);
      SomeGrow(forms, reserves);
      KeysAreTheNames(reserves[..n], "");
      OneReserve(forms, Keys(reserves[..n]), reserves[n]);
    }
  }

  lemma Codes()
    ensures "draft-reserve-no-currency" != "draft-reserve-twice" && "draft-reserve-twice" != "draft-reserve-no-weight"
    ensures "draft-reserve-no-currency" != "draft-reserve-no-weight"
    ensures "draft-alloc-no-recipient" != "draft-alloc-nothing"
  {
    assert |"draft-reserve-no-currency"| == 25 && |"draft-reserve-twice"| == 19 && |"draft-reserve-no-weight"| == 23;
    assert |"draft-alloc-no-recipient"| == 24 && |"draft-alloc-nothing"| == 19;
  }

  lemma OneReserve(forms: Forms, seen: seq<string>, reserve: ReserveDraft)
    requires "" !in seen
    ensures var found := ReserveProblems(forms, seen, reserve);
            && (Stop("draft-reserve-no-currency") in found <==> Key(reserve) == "")
            && (Stop("draft-reserve-twice") in found <==> Key(reserve) in seen)
            && (Stop("draft-reserve-no-weight") in found <==> Weightless(forms, reserve))
  {
    Codes();
  }

  lemma {:induction false} ReserveProblemsAreThese(forms: Forms, reserves: seq<ReserveDraft>)
    ensures forall p :: p in ReservesProblems(forms, reserves) ==>
              p in {Stop("draft-reserve-no-currency"), Stop("draft-reserve-twice"), Stop("draft-reserve-no-weight")}
    decreases |reserves|
  {
    if reserves != [] {
      ReserveProblemsAreThese(forms, reserves[..|reserves| - 1]);
    }
  }

  lemma BasketCodes()
    ensures "draft-weights-wrong" != "draft-reserve-no-currency" && "draft-weights-wrong" != "draft-reserve-no-weight"
    ensures "draft-weights-wrong" != "draft-reserve-twice" && "draft-weights-wrong" != "draft-basket-no-reserves"
    ensures "draft-basket-no-reserves" != "draft-reserve-no-currency"
    ensures "draft-basket-no-reserves" != "draft-reserve-no-weight"
    ensures "draft-basket-no-reserves" != "draft-reserve-twice"
  {
    assert "draft-weights-wrong"[6] == 'w' && "draft-reserve-twice"[6] == 'r' && "draft-basket-no-reserves"[6] == 'b';
    assert "draft-reserve-no-currency"[6] == 'r' && "draft-reserve-no-weight"[6] == 'r';
  }

  /**
   * A basket with no reserves is told so; weights are called wrong when nothing
   * else is and they do not come to one.
   */
  lemma BasketProblemsAreNamed(forms: Forms, draft: Draft, found: seq<Problem>)
    requires Stop("draft-basket-no-reserves") !in found && Stop("draft-weights-wrong") !in found
    ensures var all := BasketProblems(forms, draft, found);
            && found <= all
            && (Stop("draft-basket-no-reserves") in all <==> draft.reserves == [])
            && (Stop("draft-weights-wrong") in all <==>
                  && draft.reserves != [] && !Blocked(found) && ReservesStand(forms, draft.reserves)
                  && WrapSum(WeightsTyped(forms, draft.reserves)) != ONE)
  {
    BasketCodes();
    ReserveProblemsAreThese(forms, draft.reserves);
    ReservesAreFine(forms, draft.reserves);
    BlockedInEither(found, ReservesProblems(forms, draft.reserves));
    if ReservesStand(forms, draft.reserves) {
      KeysOfStanding(forms, draft.reserves);
    }
  }

  // ---- the allocations, the supply and the start ----

  predicate Unaddressed(allocation: AllocationDraft) {
    Text.Trim(allocation.recipient) == ""
  }

  predicate Worthless(forms: Forms, allocation: AllocationDraft) {
    forms.sats(allocation.amount) == None || forms.sats(allocation.amount) == Some(0)
  }

  predicate SomeUnaddressed(allocations: seq<AllocationDraft>) {
    exists i :: 0 <= i < |allocations| && Unaddressed(allocations[i])
  }

  predicate SomeWorthless(forms: Forms, allocations: seq<AllocationDraft>) {
    exists i :: 0 <= i < |allocations| && Worthless(forms, allocations[i])
  }

  lemma SomeAllocationsGrow(forms: Forms, allocations: seq<AllocationDraft>)
    requires allocations != []
    ensures var (before, last) := (allocations[..|allocations| - 1], allocations[|allocations| - 1]);
            && (SomeUnaddressed(allocations) <==> SomeUnaddressed(before) || Unaddressed(last))
            && (SomeWorthless(forms, allocations) <==> SomeWorthless(forms, before) || Worthless(forms, last))
  {
    var before := allocations[..|allocations| - 1];
    assert forall i :: 0 <= i < |before| ==> before[i] == allocations[i];
    if i :| 0 <= i < |before| && Unaddressed(before[i]) {
      assert Unaddressed(allocations[i]);
    }
    if i :| 0 <= i < |before| && Worthless(forms, before[i]) {
      assert Worthless(forms, allocations[i]);
    }
  }

  lemma OneAllocation(forms: Forms, allocation: AllocationDraft)
    ensures var found := AllocationProblems(forms, allocation);
            && (Stop("draft-alloc-no-recipient") in found <==> Unaddressed(allocation))
            && (Stop("draft-alloc-nothing") in found <==> Worthless(forms, allocation))
            && (forall p :: p in found ==> p in {Stop("draft-alloc-no-recipient"), Stop("draft-alloc-nothing")})
  {
    Codes();
  }

  /** An allocation to nobody, and one of nothing, each is named, and nothing else is. */
  lemma {:induction false} AllocationProblemsAreNamed(forms: Forms, allocations: seq<AllocationDraft>)
    ensures var found := AllocationsProblems(forms, allocations);
            && (Stop("draft-alloc-no-recipient") in found <==> SomeUnaddressed(allocations))
            && (Stop("draft-alloc-nothing") in found <==> SomeWorthless(forms, allocations))
            && (forall p :: p in found ==> p in {Stop("draft-alloc-no-recipient"), Stop("draft-alloc-nothing")})
    decreases |allocations|
  {
    if allocations != [] {
      var n := |allocations| - 1;
      AllocationProblemsAreNamed(forms, allocations[..n]);
      OneAllocation(forms, allocations[n]);
      SomeAllocationsGrow(forms, allocations);
    }
  }

  lemma TokenCodes()
    ensures "draft-supply-none-ever" != "draft-token-no-reserves" && "draft-supply-none-ever" != "draft-alloc-nothing"
    ensures "draft-supply-none-ever" != "draft-alloc-no-recipient" && "draft-token-no-reserves" != "draft-alloc-nothing"
    ensures "draft-token-no-reserves" != "draft-alloc-no-recipient"
  {
    assert "draft-supply-none-ever"[6] == 's' && "draft-token-no-reserves"[6] == 't';
    assert "draft-alloc-nothing"[6] == 'a' && "draft-alloc-no-recipient"[6] == 'a';
  }

  lemma InParts(p: Problem, a: seq<Problem>, b: seq<Problem>, c: seq<Problem>)
    ensures p in [] + a + b + c <==> p in a || p in b || p in c
  {}

  lemma SupplyIsNamed(supply: int, mintable: bool)
    ensures var found := SupplyProblems(supply, mintable);
            && (Stop("draft-supply-none-ever") in found <==> supply == 0 && !mintable)
            && (Warn("draft-supply-mint-later") in found <==> supply == 0 && mintable)
            && (forall p :: p in found ==> p in {Stop("draft-supply-none-ever"), Warn("draft-supply-mint-later")})
  {}

  /**
   * A token with reserves, or with a supply of nothing for ever, is told so; one
   * that may be minted later is only warned.
   */
  lemma TokenProblemsAreNamed(forms: Forms, draft: Draft)
    ensures var found := TokenProblems(forms, draft, []);
            var none := WrapSum(Amounts(forms, draft.preallocations)) == 0;
            && (Stop("draft-token-no-reserves") in found <==> draft.reserves != [])
            && (Stop("draft-supply-none-ever") in found <==> none && !draft.mintable)
            && (Warn("draft-supply-mint-later") in found <==> none && draft.mintable)
  {
    var supply := WrapSum(Amounts(forms, draft.preallocations));
    var first := if draft.reserves != [] then [Stop("draft-token-no-reserves")] else [];
    var (second, third) := (SupplyProblems(supply, draft.mintable), AllocationsProblems(forms, draft.preallocations));
    TokenCodes();
    SupplyIsNamed(supply, draft.mintable);
    AllocationProblemsAreNamed(forms, draft.preallocations);
    InParts(Stop("draft-token-no-reserves"), first, second, third);
    InParts(Stop("draft-supply-none-ever"), first, second, third);
    InParts(Warn("draft-supply-mint-later"), first, second, third);
  }

  /** A start is needed, far, or past the last height there is, each said exactly when it is so. */
  lemma StartProblemsAreNamed(forms: Forms, draft: Draft, tip: Height)
    ensures var (found, delay) := (StartProblems(forms, draft, tip), forms.delay(draft.startDelay));
            && (Stop("draft-start-needed") in found <==> delay == 0)
            && (Warn("draft-start-far") in found <==> delay > FAR_AHEAD)
            && (Stop("draft-start-past-chain") in found <==> tip + delay > U32_MAX)
  {
    assert |"draft-start-needed"| == 18 && |"draft-start-past-chain"| == 22;
  }

  /** An NFT always warns, and is stopped by reserves or by a second holder. */
  lemma NftProblemsAreNamed(draft: Draft)
    ensures var found := NftProblems(draft);
            && Warn("draft-nft-never-sent") in found
            && (Stop("draft-nft-no-reserves") in found <==> draft.reserves != [])
            && (Stop("draft-nft-one-holder") in found <==> |draft.preallocations| > 1)
  {
    assert "draft-nft-no-reserves"[10] == 'n' && "draft-nft-one-holder"[10] == 'o';
  }

  /** One identity or one new name: neither, both, or a name the registrar refuses is each its own problem. */
  lemma IdentityProblemsAreNamed(forms: Forms, draft: Draft)
    ensures var (identity, name) := (Text.Trim(draft.identity), Text.Trim(draft.newName));
            IdentityProblems(forms, draft) ==
              if identity == "" && name == "" then [Stop("draft-pick-identity")]
              else if identity != "" && name != "" then [Stop("draft-two-names")]
              else if name != "" && forms.nameProblem(name).Some? then [Stop(forms.nameProblem(name).value)]
              else []
  {}
}
