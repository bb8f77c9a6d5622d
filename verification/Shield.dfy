/** Choosing what a shield spends: `plan` in `pecu-core/src/shield.rs`. Amounts are u64 satoshis, added checked. */
module Shield {
  import opened Wrappers
  import Sorting

  const U64_MAX: nat := 0xffff_ffff_ffff_ffff

  datatype Utxo = Utxo(txid: string, vout: nat, satoshis: nat)

  datatype Funding = Funding(utxos: seq<Utxo>, total: nat, tip: nat)

  datatype ShieldError =
    | BadAddress
    | BadAmount
    | NotEnough(held: nat, wanted: nat, needed: nat)
    | Flow(reason: string)

  datatype Planned = Planned(amount: nat, fee: nat, change: nat, inputs: seq<Utxo>, tip: nat)

  function CheckedAdd(a: nat, b: nat): Option<nat> {
    if a + b <= U64_MAX then Some(a + b) else None
  }

  function Sum(utxos: seq<Utxo>): nat {
    if utxos == [] then 0 else utxos[0].satoshis + Sum(utxos[1..])
  }

  predicate Descending(utxos: seq<Utxo>) {
    forall i, j :: 0 <= i < j < |utxos| ==> utxos[i].satoshis >= utxos[j].satoshis
  }

  /** `sort_by_key(Reverse(satoshis))`: largest first, equals in the order given. */
  function LargestFirst(utxos: seq<Utxo>): seq<Utxo> {
    Sorting.Sort((u: Utxo) => -(u.satoshis as int), utxos)
  }

  lemma LargestFirstSorts(utxos: seq<Utxo>)
    ensures multiset(LargestFirst(utxos)) == multiset(utxos)
    ensures Descending(LargestFirst(utxos))
  {
    var key := (u: Utxo) => -(u.satoshis as int);
    Sorting.SortSorts(key, utxos);
    var sorted := LargestFirst(utxos);
    forall i, j | 0 <= i < j < |sorted|
      ensures sorted[i].satoshis >= sorted[j].satoshis
    {
      assert key(sorted[i]) <= key(sorted[j]);
    }
  }

  lemma {:induction false} SumAppends(front: seq<Utxo>, u: Utxo)
    ensures Sum(front + [u]) == Sum(front) + u.satoshis
  {
    if front != [] {
      SumAppends(front[1..], u);
      assert (front + [u])[1..] == front[1..] + [u];
    }
  }

  /** What was gathered: the shortest prefix of the candidates that covers `needed`, or all of them. */
  predicate IsShortestCover(candidates: seq<Utxo>, needed: nat, selected: seq<Utxo>) {
    && selected <= candidates
    && Sum(selected) >= needed
    && selected != [] && Sum(selected[..|selected| - 1]) < needed
  }

  /** The inputs of a plan pay for exactly what it says: nothing is lost, and change is nothing or worth sending. */
  predicate Balances(p: Planned, amount: nat, relayFee: nat) {
    && p.amount == amount
    && Sum(p.inputs) == p.amount + p.fee + p.change <= U64_MAX
    && (p.change == 0 || p.change >= relayFee)
    && (p.fee == relayFee || (p.change == 0 && relayFee < p.fee < 2 * relayFee))
  }

  /**
   * Largest first until `needed` is covered. `None` stands for the one refusal
   * inside the loop, a running total past u64.
   */
  method Gather(candidates: seq<Utxo>, needed: nat) returns (selected: seq<Utxo>, gathered: Option<nat>)
    requires 0 < needed <= U64_MAX
    ensures gathered.Some? ==> gathered.value == Sum(selected) <= U64_MAX
    ensures gathered.Some? && gathered.value >= needed ==>
              IsShortestCover(candidates, needed, selected) && Sum(candidates) >= needed
    ensures gathered.Some? && gathered.value < needed ==> Sum(candidates) < needed
    ensures gathered.None? ==> Sum(candidates) > U64_MAX
    ensures gathered.None? ==> exists cover :: IsShortestCover(candidates, needed, cover) && Sum(cover) > U64_MAX
  {
    selected := [];
    var total, i := 0, 0;
    while i < |candidates|
      invariant i <= |candidates| && selected == candidates[..i]
      invariant total == Sum(selected) < needed
      invariant total + Sum(candidates[i..]) == Sum(candidates)
    {
      assert candidates[i..][1..] == candidates[i + 1..];
      SumAppends(selected, candidates[i]);
      var more := CheckedAdd(total, candidates[i].satoshis);
      if more.None? {
        assert IsShortestCover(candidates, needed, selected + [candidates[i]]) by {
          assert selected + [candidates[i]] == candidates[..i + 1];
          assert (selected + [candidates[i]])[..i] == selected;
        }
        return selected, None;
      }
      total := more.value;
      ghost var before := selected;
      selected := selected + [candidates[i]];
      assert selected[..|selected| - 1] == before;
      i := i + 1;
      if total >= needed {
        return selected, Some(total);
      }
    }
    gathered := Some(total);
  }

  /**
   * `amount` is the parsed text, `relayFee` the daemon's floor for two shielded
   * outputs and one transparent one.
   */
  method Plan(addressDecodes: bool, amount: Option<nat>, funding: Result<Funding, string>, relayFee: nat)
    returns (r: Result<Planned, ShieldError>)
    ensures !addressDecodes ==> r == Err(BadAddress)
    ensures addressDecodes && (amount == None || amount == Some(0)) ==> r == Err(BadAmount)
    ensures addressDecodes && amount.Some? && amount.value > 0 ==>
              match funding
              case Err(reason) => r == Err(Flow(reason))
              case Ok(f) =>
                var needed, coins := amount.value + relayFee, LargestFirst(f.utxos);
                if needed > U64_MAX then r == Err(BadAmount)
                else if Sum(coins) < needed then r == Err(NotEnough(f.total, amount.value, needed))
                else
                  || (r.Ok? && r.value.tip == f.tip && Balances(r.value, amount.value, relayFee)
                            && IsShortestCover(coins, needed, r.value.inputs))
                  || (r == Err(BadAmount)
                      && exists cover :: IsShortestCover(coins, needed, cover) && Sum(cover) > U64_MAX)
  {
    if !addressDecodes {
      return Err(BadAddress);
    }
    if amount.None? || amount.value == 0 {
      return Err(BadAmount);
    }
    if funding.Err? {
      return Err(Flow(funding.error));
    }
    var needed := CheckedAdd(amount.value, relayFee);
    if needed.None? {
      return Err(BadAmount);
    }
    var selected, gathered := Gather(LargestFirst(funding.value.utxos), needed.value);
    if gathered.None? {
      return Err(BadAmount);
    }
    if gathered.value < needed.value {
      return Err(NotEnough(funding.value.total, amount.value, needed.value));
    }
    var remainder := gathered.value - needed.value;
    var fee, change := relayFee, remainder;
    if remainder < relayFee {
      fee, change := relayFee + remainder, 0;
    }
    r := Ok(Planned(amount.value, fee, change, selected, funding.value.tip));
  }

  // ---- the greedy choice is the best choice ----

  lemma {:induction false} SumOfSmaller(a: seq<Utxo>, b: seq<Utxo>)
    requires |a| == |b| && forall i :: 0 <= i < |a| ==> a[i].satoshis <= b[i].satoshis
    ensures Sum(a) <= Sum(b)
  {
    if a != [] {
      SumOfSmaller(a[1..], b[1..]);
    }
  }

  lemma {:induction false} SumWithout(t: seq<Utxo>, i: nat)
    requires i < |t|
    ensures Sum(t) == t[i].satoshis + Sum(t[..i] + t[i + 1..])
  {
    if i > 0 {
      SumWithout(t[1..], i - 1);
      var rest := t[..i] + t[i + 1..];
      assert rest[1..] == t[1..][..i - 1] + t[1..][i..];
    } else {
      assert t[..0] + t[1..] == t[1..];
    }
  }

  /** Take one occurrence of `h` out of `t`. */
  lemma Without(t: seq<Utxo>, h: Utxo) returns (less: seq<Utxo>)
    requires h in t
    ensures multiset(t) == multiset(less) + multiset{h}
    ensures |less| == |t| - 1 && Sum(t) == h.satoshis + Sum(less)
  {
    var i :| 0 <= i < |t| && t[i] == h;
    less := t[..i] + t[i + 1..];
    SumWithout(t, i);
    assert t == t[..i] + [h] + t[i + 1..];
  }

  lemma HeadAndRest(s: seq<Utxo>)
    requires s != []
    ensures multiset(s) == multiset(s[1..]) + multiset{s[0]}
  {
    assert s == [s[0]] + s[1..];
  }

  lemma WithoutBoth(a: multiset<Utxo>, b: multiset<Utxo>, h: Utxo)
    requires a + multiset{h} <= b + multiset{h}
    ensures a <= b
  {
    forall x
      ensures a[x] <= b[x]
    {
      assert (a + multiset{h})[x] <= (b + multiset{h})[x];
    }
  }

  lemma WithoutAbsent(a: multiset<Utxo>, b: multiset<Utxo>, h: Utxo)
    requires a <= b + multiset{h} && h !in a
    ensures a <= b
  {
    forall x
      ensures a[x] <= b[x]
    {
      assert a[x] <= (b + multiset{h})[x];
    }
  }

  /** Each of the next outputs is worth no more than the one before it. */
  lemma ShiftedIsSmaller(sorted: seq<Utxo>, n: nat)
    requires Descending(sorted) && n < |sorted|
    ensures Sum(sorted[1..][..n]) <= Sum(sorted[..n])
  {
    var a, b := sorted[1..][..n], sorted[..n];
    forall i | 0 <= i < n
      ensures a[i].satoshis <= b[i].satoshis
    {
      assert a[i] == sorted[i + 1] && b[i] == sorted[i];
    }
    SumOfSmaller(a, b);
  }

  lemma HeadOfPrefix(s: seq<Utxo>, n: nat)
    requires n < |s|
    ensures Sum(s[..n + 1]) == s[0].satoshis + Sum(s[1..][..n])
  {
    assert s[..n + 1][1..] == s[1..][..n];
  }

  /** No choice of as many outputs is worth more than the first ones, largest first. */
  lemma {:induction false} LargestPrefixIsBest(sorted: seq<Utxo>, t: seq<Utxo>)
    requires Descending(sorted) && multiset(t) <= multiset(sorted)
    ensures |t| <= |sorted| && Sum(t) <= Sum(sorted[..|t|])
    decreases |sorted|
  {
    if sorted == [] {
      assert |multiset(t)| <= |multiset(sorted)|;
    } else {
      var h, rest := sorted[0], sorted[1..];
      HeadAndRest(sorted);
      if h in t {
        var less := Without(t, h);
        WithoutBoth(multiset(less), multiset(rest), h);
        LargestPrefixIsBest(rest, less);
        HeadOfPrefix(sorted, |less|);
      } else {
        WithoutAbsent(multiset(t), multiset(rest), h);
        LargestPrefixIsBest(rest, t);
        ShiftedIsSmaller(sorted, |t|);
      }
    }
  }

  lemma {:induction false} ShorterIsSmaller(s: seq<Utxo>, n: nat, m: nat)
    requires n <= m <= |s|
    ensures Sum(s[..n]) <= Sum(s[..m])
  {
    if n < m {
      ShorterIsSmaller(s, n, m - 1);
      SumAppends(s[..m - 1], s[m - 1]);
      assert s[..m - 1] + [s[m - 1]] == s[..m];
    }
  }

  lemma ShortOfTheCover(candidates: seq<Utxo>, needed: nat, selected: seq<Utxo>, n: nat)
    requires IsShortestCover(candidates, needed, selected) && n < |selected|
    ensures n <= |candidates| && Sum(candidates[..n]) < needed
  {
    assert selected == candidates[..|selected|];
    assert selected[..|selected| - 1] == candidates[..|selected| - 1];
    ShorterIsSmaller(candidates, n, |selected| - 1);
  }

  /** A plan uses the fewest inputs any selection could: no smaller one, of any outputs, covers the need. */
  lemma FewestInputs(utxos: seq<Utxo>, needed: nat, selected: seq<Utxo>, other: seq<Utxo>)
    requires IsShortestCover(LargestFirst(utxos), needed, selected)
    requires multiset(other) <= multiset(utxos) && |other| < |selected|
    ensures Sum(other) < needed
  {
    LargestFirstSorts(utxos);
    LargestPrefixIsBest(LargestFirst(utxos), other);
    ShortOfTheCover(LargestFirst(utxos), needed, selected, |other|);
  }

  /** There is one shortest cover, so the two ways a covered plan can end exclude each other. */
  lemma ShortestCoverIsUnique(candidates: seq<Utxo>, needed: nat, a: seq<Utxo>, b: seq<Utxo>)
    requires IsShortestCover(candidates, needed, a) && IsShortestCover(candidates, needed, b)
    ensures a == b
  {
    assert a == candidates[..|a|] && b == candidates[..|b|];
    if |a| < |b| {
      ShortOfTheCover(candidates, needed, b, |a|);
    } else if |b| < |a| {
      ShortOfTheCover(candidates, needed, a, |b|);
    }
  }

  /** And among selections of its size it is worth the most, so none would leave more over. */
  lemma LargestOfItsSize(utxos: seq<Utxo>, needed: nat, selected: seq<Utxo>, other: seq<Utxo>)
    requires IsShortestCover(LargestFirst(utxos), needed, selected)
    requires multiset(other) <= multiset(utxos) && |other| == |selected|
    ensures Sum(other) <= Sum(selected)
  {
    LargestFirstSorts(utxos);
    LargestPrefixIsBest(LargestFirst(utxos), other);
    assert selected == LargestFirst(utxos)[..|selected|];
  }

  /** What is spent was offered, each output at most as often as it was listed. */
  lemma SelectedAreOffered(utxos: seq<Utxo>, needed: nat, selected: seq<Utxo>)
    requires IsShortestCover(LargestFirst(utxos), needed, selected)
    ensures multiset(selected) <= multiset(utxos)
  {
    var sorted := LargestFirst(utxos);
    LargestFirstSorts(utxos);
    assert sorted == selected + sorted[|selected|..];
  }

  /** What the outputs are worth does not depend on their order. */
  lemma {:induction false} SumIgnoresOrder(a: seq<Utxo>, b: seq<Utxo>)
    requires multiset(a) == multiset(b)
    ensures Sum(a) == Sum(b)
    decreases |a|
  {
    if a == [] {
      assert |multiset(b)| == 0;
    } else {
      assert a[0] in multiset(b);
      var less := Without(b, a[0]);
      HeadAndRest(a);
      WithoutBoth(multiset(a[1..]), multiset(less), a[0]);
      WithoutBoth(multiset(less), multiset(a[1..]), a[0]);
      SumIgnoresOrder(a[1..], less);
    }
  }

  /** So the refusal for want of coins is exactly a shortage of the listed outputs, whatever their order. */
  lemma ShortageIsOfTheListedCoins(utxos: seq<Utxo>)
    ensures Sum(LargestFirst(utxos)) == Sum(utxos)
  {
    LargestFirstSorts(utxos);
    SumIgnoresOrder(LargestFirst(utxos), utxos);
  }
}
