/**
 * What the corroboration verdict is worth: against honest nodes on one chain,
 * against a primary that answers whatever it likes, and for the builder that
 * funds from the filtered reader.
 */
module CorroborateTheorems {
  import opened Wrappers
  import opened Text
  import opened Chain
  import opened Numbers
  import opened Corroborate

  // ---- honest nodes ----

  /** `found` lists the outputs of `address` unspent at `tip`, in any order. */
  ghost predicate HonestCoins(found: seq<Utxo>, chain: seq<Block>, address: string, tip: nat)
    requires tip < |chain|
  {
    && (forall u :: u in found ==>
          u.outpoint in Unspent(chain, tip + 1) && Creates(chain, u.height, u.outpoint, address))
    && (forall o, h: nat :: o in Unspent(chain, tip + 1) && Creates(chain, h, o, address) ==> o in PointSet(found))
  }

  /** The node names the chain's own blocks up to `top`, in either case of hex. */
  ghost predicate NamesBlocks(node: Reader, chain: seq<Block>, top: nat)
    requires top < |chain|
  {
    forall h: nat :: h <= top ==>
      node.blockHash(h).Ok? && EqIgnoreAsciiCase(node.blockHash(h).value, chain[h].hash)
  }

  /** A funding node that answered its coins at `coinsAt` and its tip, afterwards, as `tip`. */
  ghost predicate HonestPrimary(node: Reader, chain: seq<Block>, address: string, coinsAt: nat, tip: nat)
    requires coinsAt <= tip < |chain|
  {
    && node.blockCount == Ok(tip)
    && node.addressUtxos([address]).Ok?
    && HonestCoins(node.addressUtxos([address]).value, chain, address, coinsAt)
    && NamesBlocks(node, chain, tip)
  }

  /** A second source that answered its tip first and its coins, afterwards, at `coinsAt`. */
  ghost predicate HonestSecondary(node: Reader, chain: seq<Block>, address: string, tip: nat, coinsAt: nat)
    requires tip <= coinsAt < |chain|
  {
    && node.blockCount == Ok(tip)
    && node.addressUtxos([address]).Ok?
    && HonestCoins(node.addressUtxos([address]).value, chain, address, coinsAt)
    && NamesBlocks(node, chain, tip)
  }

  /** The four moments of one corroboration between two nodes on one chain. */
  datatype Moments = Moments(coinsAt: nat, tip: nat, secondTip: nat, secondCoinsAt: nat) {
    predicate InOrder(n: nat) {
      coinsAt <= tip < n && secondTip <= secondCoinsAt < n
    }
  }

  ghost predicate HonestPair(primary: Reader, secondary: Reader, chain: seq<Block>, address: string, m: Moments) {
    && CreatedOnce(chain)
    && m.InOrder(|chain|)
    && HonestPrimary(primary, chain, address, m.coinsAt, m.tip)
    && HonestSecondary(secondary, chain, address, m.secondTip, m.secondCoinsAt)
  }

  /** The chain spent `c` after the primary answered and by the time the second source did. */
  ghost predicate SpentMeanwhile(chain: seq<Block>, c: Utxo, m: Moments)
    requires m.InOrder(|chain|)
  {
    SpentDuring(chain, c.outpoint, m.coinsAt + 1, m.secondCoinsAt + 1)
  }

  /** Exactly the coins whose absence the verdict holds against an honest primary. */
  ghost predicate HeldAgainst(chain: seq<Block>, c: Utxo, m: Moments)
    requires m.InOrder(|chain|)
  {
    || (c.height > m.secondTip + CREDIBLE_LAG && (c.height > m.secondCoinsAt || SpentMeanwhile(chain, c, m)))
    || (c.height <= m.secondTip <= m.tip && SpentMeanwhile(chain, c, m))
  }

  /** Why an honest second source does not have a coin an honest primary offers. */
  lemma MissingExactlyWhen(chain: seq<Block>, address: string, m: Moments,
                           offered: seq<Utxo>, held: seq<Utxo>, c: Utxo)
    requires CreatedOnce(chain) && m.InOrder(|chain|) && c in offered
    requires HonestCoins(offered, chain, address, m.coinsAt)
    requires HonestCoins(held, chain, address, m.secondCoinsAt)
    ensures c.height <= m.coinsAt
    ensures c.outpoint !in PointSet(held) <==> c.height > m.secondCoinsAt || SpentMeanwhile(chain, c, m)
  {
    var o, h, n := c.outpoint, c.height, m.secondCoinsAt + 1;
    if m.coinsAt < h {
      NotUnspentBeforeCreated(chain, h, o, m.coinsAt + 1);
      assert false;
    }
    UnspentExactlyUntilSpent(chain, h, o, m.coinsAt + 1);
    if h >= n {
      NotUnspentBeforeCreated(chain, h, o, n);
    } else {
      UnspentExactlyUntilSpent(chain, h, o, n);
      assert o in PointSet(held) <==> o in Unspent(chain, n);
    }
  }

  /** The verdict on two honest nodes of one chain, whatever their heights. */
  lemma HonestPairVerdict(primary: Reader, secondary: Reader, chain: seq<Block>, address: string, m: Moments)
    requires HonestPair(primary, secondary, chain, address, m)
    ensures var offered := primary.addressUtxos([address]).value;
            var v := Against(primary, secondary, address, offered, m.tip);
            && (v.Diverged? <==> exists c :: c in offered && HeldAgainst(chain, c, m))
            && (v.Diverged? || v.Agreed? || v.OutOfStep?)
  {
    var offered := primary.addressUtxos([address]).value;
    var held := secondary.addressUtxos([address]).value;
    var missing := Missing(offered, held);
    forall c | c in offered
      ensures HeldAgainst(chain, c, m) <==> c in missing && !HeightsExcuse(c.height, m.tip, m.secondTip)
    {
      MissingExactlyWhen(chain, address, m, offered, held, c);
    }
    var unexplained := Unexplained(missing, m.tip, m.secondTip);
    assert unexplained != [] ==> unexplained[0] in unexplained;
    assert forall c :: c in unexplained <==> c in offered && HeldAgainst(chain, c, m);
    assert SameChain(primary, secondary, Smaller(m.tip, m.secondTip)) == Same;
    if offered != [] && missing != [] && unexplained != [] {
      assert |Points(unexplained)| > 0;
    }
  }

  /**
   * Two honest nodes within a week of each other are never accused, unless a
   * block that arrived between the reads spent a coin both had indexed.
   */
  lemma HonestPairNeverAccused(primary: Reader, secondary: Reader, chain: seq<Block>, address: string, m: Moments)
    requires HonestPair(primary, secondary, chain, address, m)
    requires m.coinsAt <= m.secondTip + CREDIBLE_LAG
    requires m.secondTip <= m.tip ==>
               forall c :: c in primary.addressUtxos([address]).value && c.height <= m.secondTip
                 ==> !SpentMeanwhile(chain, c, m)
    ensures var v := Against(primary, secondary, address, primary.addressUtxos([address]).value, m.tip);
            v.Agreed? || v.OutOfStep?
  {
    HonestPairVerdict(primary, secondary, chain, address, m);
    forall c | c in primary.addressUtxos([address]).value
      ensures !HeldAgainst(chain, c, m)
    {
      MissingExactlyWhen(chain, address, m, primary.addressUtxos([address]).value,
                         secondary.addressUtxos([address]).value, c);
    }
  }

  /** Two nodes that each answered at one height: no condition beyond the lag is left. */
  lemma StillPairNeverAccused(primary: Reader, secondary: Reader, chain: seq<Block>, address: string, p: nat, s: nat)
    requires HonestPair(primary, secondary, chain, address, Moments(p, p, s, s))
    requires p <= s + CREDIBLE_LAG
    ensures var v := Against(primary, secondary, address, primary.addressUtxos([address]).value, p);
            v.Agreed? || v.OutOfStep?
  {
    HonestPairNeverAccused(primary, secondary, chain, address, Moments(p, p, s, s));
  }

  /** Past the lag the accusation is not a possibility but a certainty: one coin suffices. */
  lemma FarAheadIsAccused(primary: Reader, secondary: Reader, chain: seq<Block>, address: string,
                          p: nat, s: nat, c: Utxo)
    requires HonestPair(primary, secondary, chain, address, Moments(p, p, s, s))
    requires c in primary.addressUtxos([address]).value && c.height > s + CREDIBLE_LAG
    ensures Against(primary, secondary, address, primary.addressUtxos([address]).value, p).Diverged?
  {
    HonestPairVerdict(primary, secondary, chain, address, Moments(p, p, s, s));
    assert HeldAgainst(chain, c, Moments(p, p, s, s));
  }

  /**
   * The race the read order leaves open, on a chain of three blocks: both nodes
   * report tip 1, the coin of block 0 is spent in block 2, and only the second
   * source's coin answer saw it.
   */
  lemma SpendBetweenTheReadsIsAccused()
    returns (primary: Reader, secondary: Reader, chain: seq<Block>, address: string, m: Moments)
    ensures HonestPair(primary, secondary, chain, address, m)
    ensures m.tip == m.secondTip
    ensures Against(primary, secondary, address, primary.addressUtxos([address]).value, m.tip).Diverged?
  {
    var o := Outpoint("tx", 0);
    var coin := Utxo("R", o, 0, 1, true);
    chain, address, m := RaceChain(o), "R", Moments(1, 1, 1, 2);
    var hashes := ["a", "b", "c"];
    var names := (h: nat) => if h < 3 then Ok(hashes[h]) else Err("height out of range");
    primary := Reader(Ok(1), a => Ok([coin]), names);
    secondary := Reader(Ok(1), a => Ok([]), names);
    RaceCoins(o, coin);
    assert HonestPrimary(primary, chain, address, 1, 1);
    assert HonestSecondary(secondary, chain, address, 1, 2);
    assert o in chain[2].spent && coin in [coin];
    assert HeldAgainst(chain, coin, m);
    HonestPairVerdict(primary, secondary, chain, address, m);
  }

  function RaceChain(o: Outpoint): seq<Block> {
    [Block("a", map[o := "R"], {}), Block("b", map[], {}), Block("c", map[], {o})]
  }

  lemma RaceCoins(o: Outpoint, coin: Utxo)
    requires coin == Utxo("R", o, 0, 1, true)
    ensures CreatedOnce(RaceChain(o))
    ensures HonestCoins([coin], RaceChain(o), "R", 1) && HonestCoins([], RaceChain(o), "R", 2)
  {}

  // ---- a primary that answers whatever it likes ----

  /** Both nodes name a block at this height. */
  predicate BothName(primary: Reader, secondary: Reader, h: nat) {
    primary.blockHash(h).Ok? && secondary.blockHash(h).Ok?
  }

  predicate SameName(primary: Reader, secondary: Reader, h: nat) {
    BothName(primary, secondary, h)
    && EqIgnoreAsciiCase(primary.blockHash(h).value, secondary.blockHash(h).value)
  }

  /**
   * No coins, heights or tip let a primary whose block at the lower tip is not
   * the second source's be called merely out of step, however little of the
   * coin list is invented and whatever it says of any other height.
   */
  lemma AnotherChainIsNeverExcused(primary: Reader, secondary: Reader, address: string, offered: seq<Utxo>,
                                   primaryTip: nat, secondTip: nat)
    requires secondary.blockCount == Ok(secondTip) && secondary.addressUtxos([address]).Ok?
    requires BothName(primary, secondary, Smaller(primaryTip, secondTip))
    requires !SameName(primary, secondary, Smaller(primaryTip, secondTip))
    ensures var held := PointSet(secondary.addressUtxos([address]).value);
            var v := Against(primary, secondary, address, offered, primaryTip);
            if exists c :: c in offered && c.outpoint !in held then v.Diverged? else v.Agreed?
  {}

  /** Agreement on anything at all means the second source answered both reads and holds every coin offered. */
  lemma AgreedExactlyWhenAllAreHeld(primary: Reader, secondary: Reader, address: string, offered: seq<Utxo>,
                                    primaryTip: nat)
    requires offered != []
    ensures Against(primary, secondary, address, offered, primaryTip).Agreed? <==>
              && secondary.blockCount.Ok? && secondary.addressUtxos([address]).Ok?
              && forall c :: c in offered ==> c.outpoint in PointSet(secondary.addressUtxos([address]).value)
  {
    if secondary.addressUtxos([address]).Ok? {
      var missing := Missing(offered, secondary.addressUtxos([address]).value);
      assert missing != [] ==> missing[0] in missing;
    }
  }

  /**
   * The soft verdict, exactly. The shared block is the one thing asked of the
   * primary about its chain, so one that repeats the second source's own hash
   * at the lower tip, and keeps its claimed heights excusable, gets it.
   */
  lemma OutOfStepExactlyWhen(primary: Reader, secondary: Reader, address: string, offered: seq<Utxo>,
                             primaryTip: nat, secondTip: nat)
    requires secondary.blockCount == Ok(secondTip) && secondary.addressUtxos([address]).Ok?
    ensures var held := PointSet(secondary.addressUtxos([address]).value);
            Against(primary, secondary, address, offered, primaryTip).OutOfStep? <==>
              && (exists c :: c in offered && c.outpoint !in held)
              && (forall c :: c in offered && c.outpoint !in held ==> HeightsExcuse(c.height, primaryTip, secondTip))
              && SameName(primary, secondary, Smaller(primaryTip, secondTip))
  {
    var missing := Missing(offered, secondary.addressUtxos([address]).value);
    var unexplained := Unexplained(missing, primaryTip, secondTip);
    assert missing != [] ==> missing[0] in missing;
    assert unexplained != [] ==> unexplained[0] in unexplained;
  }

  /** The one branch that trusts a shared block is the only way to the soft verdict. */
  lemma OutOfStepNeedsOneBlock(primary: Reader, secondary: Reader, address: string, offered: seq<Utxo>, primaryTip: nat)
    requires Against(primary, secondary, address, offered, primaryTip).OutOfStep?
    ensures secondary.blockCount.Ok?
    ensures var h := Smaller(primaryTip, secondary.blockCount.value);
            && primary.blockHash(h).Ok? && secondary.blockHash(h).Ok?
            && EqIgnoreAsciiCase(primary.blockHash(h).value, secondary.blockHash(h).value)
    ensures forall c :: c in offered && c.height > primaryTip
              ==> c.outpoint in PointSet(secondary.addressUtxos([address]).value)
  {}

  // ---- what a verdict carries ----

  lemma {:induction false} FilterSplits(utxos: seq<Utxo>, p: Utxo -> bool, q: Utxo -> bool)
    requires forall u :: q(u) == !p(u)
    ensures |Filter(utxos, p)| + |Filter(utxos, q)| == |utxos|
  {
    if utxos != [] {
      FilterSplits(utxos[1..], p, q);
    }
  }

  /** The coins offered that the second source holds. */
  function HeldOf(offered: seq<Utxo>, held: seq<Utxo>): seq<Utxo> {
    Filter(offered, (u: Utxo) => u.outpoint in PointSet(held))
  }

  lemma KeptAreTheHeld(offered: seq<Utxo>, held: seq<Utxo>)
    ensures |offered| - |Missing(offered, held)| == |HeldOf(offered, held)|
  {
    FilterSplits(offered, (u: Utxo) => u.outpoint in PointSet(held), (u: Utxo) => u.outpoint !in PointSet(held));
  }

  /**
   * Every verdict counts the coins held; what is withheld, or unexplained, is
   * the missing coins in the order offered: all of them, or where the heights
   * alone accuse, those the heights do not excuse.
   */
  lemma VerdictCarries(primary: Reader, secondary: Reader, address: string, offered: seq<Utxo>, primaryTip: nat)
    requires offered != [] && secondary.blockCount.Ok? && secondary.addressUtxos([address]).Ok?
    ensures var (held, tip) := (secondary.addressUtxos([address]).value, secondary.blockCount.value);
            var (kept, missing) := (|HeldOf(offered, held)|, Missing(offered, held));
            var unexcused := Unexplained(missing, primaryTip, tip);
            match Against(primary, secondary, address, offered, primaryTip)
            case Agreed(n) => n == kept == |offered|
            case OutOfStep(points, n, theirs, ours) =>
              n == kept && points == Points(missing) && theirs == tip && ours == primaryTip
            case Diverged(points, n) => n == kept && points == Points(if unexcused != [] then unexcused else missing)
            case Unavailable(reason) => secondary.blockHash(Smaller(primaryTip, tip)) == Err(reason)
            case PrimarySilent(reason) => primary.blockHash(Smaller(primaryTip, tip)) == Err(reason)
  {
    KeptAreTheHeld(offered, secondary.addressUtxos([address]).value);
  }

  /** A second source that does not answer is never taken for one that disagrees: the verdict is that it did not. */
  lemma SilenceIsNotDisagreement(primary: Reader, secondary: Reader, address: string, offered: seq<Utxo>,
                                 primaryTip: nat)
    requires offered != [] && (secondary.blockCount.Err? || secondary.addressUtxos([address]).Err?)
    ensures Against(primary, secondary, address, offered, primaryTip).Unavailable?
    ensures var asked := primary.(addressUtxos := a => Ok(offered), blockCount := Ok(primaryTip));
            CorroboratedFunding(asked, secondary, address) == Err(SecondSourceSilent)
  {}

  /** Funding is granted exactly when the primary answers and the verdict is agreed, or out of step with some kept. */
  lemma FundingIsGrantedExactlyWhen(primary: Reader, secondary: Reader, address: string)
    ensures CorroboratedFunding(primary, secondary, address).Ok? <==>
              && primary.addressUtxos([address]).Ok? && primary.blockCount.Ok?
              && var offered := primary.addressUtxos([address]).value;
                 var v := Against(primary, secondary, address, offered, primary.blockCount.value);
                 v.Agreed? || (v.OutOfStep? && HeldOf(offered, secondary.addressUtxos([address]).value) != [])
  {
    if primary.addressUtxos([address]).Ok? && primary.blockCount.Ok? {
      var (offered, tip) := (primary.addressUtxos([address]).value, primary.blockCount.value);
      if Against(primary, secondary, address, offered, tip).OutOfStep? {
        OutOfStepNeedsOneBlock(primary, secondary, address, offered, tip);
        VerdictCarries(primary, secondary, address, offered, tip);
      }
    }
  }

  /** And a refusal says why: on which side of the tip the second source is, what is unexplained, or who was silent. */
  lemma FundingIsRefusedFor(primary: Reader, secondary: Reader, address: string)
    requires primary.addressUtxos([address]).Ok? && primary.blockCount.Ok?
    requires CorroboratedFunding(primary, secondary, address).Err?
    ensures var (offered, ours) := (primary.addressUtxos([address]).value, primary.blockCount.value);
            match Against(primary, secondary, address, offered, ours)
            case Agreed(_) => false
            case OutOfStep(points, _, theirs, _) =>
              CorroboratedFunding(primary, secondary, address) ==
                Err(if theirs < ours then SecondSourceBehind(|points|, theirs) else SecondSourceAhead(|points|, theirs))
            case Diverged(points, _) =>
              CorroboratedFunding(primary, secondary, address) == Err(Uncorroborated(|points|))
            case Unavailable(_) => CorroboratedFunding(primary, secondary, address) == Err(SecondSourceSilent)
            case PrimarySilent(reason) => CorroboratedFunding(primary, secondary, address) == Err(PrimaryFailed(reason))
  {}

  // ---- what the builder can see ----

  /**
   * Filtering treats a list piece by piece, in order; with a one-element piece
   * either kept or dropped, it can neither reorder nor repeat anything.
   */
  lemma {:induction false} FilterIsPiecewise(front: seq<Utxo>, back: seq<Utxo>, p: Utxo -> bool)
    ensures Filter(front + back, p) == Filter(front, p) + Filter(back, p)
  {
    if front == [] {
      assert front + back == back;
    } else {
      var head := if p(front[0]) then [front[0]] else [];
      calc {
        Filter(front + back, p);
        { assert (front + back)[0] == front[0] && (front + back)[1..] == front[1..] + back; }
        head + Filter(front[1..] + back, p);
        { FilterIsPiecewise(front[1..], back, p); }
        head + (Filter(front[1..], p) + Filter(back, p));
        Filter(front, p) + Filter(back, p);
      }
    }
  }

  /** Setting aside what the second source misses leaves what both list. */
  lemma AgreedIsTheIntersection(offered: seq<Utxo>, held: seq<Utxo>)
    ensures AgreedOutpoints(offered, Points(Missing(offered, held))) == PointSet(offered) * PointSet(held)
    ensures Missing(offered, held) == [] ==> AgreedOutpoints(offered, []) == PointSet(offered) * PointSet(held)
  {
    var missing := Missing(offered, held);
    forall i | 0 <= i < |missing|
      ensures Points(missing)[i] !in PointSet(held)
    {
      assert missing[i] in missing;
    }
    forall u | u in offered
      ensures u.outpoint in PointSet(held) <==> u.outpoint !in Points(missing)
    {
      if u.outpoint !in PointSet(held) {
        var i :| 0 <= i < |missing| && missing[i] == u;
        assert Points(missing)[i] == u.outpoint;
      }
    }
  }

  /** The allowed set is exactly what both nodes listed, whichever of the two verdicts granted it. */
  lemma FundingIsTheAgreedSet(primary: Reader, secondary: Reader, address: string)
    requires CorroboratedFunding(primary, secondary, address).Ok?
    ensures primary.addressUtxos([address]).Ok?
    ensures primary.addressUtxos([address]).value != [] ==> secondary.addressUtxos([address]).Ok?
    ensures CorroboratedFunding(primary, secondary, address).value ==
            if primary.addressUtxos([address]).value == [] then {}
            else PointSet(primary.addressUtxos([address]).value) * PointSet(secondary.addressUtxos([address]).value)
  {
    var offered := primary.addressUtxos([address]).value;
    if offered != [] {
      AgreedIsTheIntersection(offered, secondary.addressUtxos([address]).value);
    }
  }

  /**
   * Whatever the primary answers later, the builder is shown, at the funding
   * address, exactly those of its coins that both nodes had listed; coins at
   * any other address are shown untouched. Order and multiplicity are the
   * primary's (`FilterIsPiecewise`).
   */
  lemma BuilderSeesOnlyCorroborated(primary: Reader, secondary: Reader, later: Reader, address: string,
                                    asked: seq<string>, u: Utxo)
    requires CorroboratedFunding(primary, secondary, address).Ok? && later.addressUtxos(asked).Ok?
    ensures var reader := Corroborated(later, address, CorroboratedFunding(primary, secondary, address).value);
            && reader.AddressUtxos(asked).Ok?
            && (u in reader.AddressUtxos(asked).value <==>
                  && u in later.addressUtxos(asked).value
                  && (u.address == address ==>
                        && u.outpoint in PointSet(primary.addressUtxos([address]).value)
                        && secondary.addressUtxos([address]).Ok?
                        && u.outpoint in PointSet(secondary.addressUtxos([address]).value)))
  {
    FundingIsTheAgreedSet(primary, secondary, address);
    var reader := Corroborated(later, address, CorroboratedFunding(primary, secondary, address).value);
    FilterMembers(later.addressUtxos(asked).value, reader.Passes);
  }
}
