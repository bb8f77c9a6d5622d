/**
 * A chain of blocks, and the set of unspent outputs at a height as a fold over
 * the blocks up to it. Block `h` of the sequence is the block at height `h`.
 */
module Chain {

  datatype Outpoint = Outpoint(txid: string, vout: nat)

  /** What a block does to the set: the outputs it creates, with the address each pays, and those it spends. */
  datatype Block = Block(hash: string, created: map<Outpoint, string>, spent: set<Outpoint>)

  /** The outputs unspent after the first `n` blocks. */
  function Unspent(chain: seq<Block>, n: nat): set<Outpoint>
    requires n <= |chain|
  {
    if n == 0 then {} else (Unspent(chain, n - 1) + chain[n - 1].created.Keys) - chain[n - 1].spent
  }

  /** Whether block `h` creates `o`, paying `address`. */
  predicate Creates(chain: seq<Block>, h: nat, o: Outpoint, address: string) {
    h < |chain| && o in chain[h].created && chain[h].created[o] == address
  }

  /** No two blocks create the same output. A spend needs no rule: only the first removes anything. */
  ghost predicate CreatedOnce(chain: seq<Block>) {
    forall i, j, o :: 0 <= i < j < |chain| && o in chain[i].created ==> o !in chain[j].created
  }

  ghost predicate SpentDuring(chain: seq<Block>, o: Outpoint, from: nat, to: nat)
    requires to <= |chain|
  {
    exists k :: from <= k < to && o in chain[k].spent
  }

  /** A block below `n` created every output unspent after `n` blocks. */
  lemma {:induction false} UnspentHasOrigin(chain: seq<Block>, n: nat, o: Outpoint) returns (h: nat)
    requires n <= |chain| && o in Unspent(chain, n)
    ensures h < n && o in chain[h].created
  {
    if o in chain[n - 1].created {
      h := n - 1;
    } else {
      h := UnspentHasOrigin(chain, n - 1, o);
    }
  }

  /** Once created, an output is unspent exactly until a block spends it. */
  lemma {:induction false} UnspentExactlyUntilSpent(chain: seq<Block>, h: nat, o: Outpoint, n: nat)
    requires CreatedOnce(chain) && h < n <= |chain| && o in chain[h].created
    ensures o in Unspent(chain, n) <==> !SpentDuring(chain, o, h, n)
  {
    if n == h + 1 {
      assert SpentDuring(chain, o, h, n) <==> o in chain[h].spent;
    } else {
      UnspentExactlyUntilSpent(chain, h, o, n - 1);
      assert SpentDuring(chain, o, h, n) <==> SpentDuring(chain, o, h, n - 1) || o in chain[n - 1].spent;
    }
  }

  /** An output is in no UTXO set below the block that creates it. */
  lemma NotUnspentBeforeCreated(chain: seq<Block>, h: nat, o: Outpoint, n: nat)
    requires CreatedOnce(chain) && n <= h < |chain| && o in chain[h].created
    ensures o !in Unspent(chain, n)
  {
    if o in Unspent(chain, n) {
      var k := UnspentHasOrigin(chain, n, o);
      assert false;
    }
  }
}
