/** One endpoint, and how a probe's outcome is folded into it: `pecu-chain/src/node.rs`. */
module Node {
  import opened Wrappers
  import opened Network
  import opened Numbers

  datatype NodeStatus =
    | Unknown
    | Probing
    | Online
    | Syncing(blocks: nat, longest: nat)
    | WrongNetwork(reported: Network)
    | Unidentified(name: string, chainId: string)
    | MethodRefused(method_: string)
    | Offline(reason: string)

  datatype ChainInfo = ChainInfo(name: string, chainId: string, blocks: nat, longestChain: nat)

  datatype RpcError = MethodUnavailable(method_: string) | Failure(text: string)

  /** Everything a `Node` holds that a decision is taken from. */
  datatype NodeView = NodeView(
    id: nat, url: string, network: Option<Network>, status: NodeStatus, tip: Option<nat>,
    consecutiveFailures: nat, retryAfter: Option<nat>)

  const U32_MAX: nat := 0xffff_ffff
  const BASE_MS: nat := 5_000
  const CAP_MS: nat := 300_000

  function Pow2(n: nat): nat {
    if n == 0 then 1 else 2 * Pow2(n - 1)
  }

  /** Milliseconds before a node that failed so often is asked again. */
  function Backoff(failures: nat): nat {
    if failures == 0 then BASE_MS else Smaller(BASE_MS * Pow2(Smaller(failures - 1, 6)), CAP_MS)
  }

  /** Capping the shift costs nothing: the delay doubles with every failure until it meets the ceiling. */
  lemma {:induction false} BackoffDoublesToTheCeiling(failures: nat)
    requires failures >= 1
    ensures Backoff(failures) == Smaller(BASE_MS * Pow2(failures - 1), CAP_MS)
  {
    if failures <= 7 {
    } else {
      BackoffDoublesToTheCeiling(failures - 1);
      assert Pow2(6) == 2 * Pow2(5) == 4 * Pow2(4) == 8 * Pow2(3) == 64;
      assert Backoff(failures) == Backoff(failures - 1) == CAP_MS;
    }
  }

  predicate IsIdentified(info: ChainInfo) {
    var pinned := ChainId(FromChainName(info.name));
    pinned.None? || pinned.value == info.chainId
  }

  function StatusOf(info: ChainInfo, requested: Network): NodeStatus {
    var reported := FromChainName(info.name);
    if !IsIdentified(info) then Unidentified(info.name, info.chainId)
    else if info.blocks < info.longestChain then Syncing(info.blocks, info.longestChain)
    else if reported != requested then WrongNetwork(reported)
    else Online
  }

  function AfterSuccess(v: NodeView, info: ChainInfo, requested: Network): NodeView {
    v.(status := StatusOf(info, requested),
       network := if IsIdentified(info) then Some(FromChainName(info.name)) else None,
       tip := Some(info.blocks),
       consecutiveFailures := 0,
       retryAfter := None)
  }

  function AfterFailure(v: NodeView, error: RpcError): NodeView {
    match error
    case MethodUnavailable(m) => v.(status := MethodRefused(m), retryAfter := None)
    case Failure(text) =>
      var failures := Smaller(v.consecutiveFailures + 1, U32_MAX);
      v.(consecutiveFailures := failures, status := Offline(text), retryAfter := Some(Backoff(failures)))
  }

  function Shipped(id: nat, url: string): NodeView {
    NodeView(id, url, None, Unknown, None, 0, None)
  }

  class Node {
    const id: nat
    const url: string
    var network: Option<Network>
    var status: NodeStatus
    var tip: Option<nat>
    var consecutiveFailures: nat
    var retryAfter: Option<nat>

    function View(): NodeView
      reads this
    {
      NodeView(id, url, network, status, tip, consecutiveFailures, retryAfter)
    }

    constructor Builtin(id: nat, url: string)
      ensures View() == Shipped(id, url)
    {
      this.id, this.url := id, url;
      network, status, tip := None, Unknown, None;
      consecutiveFailures, retryAfter := 0, None;
    }

    method RecordSuccess(info: ChainInfo, requested: Network)
      modifies this
      ensures View() == AfterSuccess(old(View()), info, requested)
    {
      var reported := FromChainName(info.name);
      var pinned := ChainId(reported);
      var identified := pinned.None? || pinned.value == info.chainId;
      if !identified {
        status := Unidentified(info.name, info.chainId);
      } else if info.blocks < info.longestChain {
        status := Syncing(info.blocks, info.longestChain);
      } else if reported != requested {
        status := WrongNetwork(reported);
      } else {
        status := Online;
      }
      network := if identified then Some(reported) else None;
      tip := Some(info.blocks);
      consecutiveFailures := 0;
      retryAfter := None;
    }

    method RecordFailure(error: RpcError)
      modifies this
      ensures View() == AfterFailure(old(View()), error)
    {
      if error.MethodUnavailable? {
        status := MethodRefused(error.method_);
        retryAfter := None;
        return;
      }
      if consecutiveFailures < U32_MAX {
        consecutiveFailures := consecutiveFailures + 1;
      } else {
        consecutiveFailures := U32_MAX;
      }
      status := Offline(error.text);
      retryAfter := Some(Backoff(consecutiveFailures));
    }
  }
}
