/** What a run of probes leaves on a node's record, and what each answer and each refusal means. */
module NodeRuns {
  import opened Wrappers
  import opened Text
  import opened Numbers
  import opened Network
  import opened Node
  import opened Permit
  import opened NodeManager
  import opened SpendRuns

  // ---- failures ----

  /** How often a node has failed since it last answered, a method it lacks not counting. */
  function Failures(events: seq<Event>, id: nat): nat {
    if events == [] then 0
    else
      var before := events[..|events| - 1];
      match events[|events| - 1]
      case Rebuild(_, _) => 0
      case ProbeAnswered(i, _, _) => if i == id then 0 else Failures(before, id)
      case ProbeFailed(i, error) => Failures(before, id) + if i == id && error.Failure? then 1 else 0
      case _ => Failures(before, id)
  }

  /** The last thing that happened to the node was such a failure. */
  predicate Waits(events: seq<Event>, id: nat) {
    events != [] &&
    match events[|events| - 1]
    case Rebuild(_, _) => false
    case ProbeAnswered(i, _, _) => i != id && Waits(events[..|events| - 1], id)
    case ProbeFailed(i, error) => if i == id then error.Failure? else Waits(events[..|events| - 1], id)
    case _ => Waits(events[..|events| - 1], id)
  }

  /** After any history a node's count is of its failures since it last answered, and it waits as long as they earn. */
  lemma {:induction false} CountIsSinceTheLastAnswer(events: seq<Event>, id: nat)
    requires Boots(events) && Run(events).Lookup(id).Some?
    ensures var (v, n) := (Run(events).Lookup(id).value, Smaller(Failures(events, id), U32_MAX));
            v.consecutiveFailures == n && v.retryAfter == if Waits(events, id) then Some(Backoff(n)) else None
  {
    var e := events[|events| - 1];
    if !e.Rebuild? {
      var before := events[..|events| - 1];
      StepRecord(Run(before), e, id);
      CountIsSinceTheLastAnswer(before, id);
    }
  }

  // ---- answers ----

  /** The two chains that pin an id are named only by a node that reports that very id. */
  lemma IdentifiedExactlyWhen(info: ChainInfo)
    ensures IsIdentified(info) <==>
              && (info.name == "VRSC" ==> info.chainId == "i5w5MuNik5NtLcYmNzcvaoixooEebB6MGV")
              && (info.name == "VRSCTEST" ==> info.chainId == "iJhCezBExJHvtyH3fGhNnt2NhU4Ztkf2yq")
  {}

  /** What an answer makes of a node: the first of these that is so. */
  lemma AnswerIsJudged(info: ChainInfo, requested: Network)
    ensures StatusOf(info, requested) == Unidentified(info.name, info.chainId) <==> !IsIdentified(info)
    ensures StatusOf(info, requested) == Syncing(info.blocks, info.longestChain) <==>
              IsIdentified(info) && info.blocks < info.longestChain
    ensures StatusOf(info, requested) == WrongNetwork(FromChainName(info.name)) <==>
              IsIdentified(info) && info.blocks >= info.longestChain && FromChainName(info.name) != requested
    ensures StatusOf(info, requested) == Online <==>
              IsIdentified(info) && info.blocks >= info.longestChain && FromChainName(info.name) == requested
  {}

  /** A failure is a method the node will not serve, or the node being out of reach; either leaves what it had said. */
  lemma FailureIsJudged(v: NodeView, error: RpcError)
    ensures var after := AfterFailure(v, error);
            && after.id == v.id && after.url == v.url && after.network == v.network && after.tip == v.tip
            && (error.MethodUnavailable? ==> after.status == MethodRefused(error.method_))
            && (error.Failure? ==> after.status == Offline(error.text))
  {}

  /** The shortest wait is five seconds and the longest five minutes, reached at the seventh failure. */
  lemma WaitsAreBetween(failures: nat)
    ensures Backoff(0) == Backoff(1) == 5_000
    ensures 5_000 <= Backoff(failures) <= 300_000
    ensures failures >= 7 ==> Backoff(failures) == 300_000
    ensures Backoff(6) == 160_000
  {
    assert Pow2(6) == 2 * Pow2(5) == 4 * Pow2(4) == 64;
    Pow2Rises(Smaller(if failures == 0 then 0 else failures - 1, 6));
  }

  lemma {:induction false} Pow2Rises(n: nat)
    ensures Pow2(n) >= 1
  {
    if n > 0 {
      Pow2Rises(n - 1);
    }
  }

  /** A chain read from a name is spelled as the name is, but for case; only the two own names are the two chains. */
  lemma ReadingKeepsTheName(name: string)
    ensures EqIgnoreAsciiCase(ChainName(FromChainName(name)), name)
    ensures FromChainName(name) == Mainnet <==> name == "VRSC"
    ensures FromChainName(name) == Testnet <==> name == "VRSCTEST"
  {
    CanonicalIsStable(name, SHIPPED_PBAAS);
  }

  // ---- refusals ----

  /** Each refusal of a spend is given exactly when it is the reason. */
  lemma RefusedExactlyWhen(v: NodeView, requested: Network, allow: bool, chain: Network, other: Network)
    ensures var r := Evaluate(Some(v), requested, allow);
            && (r == Err(NetworkUnknown) <==> v.network.None? && !v.status.Unidentified?)
            && (v.status.Unidentified? <==> r.Err? && r.error.NotIdentified?)
            && (r == Err(NetworkMismatch(chain, other)) <==>
                  v.status.Online? && v.network == Some(other) && requested == chain != other)
            && (r == Err(SpendingNotEnabled(chain)) <==>
                  v.status.Online? && v.network == Some(chain) && requested == chain != Testnet && !allow)
            && (r.Err? && r.error.StillSyncing? <==> v.status.Syncing? && v.network.Some?)
            && (r == Err(NodeNotReady(v.status)) <==>
                  v.network.Some? && !v.status.Online? && !v.status.Syncing? && !v.status.Unidentified?)
    ensures Evaluate(None, requested, allow) == Err(NoNode)
  {}

  // ---- endpoints ----

  predicate AllSlashes(s: string) {
    forall i :: 0 <= i < |s| ==> s[i] == '/'
  }

  /** Tidying takes off the slashes an address ends with, and nothing else. */
  lemma {:induction false} TidyTakesTheSlashes(url: string) returns (slashes: string)
    ensures url == TidyEnd(url) + slashes && AllSlashes(slashes)
    ensures TidyEnd(url) == "" || TidyEnd(url)[|TidyEnd(url)| - 1] != '/'
    decreases |url|
  {
    slashes := "";
    if url != [] && url[|url| - 1] == '/' {
      var rest := TidyTakesTheSlashes(url[..|url| - 1]);
      slashes := rest + "/";
      assert url == url[..|url| - 1] + "/";
    }
  }
}
