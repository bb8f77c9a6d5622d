/**
 * Every run of the spending guard: exactly which histories of probes, node
 * choices, chain switches and arming attempts end with a permit.
 */
module SpendRuns {
  import opened Wrappers
  import opened Text
  import opened Network
  import opened Node
  import opened Permit
  import opened NodeManager

  /** A history starts with the manager being built. */
  predicate Boots(events: seq<Event>) {
    events != [] && events[0].Rebuild?
  }

  function Run(events: seq<Event>): Guard
    requires Boots(events)
  {
    var e := events[|events| - 1];
    if |events| == 1 then Fresh(e.shipped, e.network) else Step(Run(events[..|events| - 1]), e)
  }

  /** The chain last chosen. */
  function Requested(events: seq<Event>): Network
    requires Boots(events)
  {
    match events[|events| - 1]
    case SwitchTo(n) => n
    case Rebuild(_, n) => n
    case _ => assert |events| > 1; Requested(events[..|events| - 1])
  }

  /** The nodes shipped with the chain the manager was last built for. */
  function ShippedNodes(events: seq<Event>): seq<(nat, string)>
    requires Boots(events)
  {
    match events[|events| - 1]
    case Rebuild(shipped, _) => shipped
    case _ => assert |events| > 1; ShippedNodes(events[..|events| - 1])
  }

  predicate ListsNode(shipped: seq<(nat, string)>, id: nat) {
    exists i :: 0 <= i < |shipped| && shipped[i].0 == id
  }

  /** The first shipped node at an endpoint. */
  function NodeAt(shipped: seq<(nat, string)>, url: string): Option<nat> {
    if shipped == [] then None
    else if SameEndpoint(shipped[0].1, url) then Some(shipped[0].0)
    else NodeAt(shipped[1..], url)
  }

  /**
   * The node last chosen: the first shipped one, until another that is listed is
   * selected by its id or its endpoint.
   */
  function Chosen(events: seq<Event>): Option<nat>
    requires Boots(events)
  {
    match events[|events| - 1]
    case Rebuild(shipped, _) => if shipped == [] then None else Some(shipped[0].0)
    case Select(id) =>
      assert |events| > 1;
      if ListsNode(ShippedNodes(events), id) then Some(id) else Chosen(events[..|events| - 1])
    case SelectByUrl(url) =>
      assert |events| > 1;
      var found := NodeAt(ShippedNodes(events), url);
      if found.Some? then found else Chosen(events[..|events| - 1])
    case _ => assert |events| > 1; Chosen(events[..|events| - 1])
  }

  /** The event replaces what was known about node `id`. */
  predicate Touches(e: Event, id: nat) {
    e.Rebuild? || ((e.ProbeAnswered? || e.ProbeFailed?) && e.id == id)
  }

  /** The last thing heard from `id` is this answer, given to a wallet then set to `asked`. */
  ghost predicate HeardAt(events: seq<Event>, i: nat, id: nat, info: ChainInfo, asked: Network) {
    && i < |events| && events[i] == ProbeAnswered(id, info, asked)
    && forall k :: i < k < |events| ==> !Touches(events[k], id)
  }

  /** A caught-up answer bearing out its own name, about the permit's chain and at the permit's height. */
  predicate Vouches(info: ChainInfo, asked: Network, p: SpendPermit) {
    && asked == p.network && FromChainName(info.name) == p.network && IsIdentified(info)
    && info.blocks >= info.longestChain && info.blocks == p.tip
  }

  /** The node's last word was such an answer. */
  ghost predicate VouchedAt(events: seq<Event>, i: nat, p: SpendPermit) {
    && i < |events| && events[i].ProbeAnswered?
    && HeardAt(events, i, p.nodeId, events[i].info, events[i].asked)
    && Vouches(events[i].info, events[i].asked, p)
  }

  /** The event would take back an arm given on chain `n`. */
  predicate Disarms(e: Event, n: Network) {
    e.Rebuild? || (e.Allow? && !e.on) || (e.SwitchTo? && e.network != n)
  }

  /** Somebody typed chain `n`'s own name while the wallet was set to it, and nothing since took that back. */
  ghost predicate ArmedAt(events: seq<Event>, j: nat, n: Network) {
    && 0 < j < |events| && Boots(events[..j])
    && events[j].Allow? && events[j].on
    && Requested(events[..j]) == n
    && ChainName(n) != "" && EqIgnoreAsciiCase(Trim(events[j].typed), ChainName(n))
    && forall k :: j < k < |events| ==> !Disarms(events[k], n)
  }

  /** What a history must contain for `p` to be the permit it ends with. */
  ghost predicate Entitled(events: seq<Event>, p: SpendPermit)
    requires Boots(events)
  {
    && Chosen(events) == Some(p.nodeId)
    && Requested(events) == p.network
    && (exists i: nat :: VouchedAt(events, i, p))
    && (p.network == Testnet || exists j: nat :: ArmedAt(events, j, p.network))
  }

  // ---- what the last word on a node was ----

  datatype Word = Silence | Said(info: ChainInfo, asked: Network) | Failed

  function LastWord(events: seq<Event>, id: nat): Word {
    if events == [] then Silence
    else match events[|events| - 1]
      case ProbeAnswered(i, info, asked) => if i == id then Said(info, asked) else LastWord(events[..|events| - 1], id)
      case ProbeFailed(i, _) => if i == id then Failed else LastWord(events[..|events| - 1], id)
      case Rebuild(_, _) => Silence
      case _ => LastWord(events[..|events| - 1], id)
  }

  lemma {:induction false} LastWordIsHeard(events: seq<Event>, id: nat)
    ensures LastWord(events, id).Said? ==>
              exists i: nat :: HeardAt(events, i, id, LastWord(events, id).info, LastWord(events, id).asked)
  {
    if events != [] && LastWord(events, id).Said? {
      var e, before, w := events[|events| - 1], events[..|events| - 1], LastWord(events, id);
      if Touches(e, id) {
        assert HeardAt(events, |events| - 1, id, w.info, w.asked);
      } else {
        LastWordIsHeard(before, id);
        var i: nat :| HeardAt(before, i, id, w.info, w.asked);
        assert forall k :: i < k < |before| ==> events[k] == before[k];
        assert HeardAt(events, i, id, w.info, w.asked);
      }
    }
  }

  lemma {:induction false} HeardIsLastWord(events: seq<Event>, i: nat, id: nat, info: ChainInfo, asked: Network)
    requires HeardAt(events, i, id, info, asked)
    ensures LastWord(events, id) == Said(info, asked)
  {
    if i < |events| - 1 {
      var before := events[..|events| - 1];
      assert !Touches(events[|events| - 1], id);
      assert forall k :: i < k < |before| ==> before[k] == events[k];
      HeardIsLastWord(before, i, id, info, asked);
    }
  }

  // ---- the guard's state against the history ----

  lemma {:induction false} SameIdsSameIndex(a: seq<NodeView>, b: seq<NodeView>, id: nat)
    requires |a| == |b| && forall i :: 0 <= i < |a| ==> a[i].id == b[i].id
    ensures IndexOf(a, id) == IndexOf(b, id)
  {
    IndexOfIsFirst(b, id, IndexOf(a, id));
  }

  /** What a node's record says once `w` is the last word on it. */
  ghost predicate Reflects(v: NodeView, w: Word) {
    match w
    case Silence => v.status.Unknown?
    case Said(info, asked) =>
      && v.status == StatusOf(info, asked) && v.tip == Some(info.blocks)
      && v.network == (if IsIdentified(info) then Some(FromChainName(info.name)) else None)
    case Failed => v.status.Offline? || v.status.MethodRefused?
  }

  /** What one event does to the record of node `id`. */
  lemma StepRecord(g: Guard, e: Event, id: nat)
    requires !e.Rebuild?
    ensures Step(g, e).Lookup(id).Some? <==> g.Lookup(id).Some?
    ensures g.Lookup(id).Some? ==>
              var v := g.Lookup(id).value;
              Step(g, e).Lookup(id).value ==
                if !Touches(e, id) then v
                else if e.ProbeAnswered? then AfterSuccess(v, e.info, e.asked)
                else AfterFailure(v, e.error)
  {
    SameIdsSameIndex(g.nodes, Step(g, e).nodes, id);
  }

  /** A node's record is exactly its last word: nothing else in a history can put it online. */
  lemma {:induction false} RecordReflectsLastWord(events: seq<Event>, id: nat)
    requires Boots(events) && Run(events).Lookup(id).Some?
    ensures Reflects(Run(events).Lookup(id).value, LastWord(events, id))
  {
    var e := events[|events| - 1];
    if !e.Rebuild? {
      var before := events[..|events| - 1];
      StepRecord(Run(before), e, id);
      RecordReflectsLastWord(before, id);
    }
  }

  lemma {:induction false} FoundByUrlExists(nodes: seq<NodeView>, url: string)
    ensures FindByUrl(nodes, url).Some? ==> Find(nodes, FindByUrl(nodes, url).value).Some?
  {
    if nodes != [] && !SameEndpoint(nodes[0].url, url) {
      FoundByUrlExists(nodes[1..], url);
      var found := FindByUrl(nodes, url);
      if found.Some? && nodes[0].id != found.value {
        assert IndexOf(nodes, found.value) == 1 + IndexOf(nodes[1..], found.value);
      }
    }
  }

  /** The active id always names a node the manager has. */
  lemma {:induction false} ActiveExists(events: seq<Event>)
    requires Boots(events)
    ensures Run(events).active.Some? ==> Run(events).Active().Some?
    ensures Run(events).requested == Some(Requested(events))
  {
    var e, after := events[|events| - 1], Run(events);
    if !e.Rebuild? {
      var g := Run(events[..|events| - 1]);
      assert after == Step(g, e);
      ActiveExists(events[..|events| - 1]);
      if e.SelectByUrl? {
        FoundByUrlExists(g.nodes, e.url);
      }
      if after.active.Some? {
        SameIdsSameIndex(g.nodes, after.nodes, after.active.value);
      }
    }
  }

  /** The nodes a manager has are the ones it was built with, in order, whatever has been heard from them. */
  predicate AreShipped(nodes: seq<NodeView>, shipped: seq<(nat, string)>) {
    |nodes| == |shipped| && forall i :: 0 <= i < |nodes| ==> nodes[i].id == shipped[i].0 && nodes[i].url == shipped[i].1
  }

  lemma {:induction false} NodesStayShipped(events: seq<Event>)
    requires Boots(events)
    ensures AreShipped(Run(events).nodes, ShippedNodes(events))
  {
    if !events[|events| - 1].Rebuild? {
      NodesStayShipped(events[..|events| - 1]);
    }
  }

  lemma {:induction false} FoundWhereShipped(nodes: seq<NodeView>, shipped: seq<(nat, string)>, url: string)
    requires AreShipped(nodes, shipped)
    ensures FindByUrl(nodes, url) == NodeAt(shipped, url)
  {
    if nodes != [] {
      assert nodes[0].id == shipped[0].0;
      assert forall i :: 0 <= i < |nodes| - 1 ==> nodes[1..][i] == nodes[i + 1] && shipped[1..][i] == shipped[i + 1];
      FoundWhereShipped(nodes[1..], shipped[1..], url);
    }
  }

  lemma ListedWhereShipped(nodes: seq<NodeView>, shipped: seq<(nat, string)>, id: nat)
    requires AreShipped(nodes, shipped)
    ensures Find(nodes, id).Some? <==> ListsNode(shipped, id)
  {
    if i :| 0 <= i < |shipped| && shipped[i].0 == id {
      assert nodes[i].id == id;
    }
  }

  /** The active node is the one last chosen. */
  lemma {:induction false} ActiveIsTheChosen(events: seq<Event>)
    requires Boots(events)
    ensures Run(events).active == Chosen(events)
  {
    var e := events[|events| - 1];
    if !e.Rebuild? {
      var before := events[..|events| - 1];
      ActiveIsTheChosen(before);
      NodesStayShipped(before);
      assert ShippedNodes(events) == ShippedNodes(before);
      if e.Select? {
        ListedWhereShipped(Run(before).nodes, ShippedNodes(before), e.id);
      } else if e.SelectByUrl? {
        FoundWhereShipped(Run(before).nodes, ShippedNodes(before), e.url);
      }
    }
  }

  lemma ArmedSurvives(events: seq<Event>, j: nat, n: Network)
    requires |events| > 1 && Boots(events) && Boots(events[..|events| - 1])
    requires ArmedAt(events[..|events| - 1], j, n) && !Disarms(events[|events| - 1], n)
    ensures ArmedAt(events, j, n)
  {
    var before := events[..|events| - 1];
    assert events[..j] == before[..j] && events[j] == before[j];
    assert forall k :: j < k < |before| ==> events[k] == before[k];
  }

  lemma ArmedBefore(events: seq<Event>, j: nat, n: Network)
    requires |events| > 1 && Boots(events) && j < |events| - 1
    requires ArmedAt(events, j, n)
    ensures ArmedAt(events[..|events| - 1], j, n)
  {
    var before := events[..|events| - 1];
    assert events[..j] == before[..j] && events[j] == before[j];
    assert forall k :: j < k < |before| ==> before[k] == events[k];
  }

  /** While an arm for `n` stands the wallet stays on `n`. */
  lemma {:induction false} ArmedKeepsChain(events: seq<Event>, j: nat, n: Network)
    requires Boots(events) && ArmedAt(events, j, n)
    ensures Requested(events) == n
  {
    var last := |events| - 1;
    if j < last {
      assert !Disarms(events[last], n);
      ArmedBefore(events, j, n);
      ArmedKeepsChain(events[..last], j, n);
    }
  }

  /** An opt-in that is on was typed, for the present chain, and not taken back. */
  lemma {:induction false} AllowedWasArmed(events: seq<Event>) returns (j: nat)
    requires Boots(events) && Run(events).allowSpending
    ensures ArmedAt(events, j, Requested(events))
  {
    var last := |events| - 1;
    var e, before := events[last], events[..last];
    assert Run(events) == Step(Run(before), e);
    ActiveExists(before);
    if e.Allow? && Arms(Run(before).requested, e.typed) {
      j := last;
    } else {
      j := AllowedWasArmed(before);
      ArmedSurvives(events, j, Requested(events));
    }
  }

  /** And one typed and not taken back is on. */
  lemma {:induction false} ArmedIsAllowed(events: seq<Event>, j: nat, n: Network)
    requires Boots(events) && ArmedAt(events, j, n)
    ensures Run(events).allowSpending && Requested(events) == n
  {
    var last := |events| - 1;
    var before := events[..last];
    ActiveExists(before);
    ArmedKeepsChain(events, j, n);
    if j < last {
      assert !Disarms(events[last], n);
      ArmedBefore(events, j, n);
      ArmedIsAllowed(before, j, n);
    }
  }

  /** The opt-in is on exactly when an arm for the present chain still stands. */
  lemma AllowedMeansArmed(events: seq<Event>)
    requires Boots(events)
    ensures Run(events).allowSpending <==> exists j: nat :: ArmedAt(events, j, Requested(events))
  {
    if Run(events).allowSpending {
      var j := AllowedWasArmed(events);
    }
    if j: nat :| ArmedAt(events, j, Requested(events)) {
      ArmedIsAllowed(events, j, Requested(events));
    }
  }

  /** What `evaluate` lets through, read off the node's last word instead of its record. */
  lemma EvaluateReadsTheLastWord(v: NodeView, w: Word, requested: Network, allow: bool, p: SpendPermit)
    requires Reflects(v, w)
    ensures Evaluate(Some(v), requested, allow) == Ok(p) <==>
              && w.Said? && Vouches(w.info, w.asked, p) && v.id == p.nodeId
              && requested == p.network && (p.network == Testnet || allow)
  {}

  lemma VouchedMeansLastWord(events: seq<Event>, p: SpendPermit)
    ensures (exists i: nat :: VouchedAt(events, i, p)) <==>
              var w := LastWord(events, p.nodeId);
              w.Said? && Vouches(w.info, w.asked, p)
  {
    var w := LastWord(events, p.nodeId);
    if i: nat :| VouchedAt(events, i, p) {
      HeardIsLastWord(events, i, p.nodeId, events[i].info, events[i].asked);
    }
    if w.Said? && Vouches(w.info, w.asked, p) {
      LastWordIsHeard(events, p.nodeId);
      var i: nat :| HeardAt(events, i, p.nodeId, w.info, w.asked);
      assert VouchedAt(events, i, p);
    }
  }

  /**
   * The safety of spending, over every run: a history ends with a permit for
   * `p` exactly when it entitles the wallet to `p`.
   */
  lemma PermitExactlyWhenEntitled(events: seq<Event>, p: SpendPermit)
    requires Boots(events)
    ensures Run(events).Permit() == Ok(p) <==> Entitled(events, p)
  {
    var g := Run(events);
    ActiveExists(events);
    ActiveIsTheChosen(events);
    AllowedMeansArmed(events);
    VouchedMeansLastWord(events, p);
    if g.active.Some? {
      var id := g.active.value;
      RecordReflectsLastWord(events, id);
      EvaluateReadsTheLastWord(g.Active().value, LastWord(events, id), Requested(events), g.allowSpending, p);
    }
  }

  /** Arming cannot travel: on a chain switched to or rebuilt since, a spend of real money is refused. */
  lemma SwitchingChainDisarms(events: seq<Event>, e: Event)
    requires Boots(events)
    requires e.Rebuild? || (e.SwitchTo? && e.network != Requested(events))
    ensures Boots(events + [e])
    ensures var r := Run(events + [e]).Permit();
            r.Ok? ==> r.value.network == Testnet
  {
    var all := events + [e];
    assert all[..|all| - 1] == events;
    ActiveExists(events);
    ActiveExists(all);
  }
}
