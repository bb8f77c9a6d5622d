/** The configured nodes, which one is in use, and the spending opt-in. */
module NodeManager {
  import opened Wrappers
  import opened Text
  import opened Network
  import opened Node
  import opened Permit

  /** Everything the manager holds. */
  datatype Guard = Guard(nodes: seq<NodeView>, active: Option<nat>, requested: Option<Network>, allowSpending: bool) {

    function Lookup(id: nat): Option<NodeView> {
      Find(nodes, id)
    }

    function Active(): Option<NodeView> {
      if active.None? then None else Lookup(active.value)
    }

    /** Mint a permit, or say why not. */
    function Permit(): Result<SpendPermit, SpendRefused> {
      if requested.None? then Err(NetworkUnknown) else Evaluate(Active(), requested.value, allowSpending)
    }
  }

  /** What happens to a manager between its creation and a spend. */
  datatype Event =
    | ProbeAnswered(id: nat, info: ChainInfo, asked: Network)
    | ProbeFailed(id: nat, error: RpcError)
    | Select(id: nat)
    | SelectByUrl(url: string)
    | SwitchTo(network: Network)
    | Allow(on: bool, typed: string)
    | Rebuild(shipped: seq<(nat, string)>, network: Network)

  /** The first position holding `id`, or the length of the list. */
  function IndexOf(nodes: seq<NodeView>, id: nat): (i: nat)
    ensures i <= |nodes|
    ensures i < |nodes| ==> nodes[i].id == id
    ensures forall j :: 0 <= j < i ==> nodes[j].id != id
  {
    if nodes == [] || nodes[0].id == id then 0 else 1 + IndexOf(nodes[1..], id)
  }

  function Find(nodes: seq<NodeView>, id: nat): Option<NodeView> {
    var i := IndexOf(nodes, id);
    if i < |nodes| then Some(nodes[i]) else None
  }

  function TidyEnd(url: string): string {
    if url != [] && url[|url| - 1] == '/' then TidyEnd(url[..|url| - 1]) else url
  }

  predicate SameEndpoint(left: string, right: string) {
    TidyEnd(Trim(left)) == TidyEnd(Trim(right))
  }

  function FindByUrl(nodes: seq<NodeView>, url: string): Option<nat> {
    if nodes == [] then None
    else if SameEndpoint(nodes[0].url, url) then Some(nodes[0].id)
    else FindByUrl(nodes[1..], url)
  }

  /** The word that arms spending: the chosen chain's own name, and never an empty one. */
  predicate Arms(requested: Option<Network>, typed: string) {
    var expected := if requested.None? then "" else ChainName(requested.value);
    expected != "" && EqIgnoreAsciiCase(Trim(typed), expected)
  }

  function Fresh(shipped: seq<(nat, string)>, network: Network): Guard {
    Guard(seq(|shipped|, i requires 0 <= i < |shipped| => Shipped(shipped[i].0, shipped[i].1)),
          if shipped == [] then None else Some(shipped[0].0), Some(network), false)
  }

  function Step(g: Guard, e: Event): Guard {
    match e
    case ProbeAnswered(id, info, asked) =>
      var i := IndexOf(g.nodes, id);
      if i < |g.nodes| then g.(nodes := g.nodes[i := AfterSuccess(g.nodes[i], info, asked)]) else g
    case ProbeFailed(id, error) =>
      var i := IndexOf(g.nodes, id);
      if i < |g.nodes| then g.(nodes := g.nodes[i := AfterFailure(g.nodes[i], error)]) else g
    case Select(id) => if g.Lookup(id).Some? then g.(active := Some(id)) else g
    case SelectByUrl(url) =>
      var found := FindByUrl(g.nodes, url);
      if found.Some? then g.(active := found) else g
    case SwitchTo(network) =>
      g.(requested := Some(network), allowSpending := g.allowSpending && g.requested == Some(network))
    case Allow(on, typed) =>
      if on && !Arms(g.requested, typed) then g else g.(allowSpending := on)
    case Rebuild(shipped, network) => Fresh(shipped, network)
  }

  class NodeManager {
    var nodes: seq<Node>
    var active: Option<nat>
    var requested: Option<Network>
    var allowSpending: bool

    /** The list never holds one endpoint object twice. */
    ghost predicate Valid()
      reads this
    {
      forall i, j :: 0 <= i < j < |nodes| ==> nodes[i] != nodes[j]
    }

    function View(): Guard
      reads this, nodes
    {
      Guard(seq(|nodes|, i requires 0 <= i < |nodes| reads this, nodes => nodes[i].View()), active, requested,
            allowSpending)
    }

    constructor (nodes: seq<Node>, requested: Network)
      requires forall i, j :: 0 <= i < j < |nodes| ==> nodes[i] != nodes[j]
      ensures Valid() && this.nodes == nodes
      ensures (forall n :: n in nodes ==> n.View() == Shipped(n.id, n.url))
                ==> View() == Fresh(seq(|nodes|, i requires 0 <= i < |nodes| => (nodes[i].id, nodes[i].url)), requested)
      ensures View().active == (if nodes == [] then None else Some(nodes[0].id))
      ensures View().requested == Some(requested) && !View().allowSpending
    {
      this.nodes := nodes;
      active := if nodes == [] then None else Some(nodes[0].id);
      this.requested := Some(requested);
      allowSpending := false;
    }

    /** The first node with this id: `get` and `get_mut`. */
    method Get(id: nat) returns (i: nat)
      ensures i == IndexOf(View().nodes, id) <= |nodes|
    {
      i := 0;
      while i < |nodes| && nodes[i].id != id
        invariant i <= |nodes|
        invariant forall j :: 0 <= j < i ==> nodes[j].id != id
      {
        i := i + 1;
      }
      IndexOfIsFirst(View().nodes, id, i);
    }

    method RecordAnswer(id: nat, info: ChainInfo, asked: Network)
      requires Valid()
      modifies nodes
      ensures Valid() && nodes == old(nodes)
      ensures View() == Step(old(View()), ProbeAnswered(id, info, asked))
    {
      ghost var before := View();
      var i := Get(id);
      if i < |nodes| {
        nodes[i].RecordSuccess(info, asked);
        assert View().nodes == before.nodes[i := AfterSuccess(before.nodes[i], info, asked)];
      }
    }

    method RecordFailure(id: nat, error: RpcError)
      requires Valid()
      modifies nodes
      ensures Valid() && nodes == old(nodes)
      ensures View() == Step(old(View()), ProbeFailed(id, error))
    {
      ghost var before := View();
      var i := Get(id);
      if i < |nodes| {
        nodes[i].RecordFailure(error);
        assert View().nodes == before.nodes[i := AfterFailure(before.nodes[i], error)];
      }
    }

    method SetActive(id: nat) returns (done: bool)
      requires Valid()
      modifies this`active
      ensures View() == Step(old(View()), Select(id))
      ensures done <==> View().Lookup(id).Some?
    {
      var i := Get(id);
      done := i < |nodes|;
      if done {
        active := Some(id);
      }
    }

    method SetActiveByUrl(url: string) returns (done: bool)
      requires Valid()
      modifies this`active
      ensures View() == Step(old(View()), SelectByUrl(url))
      ensures done <==> FindByUrl(View().nodes, url).Some?
    {
      ghost var views := View().nodes;
      var i := 0;
      while i < |nodes| && !SameEndpoint(nodes[i].url, url)
        invariant i <= |nodes|
        invariant FindByUrl(views[i..], url) == FindByUrl(views, url)
      {
        assert views[i..][1..] == views[i + 1..];
        i := i + 1;
      }
      done := i < |nodes|;
      if done {
        active := Some(nodes[i].id);
      }
    }

    method SetRequested(network: Network)
      requires Valid()
      modifies this`requested, this`allowSpending
      ensures View() == Step(old(View()), SwitchTo(network))
    {
      if requested != Some(network) {
        allowSpending := false;
      }
      requested := Some(network);
    }

    method SetAllowSpending(on: bool, typed: string) returns (done: bool)
      requires Valid()
      modifies this`allowSpending
      ensures View() == Step(old(View()), Allow(on, typed))
      ensures done <==> on ==> Arms(requested, typed)
    {
      if on {
        var expected := if requested.None? then "" else ChainName(requested.value);
        if expected == "" || !EqIgnoreAsciiCase(Trim(typed), expected) {
          return false;
        }
      }
      allowSpending := on;
      return true;
    }

    method SpendPermit() returns (r: Result<SpendPermit, SpendRefused>)
      requires Valid()
      ensures r == View().Permit()
    {
      if requested.None? {
        return Err(NetworkUnknown);
      }
      if active.None? {
        return Evaluate(None, requested.value, allowSpending);
      }
      var i := Get(active.value);
      r := Evaluate(if i < |nodes| then Some(nodes[i].View()) else None, requested.value, allowSpending);
    }
  }

  lemma IndexOfIsFirst(nodes: seq<NodeView>, id: nat, i: nat)
    requires i <= |nodes| && (forall j :: 0 <= j < i ==> nodes[j].id != id)
    requires i < |nodes| ==> nodes[i].id == id
    ensures IndexOf(nodes, id) == i
  {}
}
