/** Whether a spend may go ahead, and on what terms: `pecu-chain/src/permit.rs`. */
module Permit {
  import opened Wrappers
  import opened Network
  import opened Node

  datatype SpendPermit = SpendPermit(network: Network, nodeId: nat, tip: nat)

  datatype SpendRefused =
    | NoNode
    | NetworkUnknown
    | NotIdentified(name: string, chainId: string)
    | NetworkMismatch(requested: Network, effective: Network)
    | SpendingNotEnabled(network: Network)
    | StillSyncing(blocks: nat, longest: nat)
    | NodeNotReady(status: NodeStatus)

  function Evaluate(active: Option<NodeView>, requested: Network, allowSpending: bool)
    : Result<SpendPermit, SpendRefused>
  {
    match active
    case None => Err(NoNode)
    case Some(node) =>
      if node.status.Unidentified? then Err(NotIdentified(node.status.name, node.status.chainId))
      else match node.network
        case None => Err(NetworkUnknown)
        case Some(effective) =>
          match node.status
          case Online =>
            if requested != effective then Err(NetworkMismatch(requested, effective))
            else if MayBeRealMoney(effective) && !allowSpending then Err(SpendingNotEnabled(effective))
            else Ok(SpendPermit(effective, node.id, if node.tip.Some? then node.tip.value else 0))
          case Syncing(blocks, longest) => Err(StillSyncing(blocks, longest))
          case other => Err(NodeNotReady(other))
  }
}
