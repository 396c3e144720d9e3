/**
 The node values the scheduler's node manager keeps in its two registries,
 and the events it publishes about them.
 */
module Nodes {

  type NodeId = string

  /** The node types the manager dispatches on; any other type is `Unclassified`. */
  datatype NodeType = Edge | Candidate | Unclassified

  /** The two registries (and weight pools) of the manager. */
  datatype Tier = EdgeTier | CandidateTier {

    function Other(): (r: Tier)
      ensures r != this
    {
      if this == EdgeTier then CandidateTier else EdgeTier
    }
  }

  /** The registry and weight pool a node of type `k` belongs to; none for an unclassified node. */
  function TierOf(k: NodeType): (r: Tier)
    requires k != Unclassified
  {
    match k
    case Edge => EdgeTier
    case Candidate => CandidateTier
  }

  /** The node type the registry `t` is meant to hold. */
  function KindOf(t: Tier): (k: NodeType)
    ensures k != Unclassified && TierOf(k) == t
  {
    match t
    case EdgeTier => Edge
    case CandidateTier => Candidate
  }

  /**
   NAT traversal class reported for a node. `UnknownNat` stands for every
   value outside the four named classes, which the multiplier's default case
   covers.
   */
  datatype NatType = FullCone | Restricted | PortRestricted | Symmetric | UnknownNat

  /** Hardware facts the node reported at registration. */
  datatype NodeInfo = NodeInfo(cpuCores: int, memory: real, diskSpace: real)

  /**
   A node as the manager sees it. `lastRequest` (nanoseconds) is written by the
   connection layer on every request and only read here; `onlineDuration` is in
   minutes; `selectWeights` is the number of weight handles the node holds.
   */
  datatype Node = Node(
    id: NodeId,
    kind: NodeType,
    lastRequest: int,
    onlineDuration: int,
    diskUsage: real,
    info: NodeInfo,
    natType: NatType,
    bandwidthDown: int,
    bandwidthUp: int,
    selectWeights: nat)

  /** What the manager publishes when a node joins or leaves. */
  datatype Event = NodeOnline(id: NodeId) | NodeOffline(id: NodeId)

  /** No key is listed twice. */
  predicate NoDuplicates(keys: seq<NodeId>)
  {
    forall i, j :: 0 <= i < j < |keys| ==> keys[i] != keys[j]
  }

  /** Dropping the head of a sequence without repetitions. */
  lemma TailNoDuplicates(keys: seq<NodeId>)
    requires NoDuplicates(keys) && keys != []
    ensures NoDuplicates(keys[1..]) && keys[0] !in keys[1..]
  {
    forall i, j | 0 <= i < j < |keys[1..]|
      ensures keys[1..][i] != keys[1..][j]
    {
      assert keys[1..][i] == keys[i + 1] && keys[1..][j] == keys[j + 1];
    }
    forall i | 0 <= i < |keys[1..]|
      ensures keys[1..][i] != keys[0]
    {
      assert keys[1..][i] == keys[i + 1];
    }
  }

  /**
   `keys` is one visiting order of a map's keys, as a `Range` over the map
   produces it: every key once, nothing else.
   */
  predicate Enumerates(keys: seq<NodeId>, nodes: map<NodeId, Node>)
  {
    && NoDuplicates(keys)
    && (forall k :: k in keys ==> k in nodes)
    && (forall k :: k in nodes ==> k in keys)
  }
}
