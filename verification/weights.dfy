/**
 The weight manager as the node manager uses it. Each tier has a selection
 pool of weight handles; the pool is abstracted to the multiset of node IDs
 the handles belong to. How the weight manager lays handles out internally,
 how a node's score level is obtained and whether a node is abnormal are
 decided elsewhere and enter as an `Oracle`.
 */
module Weights {
  import opened Nodes

  /** The edge and candidate selection pools. */
  datatype Pools = Pools(edge: multiset<NodeId>, candidate: multiset<NodeId>) {

    function Of(t: Tier): multiset<NodeId>
    {
      match t
      case EdgeTier => edge
      case CandidateTier => candidate
    }

    function With(t: Tier, p: multiset<NodeId>): (r: Pools)
      ensures r.Of(t) == p && r.Of(t.Other()) == Of(t.Other())
    {
      match t
      case EdgeTier => this.(edge := p)
      case CandidateTier => this.(candidate := p)
    }
  }

  /** Both pools after the weight manager's clean-up. */
  const NoWeights := Pools(multiset{}, multiset{})

  /** `n` handles belonging to node `id`. */
  function Copies(id: NodeId, n: nat): (h: multiset<NodeId>)
    ensures h[id] == n
    ensures forall x :: x != id ==> h[x] == 0
  {
    multiset{}[id := n]
  }

  /** Truncated subtraction: repaying more handles than the pool has leaves none. */
  function Minus(a: nat, b: nat): nat
  {
    if a >= b then a - b else 0
  }

  /**
   The collaborators the manager consults but does not define: whether a node
   is abnormal, its score level, and the number of handles a level earns.
   */
  datatype Oracle = Oracle(isAbnormal: NodeId -> bool, scoreLevel: NodeId -> int, weightNum: int -> nat) {

    /** Handles a node earns at its current score level. */
    function Slots(id: NodeId): nat
    {
      weightNum(scoreLevel(id))
    }

    /** Handles a registered node should hold: none while abnormal. */
    function Entitlement(id: NodeId): nat
    {
      if isAbnormal(id) then 0 else Slots(id)
    }
  }

  /** The pools together with the node after an allocation or a repayment. */
  datatype Placement = Placement(pools: Pools, node: Node)

  /**
   Places the node's handles in the pool of its own type's tier. An abnormal
   node, or one of neither type, receives nothing and keeps its record.
   */
  function DistributeNodeWeight(p: Pools, node: Node, o: Oracle): (r: Placement)
    ensures o.isAbnormal(node.id) || node.kind == Unclassified ==> r == Placement(p, node)
    ensures !o.isAbnormal(node.id) && node.kind != Unclassified ==>
              var t := TierOf(node.kind);
              && r.node == node.(selectWeights := o.Slots(node.id))
              && r.pools.Of(t)[node.id] == p.Of(t)[node.id] + o.Slots(node.id)
              && r.pools.Of(t.Other()) == p.Of(t.Other())
    ensures forall x :: x != node.id ==> r.pools.edge[x] == p.edge[x] && r.pools.candidate[x] == p.candidate[x]
  {
    if o.isAbnormal(node.id) || node.kind == Unclassified then Placement(p, node)
    else
      var t := TierOf(node.kind);
      var w := o.Slots(node.id);
      Placement(p.With(t, p.Of(t) + Copies(node.id, w)), node.(selectWeights := w))
  }

  /**
   Removes the node's handles from the pool of its own type's tier and clears
   the node's record of them. Handles that are not in the pool are ignored.
   */
  function RepayNodeWeight(p: Pools, node: Node): (r: Placement)
    ensures node.kind == Unclassified ==> r == Placement(p, node)
    ensures node.kind != Unclassified ==>
              var t := TierOf(node.kind);
              && r.node == node.(selectWeights := 0)
              && r.pools.Of(t)[node.id] == Minus(p.Of(t)[node.id], node.selectWeights)
              && r.pools.Of(t.Other()) == p.Of(t.Other())
    ensures forall x :: x != node.id ==> r.pools.edge[x] == p.edge[x] && r.pools.candidate[x] == p.candidate[x]
  {
    if node.kind == Unclassified then Placement(p, node)
    else
      var t := TierOf(node.kind);
      Placement(p.With(t, p.Of(t) - Copies(node.id, node.selectWeights)), node.(selectWeights := 0))
  }

  /**
   Repaying a node that held nothing before its allocation gives back exactly
   the pools it started from: repayment is the inverse of distribution.
   */
  lemma RepayUndoesDistribute(p: Pools, node: Node, o: Oracle)
    requires node.selectWeights == 0
    ensures var d := DistributeNodeWeight(p, node, o);
            var r := RepayNodeWeight(d.pools, d.node);
            r.pools == p && r.node == node
  {
    var d := DistributeNodeWeight(p, node, o);
    var r := RepayNodeWeight(d.pools, d.node);
    if !o.isAbnormal(node.id) && node.kind != Unclassified {
      var t := TierOf(node.kind);
      assert r.pools.Of(t) == p.Of(t) + Copies(node.id, o.Slots(node.id)) - Copies(node.id, o.Slots(node.id));
    }
    assert r.pools.edge == p.edge by {
      assert forall x :: r.pools.edge[x] == p.edge[x];
    }
    assert r.pools.candidate == p.candidate by {
      assert forall x :: r.pools.candidate[x] == p.candidate[x];
    }
  }
}
