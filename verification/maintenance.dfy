/**
 The daily score-maintenance pass: both weight pools are emptied and every
 registered node that is not abnormal is given the handles its current score
 level earns, candidates first, then edges.
 */
module Maintenance {
  import opened Nodes
  import opened Weights
  import opened Registry

  /** The pools and one tier's map after refilling that tier. */
  datatype Refill = Refill(pools: Pools, nodes: map<NodeId, Node>)

  /**
   Visits the keys of tier `t`'s map in the order `keys` and gives each node
   that is not abnormal its earned handles in tier `t`'s pool, overwriting
   the node's record of what it holds. Abnormal nodes are skipped untouched.
   */
  function RefillTier(p: Pools, nodes: map<NodeId, Node>, t: Tier, keys: seq<NodeId>, o: Oracle): (r: Refill)
    requires NoDuplicates(keys)
    ensures r.nodes.Keys == nodes.Keys
    ensures r.pools.Of(t.Other()) == p.Of(t.Other())
    ensures forall id :: r.pools.Of(t)[id] == p.Of(t)[id] + (if id in keys && id in nodes then o.Entitlement(id) else 0)
    ensures forall id :: id in nodes ==>
              r.nodes[id] == if id in keys && !o.isAbnormal(id) then nodes[id].(selectWeights := o.Slots(id)) else nodes[id]
    decreases |keys|
  {
    if keys == [] then Refill(p, nodes)
    else
      var id := keys[0];
      TailNoDuplicates(keys);
      assert forall k :: k in keys <==> k == id || k in keys[1..];
      if id !in nodes || o.isAbnormal(id) then RefillTier(p, nodes, t, keys[1..], o)
      else
        var w := o.Slots(id);
        RefillTier(p.With(t, p.Of(t) + Copies(id, w)), nodes[id := nodes[id].(selectWeights := w)], t, keys[1..], o)
  }

  /**
   The full redistribution: both pools are cleaned, then the candidate map is
   refilled in `candidateOrder` and the edge map in `edgeOrder`.
   */
  function Redistribute(m: Manager, o: Oracle, candidateOrder: seq<NodeId>, edgeOrder: seq<NodeId>): (r: Manager)
    requires Enumerates(candidateOrder, m.candidateNodes) && Enumerates(edgeOrder, m.edgeNodes)
    ensures Balanced(r, o)
    ensures r.edgeNodes.Keys == m.edgeNodes.Keys && r.candidateNodes.Keys == m.candidateNodes.Keys
    ensures r.edges == m.edges && r.candidates == m.candidates && r.events == m.events
    ensures forall t: Tier, id :: id in m.Registered(t) ==>
              r.Registered(t)[id] == if o.isAbnormal(id) then m.Registered(t)[id] else m.Registered(t)[id].(selectWeights := o.Slots(id))
  {
    var c := RefillTier(NoWeights, m.candidateNodes, CandidateTier, candidateOrder, o);
    var e := RefillTier(c.pools, m.edgeNodes, EdgeTier, edgeOrder, o);
    var r := m.(candidateNodes := c.nodes, edgeNodes := e.nodes, pools := e.pools);
    assert forall id :: c.pools.candidate[id] == Earned(r, o, CandidateTier, id) by {
      assert NoWeights.candidate == multiset{};
      assert c.pools.candidate == c.pools.Of(CandidateTier);
    }
    assert forall id :: e.pools.edge[id] == Earned(r, o, EdgeTier, id) by {
      assert NoWeights.edge == multiset{};
      assert c.pools.edge == c.pools.Of(EdgeTier) && e.pools.edge == e.pools.Of(EdgeTier);
    }
    assert e.pools.candidate == c.pools.candidate;
    assert Balanced(r, o) by {
      forall t: Tier, id
        ensures r.pools.Of(t)[id] == Earned(r, o, t, id)
      {
        if t == EdgeTier {
          assert r.pools.Of(t)[id] == e.pools.edge[id];
        } else {
          assert r.pools.Of(t)[id] == c.pools.candidate[id];
        }
      }
    }
    r
  }

  /** Whatever the pools held before, redistribution produces the same pools: no stale handle survives. */
  lemma RedistributeForgetsPriorPools(m: Manager, stale: Pools, o: Oracle, candidateOrder: seq<NodeId>, edgeOrder: seq<NodeId>)
    requires Enumerates(candidateOrder, m.candidateNodes) && Enumerates(edgeOrder, m.edgeNodes)
    ensures Redistribute(m.(pools := stale), o, candidateOrder, edgeOrder) == Redistribute(m, o, candidateOrder, edgeOrder)
  {
    var a := Redistribute(m.(pools := stale), o, candidateOrder, edgeOrder);
    var b := Redistribute(m, o, candidateOrder, edgeOrder);
    assert a.pools.edge == b.pools.edge by {
      assert forall id :: a.pools.Of(EdgeTier)[id] == b.pools.Of(EdgeTier)[id];
    }
    assert a.pools.candidate == b.pools.candidate by {
      assert forall id :: a.pools.Of(CandidateTier)[id] == b.pools.Of(CandidateTier)[id];
    }
  }

  /** The order in which the maps are visited does not matter. */
  lemma RedistributeOrderIrrelevant(m: Manager, o: Oracle, c1: seq<NodeId>, e1: seq<NodeId>, c2: seq<NodeId>, e2: seq<NodeId>)
    requires Enumerates(c1, m.candidateNodes) && Enumerates(e1, m.edgeNodes)
    requires Enumerates(c2, m.candidateNodes) && Enumerates(e2, m.edgeNodes)
    ensures Redistribute(m, o, c1, e1) == Redistribute(m, o, c2, e2)
  {
    var a := Redistribute(m, o, c1, e1);
    var b := Redistribute(m, o, c2, e2);
    SameTier(m, o, a, b, EdgeTier);
    SameTier(m, o, a, b, CandidateTier);
    assert a.pools == b.pools;
    assert a.edgeNodes == b.edgeNodes && a.candidateNodes == b.candidateNodes;
  }

  /** Two balanced results of redistributing `m` agree on tier `t`. */
  lemma SameTier(m: Manager, o: Oracle, a: Manager, b: Manager, t: Tier)
    requires Balanced(a, o) && Balanced(b, o)
    requires a.Registered(t).Keys == m.Registered(t).Keys == b.Registered(t).Keys
    requires forall id :: id in m.Registered(t) ==> a.Registered(t)[id] == b.Registered(t)[id]
    ensures a.pools.Of(t) == b.pools.Of(t) && a.Registered(t) == b.Registered(t)
  {
    assert forall id :: a.pools.Of(t)[id] == b.pools.Of(t)[id];
  }

  /** No registered abnormal node records any handle. */
  ghost predicate AbnormalHoldNothing(m: Manager, o: Oracle)
  {
    forall t: Tier, id :: id in m.Registered(t) && o.isAbnormal(id) ==> m.Registered(t)[id].selectWeights == 0
  }

  /**
   Starting from a registry whose counts and types are right and whose
   abnormal nodes hold nothing, redistribution makes it consistent, whatever
   the pools held before.
   */
  lemma RedistributeRestoresConsistent(m: Manager, o: Oracle, candidateOrder: seq<NodeId>, edgeOrder: seq<NodeId>)
    requires Enumerates(candidateOrder, m.candidateNodes) && Enumerates(edgeOrder, m.edgeNodes)
    requires CountsMatch(m) && WellTyped(m) && AbnormalHoldNothing(m, o)
    ensures Consistent(Redistribute(m, o, candidateOrder, edgeOrder), o)
  {
    var r := Redistribute(m, o, candidateOrder, edgeOrder);
    SameKeysSameSize(r.edgeNodes, m.edgeNodes);
    SameKeysSameSize(r.candidateNodes, m.candidateNodes);
    RedistributedEntries(m, o, r);
  }

  /** Two maps with the same keys have the same size. */
  lemma SameKeysSameSize(a: map<NodeId, Node>, b: map<NodeId, Node>)
    requires a.Keys == b.Keys
    ensures |a| == |b|
  {
    assert |a| == |a.Keys|;
  }

  /** The entries redistribution leaves behind are well typed and record what the pools hold. */
  lemma RedistributedEntries(m: Manager, o: Oracle, r: Manager)
    requires WellTyped(m) && AbnormalHoldNothing(m, o) && Balanced(r, o)
    requires r.edgeNodes.Keys == m.edgeNodes.Keys && r.candidateNodes.Keys == m.candidateNodes.Keys
    requires forall t: Tier, id :: id in m.Registered(t) ==>
               r.Registered(t)[id] == if o.isAbnormal(id) then m.Registered(t)[id] else m.Registered(t)[id].(selectWeights := o.Slots(id))
    ensures WellTyped(r) && Mirrors(r)
  {
    assert WellTyped(r) by {
      forall t: Tier, id | id in r.Registered(t)
        ensures r.Registered(t)[id].id == id && r.Registered(t)[id].kind == KindOf(t)
      {
        assert r.Registered(t).Keys == m.Registered(t).Keys;
        RedistributedEntry(m, o, r, t, id);
      }
    }
    forall t: Tier, id
      ensures r.pools.Of(t)[id] == Held(r, t, id)
    {
      assert r.pools.Of(t)[id] == Earned(r, o, t, id);
      if id in r.Registered(t) {
        assert r.Registered(t).Keys == m.Registered(t).Keys;
        RedistributedEntry(m, o, r, t, id);
      }
    }
  }

  /** One entry after redistribution: same identity, and the handles it earns. */
  lemma RedistributedEntry(m: Manager, o: Oracle, r: Manager, t: Tier, id: NodeId)
    requires WellTyped(m) && AbnormalHoldNothing(m, o)
    requires r.Registered(t).Keys == m.Registered(t).Keys && id in r.Registered(t)
    requires r.Registered(t)[id] == if o.isAbnormal(id) then m.Registered(t)[id] else m.Registered(t)[id].(selectWeights := o.Slots(id))
    ensures r.Registered(t)[id].id == id && r.Registered(t)[id].kind == KindOf(t)
    ensures r.Registered(t)[id].selectWeights == o.Entitlement(id)
  {
    assert id in m.Registered(t);
  }

  /**
   A registered node that held handles and has since turned abnormal keeps
   its record of them after redistribution, although the pool no longer has
   them: the registry then no longer mirrors the pool.
   */
  lemma AbnormalNodeKeepsStaleRecord()
    ensures var n := Node("a", Edge, 0, 0, 0.0, NodeInfo(0, 0.0, 0.0), UnknownNat, 0, 0, 3);
            var m := Manager(map["a" := n], map[], 1, 0, Pools(multiset{"a", "a", "a"}, multiset{}), []);
            var o := Oracle(id => true, id => 0, level => 3);
            var r := Redistribute(m, o, [], ["a"]);
            && Mirrors(m)
            && r.edgeNodes["a"].selectWeights == 3
            && r.pools.edge["a"] == 0
            && !Mirrors(r)
  {
    var n := Node("a", Edge, 0, 0, 0.0, NodeInfo(0, 0.0, 0.0), UnknownNat, 0, 0, 3);
    var m := Manager(map["a" := n], map[], 1, 0, Pools(multiset{"a", "a", "a"}, multiset{}), []);
    var o := Oracle(id => true, id => 0, level => 3);
    var r := Redistribute(m, o, [], ["a"]);
    assert r.Registered(EdgeTier)["a"] == n;
    assert r.pools.Of(EdgeTier)["a"] == 0;
    assert Held(r, EdgeTier, "a") == 3;
    forall t: Tier, id
      ensures m.pools.Of(t)[id] == Held(m, t, id)
    {
    }
  }
}
