/**
 The node manager's registries: one map per tier from node ID to node, a live
 count per tier, the weight pools and the log of published events. Every
 operation is one atomic step of a sequential model.
 */
module Registry {
  import opened Wrappers
  import opened Nodes
  import opened Weights

  datatype Manager = Manager(
    edgeNodes: map<NodeId, Node>,
    candidateNodes: map<NodeId, Node>,
    edges: int,
    candidates: int,
    pools: Pools,
    events: seq<Event>)
  {
    function Registered(t: Tier): map<NodeId, Node>
    {
      match t
      case EdgeTier => edgeNodes
      case CandidateTier => candidateNodes
    }

    function Count(t: Tier): int
    {
      match t
      case EdgeTier => edges
      case CandidateTier => candidates
    }

    /** This manager with tier `t`'s map and count replaced. */
    function WithTier(t: Tier, nodes: map<NodeId, Node>, count: int): (r: Manager)
      ensures r.Registered(t) == nodes && r.Count(t) == count
      ensures r.Registered(t.Other()) == Registered(t.Other()) && r.Count(t.Other()) == Count(t.Other())
      ensures r.pools == pools && r.events == events
    {
      match t
      case EdgeTier => this.(edgeNodes := nodes, edges := count)
      case CandidateTier => this.(candidateNodes := nodes, candidates := count)
    }
  }

  /** A manager with no node registered. */
  const Empty := Manager(map[], map[], 0, 0, NoWeights, [])

  /** A new manager satisfies the invariant every operation keeps. */
  lemma EmptyConsistent(o: Oracle)
    ensures Consistent(Empty, o)
  {
  }

  /** Handles the registry says tier `t` holds for `id`. */
  function Held(m: Manager, t: Tier, id: NodeId): nat
  {
    if id in m.Registered(t) then m.Registered(t)[id].selectWeights else 0
  }

  /** Each live count equals the size of its map. */
  predicate CountsMatch(m: Manager)
  {
    m.edges == |m.edgeNodes| && m.candidates == |m.candidateNodes|
  }

  /** Every entry is stored under its own ID and in the registry of its own type. */
  predicate WellTyped(m: Manager)
  {
    forall t: Tier, id :: id in m.Registered(t) ==> m.Registered(t)[id].id == id && m.Registered(t)[id].kind == KindOf(t)
  }

  /** Each pool holds exactly the handles the registered nodes of its tier record. */
  ghost predicate Mirrors(m: Manager)
  {
    forall t: Tier, id :: m.pools.Of(t)[id] == Held(m, t, id)
  }

  /**
   Each pool holds, for every registered node that is not abnormal, the
   handles its score level earns, and nothing for anybody else.
   */
  ghost predicate Balanced(m: Manager, o: Oracle)
  {
    forall t: Tier, id :: m.pools.Of(t)[id] == Earned(m, o, t, id)
  }

  /** Handles tier `t`'s pool should hold for `id`: its entitlement while registered there. */
  function Earned(m: Manager, o: Oracle, t: Tier, id: NodeId): nat
  {
    if id in m.Registered(t) then o.Entitlement(id) else 0
  }

  /** The invariant the registry operations keep. */
  ghost predicate Consistent(m: Manager, o: Oracle)
  {
    CountsMatch(m) && WellTyped(m) && Mirrors(m) && Balanced(m, o)
  }

  /** A node as the connection layer hands it to the registry of tier `t`. */
  predicate Fresh(node: Node, t: Tier)
  {
    node.kind == KindOf(t) && node.selectWeights == 0
  }

  /**
   Joins a node to tier `t`. A nil node, or one whose ID the tier already
   holds, changes nothing. Otherwise the node is inserted, the count goes up
   by one, the node's handles are placed and an online event is published.
   */
  function Store(m: Manager, t: Tier, node: Option<Node>, o: Oracle): (r: Manager)
    ensures node.None? || node.value.id in m.Registered(t) ==> r == m
    ensures node.Some? && node.value.id !in m.Registered(t) ==>
              && r.Registered(t).Keys == m.Registered(t).Keys + {node.value.id}
              && r.Count(t) == m.Count(t) + 1
              && r.events == m.events + [NodeOnline(node.value.id)]
              && r.Registered(t.Other()) == m.Registered(t.Other()) && r.Count(t.Other()) == m.Count(t.Other())
              && (forall x :: x in m.Registered(t) ==> r.Registered(t)[x] == m.Registered(t)[x])
              && r.Registered(t)[node.value.id].(selectWeights := node.value.selectWeights) == node.value
              && r.Registered(t)[node.value.id] == DistributeNodeWeight(m.pools, node.value, o).node
              && r.pools == DistributeNodeWeight(m.pools, node.value, o).pools
    ensures forall x :: node.None? || x != node.value.id ==>
              r.pools.edge[x] == m.pools.edge[x] && r.pools.candidate[x] == m.pools.candidate[x]
  {
    if node.None? || node.value.id in m.Registered(t) then m
    else
      var n := node.value;
      var d := DistributeNodeWeight(m.pools, n, o);
      m.WithTier(t, m.Registered(t)[n.id := d.node], m.Count(t) + 1)
       .(pools := d.pools, events := m.events + [NodeOnline(n.id)])
  }

  /**
   Storing into one tier never looks at the other: an ID the other tier
   already holds is added all the same, and both maps then hold it.
   */
  lemma StoreIgnoresOtherTier(m: Manager, t: Tier, node: Node, o: Oracle)
    requires node.id in m.Registered(t.Other()) && node.id !in m.Registered(t)
    ensures var r := Store(m, t, Some(node), o);
            node.id in r.Registered(t) && node.id in r.Registered(t.Other())
            && r.Count(t) == m.Count(t) + 1
  {
  }

  /** The manager after a leave, and the caller's node with its handles repaid. */
  datatype Removal = Removal(manager: Manager, node: Node)

  /**
   Removes a node from tier `t`. Its handles are repaid and an offline event
   is published whether or not the tier holds the ID; the entry is removed and
   the count goes down by one only when it was there.
   */
  function Delete(m: Manager, t: Tier, node: Node): (r: Removal)
    ensures r.manager.Registered(t) == m.Registered(t) - {node.id}
    ensures r.manager.Count(t) == if node.id in m.Registered(t) then m.Count(t) - 1 else m.Count(t)
    ensures r.manager.Registered(t.Other()) == m.Registered(t.Other()) && r.manager.Count(t.Other()) == m.Count(t.Other())
    ensures r.manager.events == m.events + [NodeOffline(node.id)]
    ensures node.kind != Unclassified ==>
              r.manager.pools.Of(TierOf(node.kind))[node.id]
              == Minus(m.pools.Of(TierOf(node.kind))[node.id], node.selectWeights)
    ensures node.kind != Unclassified ==> r.manager.pools == RepayNodeWeight(m.pools, node).pools
    ensures node.kind != Unclassified ==> r.node == node.(selectWeights := 0)
    ensures node.kind == Unclassified ==> r.node == node && r.manager.pools == m.pools
    ensures forall x :: x != node.id ==>
              r.manager.pools.edge[x] == m.pools.edge[x] && r.manager.pools.candidate[x] == m.pools.candidate[x]
  {
    var p := RepayNodeWeight(m.pools, node);
    var m1 := m.(pools := p.pools, events := m.events + [NodeOffline(node.id)]);
    if node.id !in m.Registered(t) then Removal(m1, p.node)
    else Removal(m1.WithTier(t, m.Registered(t) - {node.id}, m.Count(t) - 1), p.node)
  }

  lemma SizeAfterInsert(nodes: map<NodeId, Node>, id: NodeId, n: Node)
    requires id !in nodes
    ensures |nodes[id := n]| == |nodes| + 1
  {
    assert nodes[id := n].Keys == nodes.Keys + {id};
  }

  lemma SizeAfterRemove(nodes: map<NodeId, Node>, id: NodeId)
    requires id in nodes
    ensures |nodes - {id}| == |nodes| - 1
  {
    assert (nodes - {id}).Keys == nodes.Keys - {id};
  }

  /** Joining twice is joining once. */
  lemma StoreIdempotent(m: Manager, t: Tier, node: Node, o: Oracle)
    ensures var once := Store(m, t, Some(node), o);
            Store(once, t, Some(node), o) == once
  {
  }

  /** A join keeps every live count equal to the size of its map. */
  lemma StoreKeepsCounts(m: Manager, t: Tier, node: Option<Node>, o: Oracle)
    requires CountsMatch(m)
    ensures CountsMatch(Store(m, t, node, o))
  {
    if node.Some? && node.value.id !in m.Registered(t) {
      SizeAfterInsert(m.Registered(t), node.value.id, DistributeNodeWeight(m.pools, node.value, o).node);
    }
  }

  /** A leave keeps every live count equal to the size of its map, present or not. */
  lemma DeleteKeepsCounts(m: Manager, t: Tier, node: Node)
    requires CountsMatch(m)
    ensures CountsMatch(Delete(m, t, node).manager)
  {
    if node.id in m.Registered(t) {
      SizeAfterRemove(m.Registered(t), node.id);
    }
  }

  /** Joining a fresh node of the tier's type keeps every entry in its place. */
  lemma StoreKeepsWellTyped(m: Manager, t: Tier, node: Node, o: Oracle)
    requires WellTyped(m)
    requires Fresh(node, t)
    ensures WellTyped(Store(m, t, Some(node), o))
  {
    var r := Store(m, t, Some(node), o);
    forall t': Tier, id | id in r.Registered(t')
      ensures r.Registered(t')[id].id == id && r.Registered(t')[id].kind == KindOf(t')
    {
      if t' != t || id != node.id || node.id in m.Registered(t) {
        assert r.Registered(t')[id] == m.Registered(t')[id];
      }
    }
  }

  /** The pools after a fresh join, pointwise. */
  lemma StorePools(m: Manager, t: Tier, node: Node, o: Oracle, t': Tier, id: NodeId)
    requires Fresh(node, t) && node.id !in m.Registered(t)
    ensures var r := Store(m, t, Some(node), o);
            && r.pools.Of(t')[id]
               == m.pools.Of(t')[id] + (if t' == t && id == node.id then o.Entitlement(id) else 0)
            && Held(r, t', id) == Held(m, t', id) + (if t' == t && id == node.id then o.Entitlement(id) else 0)
  {
    var d := DistributeNodeWeight(m.pools, node, o);
    var r := Store(m, t, Some(node), o);
    assert r.pools == d.pools;
    assert TierOf(node.kind) == t;
    if t' != t {
      assert t' == t.Other();
    }
  }

  /** Joining a fresh node of the tier's type keeps the registry consistent. */
  lemma StoreKeepsConsistent(m: Manager, t: Tier, node: Node, o: Oracle)
    requires Consistent(m, o)
    requires Fresh(node, t)
    ensures Consistent(Store(m, t, Some(node), o), o)
  {
    StoreKeepsCounts(m, t, Some(node), o);
    StoreKeepsWellTyped(m, t, node, o);
    var r := Store(m, t, Some(node), o);
    if node.id !in m.Registered(t) {
      assert Mirrors(r) && Balanced(r, o) by {
        forall t': Tier, id
          ensures r.pools.Of(t')[id] == Held(r, t', id)
          ensures r.pools.Of(t')[id] == Earned(r, o, t', id)
        {
          StoreEntry(m, t, node, o, t', id);
        }
      }
    }
  }

  /** One pool entry after a fresh join keeps what it mirrored and what it earned. */
  lemma StoreEntry(m: Manager, t: Tier, node: Node, o: Oracle, t': Tier, id: NodeId)
    requires Fresh(node, t) && node.id !in m.Registered(t)
    requires m.pools.Of(t')[id] == Held(m, t', id) && m.pools.Of(t')[id] == Earned(m, o, t', id)
    ensures var r := Store(m, t, Some(node), o);
            r.pools.Of(t')[id] == Held(r, t', id) && r.pools.Of(t')[id] == Earned(r, o, t', id)
  {
    StorePools(m, t, node, o, t', id);
    var r := Store(m, t, Some(node), o);
    if t' != t {
      assert t' == t.Other();
      assert r.Registered(t') == m.Registered(t');
    } else {
      assert id in r.Registered(t) <==> id in m.Registered(t) || id == node.id;
    }
  }

  /** The pools after a leave, pointwise. */
  lemma DeletePools(m: Manager, t: Tier, node: Node, t': Tier, id: NodeId)
    requires node.kind == KindOf(t)
    ensures var r := Delete(m, t, node).manager;
            r.pools.Of(t')[id]
            == if t' == t && id == node.id then Minus(m.pools.Of(t)[id], node.selectWeights) else m.pools.Of(t')[id]
  {
    assert TierOf(node.kind) == t;
    if t' != t {
      assert t' == t.Other();
    }
  }

  /** What a leave does to the registry, pointwise. */
  lemma DeleteEntries(m: Manager, t: Tier, node: Node, t': Tier, id: NodeId)
    ensures var r := Delete(m, t, node).manager;
            && (id in r.Registered(t') <==> id in m.Registered(t') && !(t' == t && id == node.id))
            && (id in r.Registered(t') ==> r.Registered(t')[id] == m.Registered(t')[id])
            && Held(r, t', id) == if t' == t && id == node.id then 0 else Held(m, t', id)
  {
    if t' != t {
      assert t' == t.Other();
    }
  }

  /** A leave keeps every remaining entry in its place. */
  lemma DeleteKeepsWellTyped(m: Manager, t: Tier, node: Node)
    requires WellTyped(m)
    ensures WellTyped(Delete(m, t, node).manager)
  {
    var r := Delete(m, t, node).manager;
    forall t': Tier, id | id in r.Registered(t')
      ensures r.Registered(t')[id].id == id && r.Registered(t')[id].kind == KindOf(t')
    {
      DeleteEntries(m, t, node, t', id);
    }
  }

  /**
   Removing a node of the tier's type (the registered one, if its ID is
   registered) keeps the registry consistent: its handles leave the pool and
   nobody else's do.
   */
  lemma DeleteKeepsConsistent(m: Manager, t: Tier, node: Node, o: Oracle)
    requires Consistent(m, o)
    requires node.kind == KindOf(t)
    requires node.id in m.Registered(t) ==> m.Registered(t)[node.id] == node
    ensures Consistent(Delete(m, t, node).manager, o)
  {
    DeleteKeepsCounts(m, t, node);
    DeleteKeepsWellTyped(m, t, node);
    var r := Delete(m, t, node).manager;
    forall t': Tier, id | true
      ensures r.pools.Of(t')[id] == Held(r, t', id)
      ensures r.pools.Of(t')[id] == Earned(r, o, t', id)
    {
      DeletePools(m, t, node, t', id);
      DeleteEntries(m, t, node, t', id);
      assert m.pools.Of(t')[id] == Held(m, t', id);
    }
  }

  /**
   A join followed by the leave of the node it stored gives back the registry,
   counts and pools as they were; only the two events remain.
   */
  lemma StoreThenDeleteRestores(m: Manager, t: Tier, node: Node, o: Oracle)
    requires node.id !in m.Registered(t)
    requires Fresh(node, t)
    ensures var s := Store(m, t, Some(node), o);
            var r := Delete(s, t, s.Registered(t)[node.id]).manager;
            && r.Registered(t) == m.Registered(t) && r.Count(t) == m.Count(t)
            && r.Registered(t.Other()) == m.Registered(t.Other()) && r.Count(t.Other()) == m.Count(t.Other())
            && r.pools == m.pools
            && r.events == m.events + [NodeOnline(node.id), NodeOffline(node.id)]
  {
    var s := Store(m, t, Some(node), o);
    var d := DistributeNodeWeight(m.pools, node, o);
    assert s.pools == d.pools;
    assert s.Registered(t)[node.id] == d.node;
    RepayUndoesDistribute(m.pools, node, o);
    var r := Delete(s, t, d.node).manager;
    assert r.pools == RepayNodeWeight(d.pools, d.node).pools;
    assert r.Registered(t) == s.Registered(t) - {node.id};
    assert r.Registered(t) == m.Registered(t);
  }

  /**
   Where `id` is registered: the edge registry is searched first, then the
   candidate registry.
   */
  function GetNode(m: Manager, id: NodeId): (r: Option<Tier>)
    ensures r.None? <==> id !in m.edgeNodes && id !in m.candidateNodes
    ensures r.Some? ==> id in m.Registered(r.value)
  {
    if id in m.edgeNodes then Some(EdgeTier)
    else if id in m.candidateNodes then Some(CandidateTier)
    else None
  }

  /** The bandwidth pair written to storage. */
  datatype Bandwidths = Bandwidths(id: NodeId, down: int, up: int)

  /** The manager after a bandwidth report, and the write it sends to storage, if any. */
  datatype BandwidthUpdate = BandwidthUpdate(manager: Manager, saved: Option<Bandwidths>)

  /** The node's bandwidths after a report: a value that is not positive means "unknown". */
  function ApplyBandwidths(n: Node, down: int, up: int): (r: Node)
    ensures r.bandwidthDown == if down > 0 then down else n.bandwidthDown
    ensures r.bandwidthUp == if up > 0 then up else n.bandwidthUp
    ensures r.(bandwidthDown := n.bandwidthDown, bandwidthUp := n.bandwidthUp) == n
  {
    n.(bandwidthDown := if down > 0 then down else n.bandwidthDown,
       bandwidthUp := if up > 0 then up else n.bandwidthUp)
  }

  /**
   Applies a bandwidth report to a registered node and writes the resulting
   pair to storage. An unknown ID changes nothing and writes nothing.
   */
  function UpdateNodeBandwidths(m: Manager, id: NodeId, down: int, up: int): (r: BandwidthUpdate)
    ensures GetNode(m, id).None? ==> r == BandwidthUpdate(m, None)
    ensures GetNode(m, id).Some? ==>
              var t := GetNode(m, id).value;
              var n := ApplyBandwidths(m.Registered(t)[id], down, up);
              && r.manager.Registered(t) == m.Registered(t)[id := n]
              && r.manager.Registered(t.Other()) == m.Registered(t.Other())
              && r.manager.Count(t) == m.Count(t) && r.manager.Count(t.Other()) == m.Count(t.Other())
              && r.manager.pools == m.pools && r.manager.events == m.events
              && r.saved == Some(Bandwidths(id, n.bandwidthDown, n.bandwidthUp))
  {
    match GetNode(m, id)
    case None => BandwidthUpdate(m, None)
    case Some(t) =>
      var n := ApplyBandwidths(m.Registered(t)[id], down, up);
      BandwidthUpdate(m.WithTier(t, m.Registered(t)[id := n], m.Count(t)), Some(Bandwidths(id, n.bandwidthDown, n.bandwidthUp)))
  }

  /** Reporting the same bandwidths twice leaves the registry as reporting them once. */
  lemma UpdateNodeBandwidthsIdempotent(m: Manager, id: NodeId, down: int, up: int)
    ensures var once := UpdateNodeBandwidths(m, id, down, up);
            var twice := UpdateNodeBandwidths(once.manager, id, down, up);
            twice == once
  {
  }

  /** A bandwidth report keeps the registry consistent. */
  lemma UpdateNodeBandwidthsKeepsConsistent(m: Manager, id: NodeId, down: int, up: int, o: Oracle)
    requires Consistent(m, o)
    ensures Consistent(UpdateNodeBandwidths(m, id, down, up).manager, o)
  {
    var r := UpdateNodeBandwidths(m, id, down, up).manager;
    if GetNode(m, id).Some? {
      var t := GetNode(m, id).value;
      assert |r.Registered(t)| == |m.Registered(t)| by {
        assert r.Registered(t).Keys == m.Registered(t).Keys;
      }
      forall t': Tier, x
        ensures Held(r, t', x) == Held(m, t', x)
        ensures x in r.Registered(t') <==> x in m.Registered(t')
        ensures x in r.Registered(t') ==> r.Registered(t')[x].id == m.Registered(t')[x].id && r.Registered(t')[x].kind == m.Registered(t')[x].kind
      {
        if t' != t {
          assert t' == t.Other();
        }
      }
    }
  }

  /** A sequence without repetitions has as many elements as its set. */
  lemma {:induction false} DistinctCardinality(keys: seq<NodeId>)
    requires NoDuplicates(keys)
    ensures |set k | k in keys| == |keys|
    decreases |keys|
  {
    if keys != [] {
      var rest := keys[1..];
      TailNoDuplicates(keys);
      DistinctCardinality(rest);
      assert (set k | k in keys) == (set k | k in rest) + {keys[0]};
    }
  }

  /**
   A point-in-time list of the edge nodes, in the map's visiting order `order`:
   every registered edge node exactly once.
   */
  function GetAllEdgeNode(m: Manager, order: seq<NodeId>): (r: seq<Node>)
    requires Enumerates(order, m.edgeNodes)
    ensures |r| == |order| == |m.edgeNodes|
    ensures forall i :: 0 <= i < |r| ==> order[i] in m.edgeNodes && r[i] == m.edgeNodes[order[i]]
    ensures forall id :: id in m.edgeNodes ==> m.edgeNodes[id] in r
  {
    DistinctCardinality(order);
    assert (set k | k in order) == m.edgeNodes.Keys;
    var r := seq(|order|, i requires 0 <= i < |order| => m.edgeNodes[order[i]]);
    assert forall id :: id in m.edgeNodes ==> m.edgeNodes[id] in r by {
      forall id | id in m.edgeNodes
        ensures m.edgeNodes[id] in r
      {
        var i :| 0 <= i < |order| && order[i] == id;
        assert r[i] == m.edgeNodes[id];
      }
    }
    r
  }
}
