/**
 The periodic points pass: every registered node that is not abnormal is
 scored against the current edge count, edges first, then candidates, and
 the collected points are handed to storage in one call.
 */
module Profits {
  import opened Nodes
  import opened Weights
  import opened Registry
  import opened Scoring

  /**
   Visits the keys of one tier's map in the order `keys` and records the
   points of each node that is not abnormal, over what `acc` already holds.
   */
  function Collect(acc: map<NodeId, int>, nodes: map<NodeId, Node>, keys: seq<NodeId>, o: Oracle, edges: int): (r: map<NodeId, int>)
    ensures forall id :: id in r <==> id in acc || (id in keys && id in nodes && !o.isAbnormal(id))
    ensures forall id :: id in r ==>
              r[id] == if id in keys && id in nodes && !o.isAbnormal(id) then CalculateAndSavePoints(nodes[id], edges) else acc[id]
    decreases |keys|
  {
    if keys == [] then acc
    else
      var id := keys[0];
      assert forall k :: k in keys <==> k == id || k in keys[1..];
      if id !in nodes || o.isAbnormal(id) then Collect(acc, nodes, keys[1..], o, edges)
      else Collect(acc[id := CalculateAndSavePoints(nodes[id], edges)], nodes, keys[1..], o, edges)
  }

  /**
   The points handed to storage: one entry per registered ID that is not
   abnormal. An ID registered in both tiers gets its candidate entry's
   points, because the candidate pass runs second and overwrites.
   */
  function UpdateNodeProfits(m: Manager, o: Oracle, edgeOrder: seq<NodeId>, candidateOrder: seq<NodeId>): (r: map<NodeId, int>)
    requires Enumerates(edgeOrder, m.edgeNodes) && Enumerates(candidateOrder, m.candidateNodes)
    ensures forall id :: id in r <==> (id in m.edgeNodes || id in m.candidateNodes) && !o.isAbnormal(id)
    ensures forall id :: id in r ==>
              r[id] == CalculateAndSavePoints(if id in m.candidateNodes then m.candidateNodes[id] else m.edgeNodes[id], m.edges)
  {
    var e := Collect(map[], m.edgeNodes, edgeOrder, o, m.edges);
    Collect(e, m.candidateNodes, candidateOrder, o, m.edges)
  }

  /** The points handed to storage do not depend on the order either map is visited in. */
  lemma UpdateNodeProfitsOrderIrrelevant(m: Manager, o: Oracle, e1: seq<NodeId>, c1: seq<NodeId>, e2: seq<NodeId>, c2: seq<NodeId>)
    requires Enumerates(e1, m.edgeNodes) && Enumerates(c1, m.candidateNodes)
    requires Enumerates(e2, m.edgeNodes) && Enumerates(c2, m.candidateNodes)
    ensures UpdateNodeProfits(m, o, e1, c1) == UpdateNodeProfits(m, o, e2, c2)
  {
    var a := UpdateNodeProfits(m, o, e1, c1);
    var b := UpdateNodeProfits(m, o, e2, c2);
    assert a.Keys == b.Keys;
  }

  /** With no negative upload rate or disk size anywhere, every handed-over score lies between 0 and 170. */
  lemma UpdateNodeProfitsBounded(m: Manager, o: Oracle, edgeOrder: seq<NodeId>, candidateOrder: seq<NodeId>)
    requires Enumerates(edgeOrder, m.edgeNodes) && Enumerates(candidateOrder, m.candidateNodes)
    requires forall t: Tier, id :: id in m.Registered(t) ==>
               m.Registered(t)[id].bandwidthUp >= 0 && m.Registered(t)[id].info.diskSpace >= 0.0
    ensures forall id :: id in UpdateNodeProfits(m, o, edgeOrder, candidateOrder) ==>
              0 <= UpdateNodeProfits(m, o, edgeOrder, candidateOrder)[id] <= 170
  {
    var r := UpdateNodeProfits(m, o, edgeOrder, candidateOrder);
    forall id | id in r
      ensures 0 <= r[id] <= 170
    {
      if id in m.candidateNodes {
        assert id in m.Registered(CandidateTier);
      } else {
        assert id in m.Registered(EdgeTier);
      }
    }
  }
}
