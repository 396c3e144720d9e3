/**
 The keepalive sweep: every 30 seconds each registered node whose last
 request is not strictly after the cutoff is closed and removed; survivors
 accrue online minutes on every second tick, and a snapshot of each survivor
 is collected for storage.
 */
module Keepalive {
  import opened Wrappers
  import opened Nodes
  import opened Weights
  import opened Registry

  /** Durations are nanoseconds, as Go's `time.Duration`. */
  const Second: int := 1_000_000_000
  const Minute: int := 60 * Second

  /** Interval between keepalive ticks. */
  const KeepaliveTime: int := 30 * Second

  /** Every this many ticks the sweep accrues online time and saves snapshots. */
  const SaveInfoInterval: nat := 2

  /** Minutes credited on a save tick: two tick intervals, in whole minutes. */
  const OnlineIncrement: int := (SaveInfoInterval * KeepaliveTime) / Minute

  /** Whether the tick with counter value `count` (the first tick is 1) is a save tick. */
  predicate IsSaveTick(count: nat)
    ensures IsSaveTick(count) && count > 0 ==> count >= SaveInfoInterval
  {
    count % SaveInfoInterval == 0
  }

  /** Save ticks and plain ticks alternate, and the pattern repeats every interval. */
  lemma SaveTickAlternates(count: nat)
    ensures IsSaveTick(count) != IsSaveTick(count + 1)
    ensures IsSaveTick(count) == IsSaveTick(count + SaveInfoInterval)
  {
  }

  /** How many of the first `n` ticks are save ticks. */
  function SaveTicks(n: nat): (r: nat)
    ensures r <= n
  {
    if n == 0 then 0 else SaveTicks(n - 1) + (if IsSaveTick(n) then 1 else 0)
  }

  /** Exactly every second tick saves. */
  lemma {:induction false} SaveTicksIsHalf(n: nat)
    ensures SaveTicks(n) == n / 2
  {
    if n >= 2 {
      SaveTicksIsHalf(n - 2);
      assert SaveTicks(n) == SaveTicks(n - 2) + (if IsSaveTick(n - 1) then 1 else 0) + (if IsSaveTick(n) then 1 else 0);
      assert IsSaveTick(n - 1) != IsSaveTick(n);
    } else if n == 1 {
      assert !IsSaveTick(1);
    }
  }

  /** A node is alive at the cutoff only when its last request came strictly after it. */
  predicate Alive(n: Node, cutoff: int)
  {
    n.lastRequest > cutoff
  }

  /** A save tick credits exactly one minute. */
  lemma OnlineIncrementIsOneMinute()
    ensures OnlineIncrement == 1
  {
  }

  /** A node last heard from exactly at the cutoff is offline; one nanosecond later, it survives. */
  lemma CutoffIsOffline(m: Manager, t: Tier, id: NodeId, cutoff: int, isSave: bool)
    requires id in m.Registered(t)
    ensures m.Registered(t)[id].lastRequest == cutoff ==> !NodeKeepalive(m, t, id, cutoff, isSave).alive
    ensures m.Registered(t)[id].lastRequest == cutoff + 1 ==> NodeKeepalive(m, t, id, cutoff, isSave).alive
  {
  }

  /** A surviving node after one tick: one more online minute on a save tick. */
  function Accrue(n: Node, isSave: bool): (r: Node)
    ensures r.onlineDuration == n.onlineDuration + (if isSave then 1 else 0)
    ensures r.(onlineDuration := n.onlineDuration) == n
  {
    if isSave then n.(onlineDuration := n.onlineDuration + OnlineIncrement) else n
  }

  /** A node that stays alive through `ticks` ticks following tick number `from`. */
  function AccrueOver(n: Node, from: nat, ticks: nat): (r: Node)
    ensures r.(onlineDuration := n.onlineDuration) == n
    decreases ticks
  {
    if ticks == 0 then n else AccrueOver(Accrue(n, IsSaveTick(from + 1)), from + 1, ticks - 1)
  }

  /**
   A node alive through the first `ticks` ticks of the timer is credited
   `ticks / 2` minutes: online time follows the 30-second clock.
   */
  lemma {:induction false} AccrueOverCreditsHalfTicks(n: Node, ticks: nat)
    ensures AccrueOver(n, 0, ticks).onlineDuration == n.onlineDuration + ticks / 2
  {
    AccrueOverCounts(n, 0, ticks);
    SaveTicksIsHalf(ticks);
  }

  lemma {:induction false} AccrueOverCounts(n: Node, from: nat, ticks: nat)
    ensures AccrueOver(n, from, ticks).onlineDuration == n.onlineDuration + SaveTicks(from + ticks) - SaveTicks(from)
    decreases ticks
  {
    if ticks > 0 {
      AccrueOverCounts(Accrue(n, IsSaveTick(from + 1)), from + 1, ticks - 1);
    }
  }

  /** The record written to storage for a surviving node. */
  datatype Snapshot = Snapshot(id: NodeId, onlineDuration: int, diskUsage: real, lastSeen: int)

  function SnapshotOf(n: Node, now: int): Snapshot
  {
    Snapshot(n.id, n.onlineDuration, n.diskUsage, now)
  }

  /** The manager after checking one node, and whether the node survived. */
  datatype Check = Check(manager: Manager, alive: bool)

  /**
   Checks the node stored under `id` in tier `t`. A node whose last request
   is not strictly after the cutoff is closed and removed from the tier of
   its own type (a node of neither type is left in place); a survivor accrues
   online time in place.
   */
  function NodeKeepalive(m: Manager, t: Tier, id: NodeId, cutoff: int, isSave: bool): (r: Check)
    requires id in m.Registered(t)
    ensures r.alive <==> Alive(m.Registered(t)[id], cutoff)
    ensures r.alive ==> r.manager == m.WithTier(t, m.Registered(t)[id := Accrue(m.Registered(t)[id], isSave)], m.Count(t))
    ensures !r.alive && m.Registered(t)[id].kind != Unclassified ==>
              r.manager == Delete(m, TierOf(m.Registered(t)[id].kind), m.Registered(t)[id]).manager
    ensures !r.alive && m.Registered(t)[id].kind == Unclassified ==> r.manager == m
  {
    var n := m.Registered(t)[id];
    if !Alive(n, cutoff) then
      if n.kind == Unclassified then Check(m, false)
      else Check(Delete(m, TierOf(n.kind), n).manager, false)
    else if isSave then
      Check(m.WithTier(t, m.Registered(t)[id := Accrue(n, isSave)], m.Count(t)), true)
    else
      assert m.Registered(t)[id := n] == m.Registered(t);
      Check(m, true)
  }

  /** The manager after sweeping one tier, and the snapshots of its survivors. */
  datatype Sweep = Sweep(manager: Manager, batch: seq<Snapshot>)

  /** Checks the nodes of tier `t` in the visiting order `keys`. */
  function SweepTier(m: Manager, t: Tier, keys: seq<NodeId>, cutoff: int, isSave: bool, now: int): (r: Sweep)
    ensures |r.batch| <= |keys|
    decreases |keys|
  {
    if keys == [] then Sweep(m, [])
    else if keys[0] !in m.Registered(t) then SweepTier(m, t, keys[1..], cutoff, isSave, now)
    else
      var n := m.Registered(t)[keys[0]];
      var c := NodeKeepalive(m, t, keys[0], cutoff, isSave);
      var rest := SweepTier(c.manager, t, keys[1..], cutoff, isSave, now);
      if c.alive then Sweep(rest.manager, [SnapshotOf(Accrue(n, isSave), now)] + rest.batch)
      else rest
  }

  /** The outcome of one keepalive tick: the manager, the survivors' snapshots, and what is saved. */
  datatype Round = Round(manager: Manager, batch: seq<Snapshot>, saved: Option<seq<Snapshot>>)

  /**
   One keepalive tick at time `now`: edges are swept in `edgeOrder`, then
   candidates in `candidateOrder`, against the cutoff one interval ago; the
   batch is saved only on a save tick.
   */
  function NodesKeepalive(m: Manager, now: int, isSave: bool, edgeOrder: seq<NodeId>, candidateOrder: seq<NodeId>): (r: Round)
    ensures |r.batch| <= |edgeOrder| + |candidateOrder|
    ensures r.saved == if isSave then Some(r.batch) else None
  {
    var cutoff := now - KeepaliveTime;
    var e := SweepTier(m, EdgeTier, edgeOrder, cutoff, isSave, now);
    var c := SweepTier(e.manager, CandidateTier, candidateOrder, cutoff, isSave, now);
    var batch := e.batch + c.batch;
    Round(c.manager, batch, if isSave then Some(batch) else None)
  }

  /** One check, in a well-typed registry, touches only the checked entry of its own tier. */
  lemma KeepaliveStep(m: Manager, t: Tier, id: NodeId, cutoff: int, isSave: bool)
    requires WellTyped(m) && id in m.Registered(t)
    ensures var c := NodeKeepalive(m, t, id, cutoff, isSave);
            var n := m.Registered(t)[id];
            && c.manager.Registered(t.Other()) == m.Registered(t.Other())
            && c.manager.Count(t.Other()) == m.Count(t.Other())
            && c.manager.Registered(t) == (if c.alive then m.Registered(t)[id := Accrue(n, isSave)] else m.Registered(t) - {id})
            && c.manager.Count(t) == (if c.alive then m.Count(t) else m.Count(t) - 1)
            && WellTyped(c.manager)
  {
    var c := NodeKeepalive(m, t, id, cutoff, isSave);
    var n := m.Registered(t)[id];
    assert n.id == id && n.kind == KindOf(t);
    assert TierOf(n.kind) == t;
    forall t': Tier, x | x in c.manager.Registered(t')
      ensures c.manager.Registered(t')[x].id == x && c.manager.Registered(t')[x].kind == KindOf(t')
    {
      if t' != t {
        assert t' == t.Other();
      }
    }
  }

  /**
   Sweeping tier `t` of a well-typed registry in a visiting order of its keys
   removes exactly the visited nodes that are not alive, accrues online time
   for the visited survivors, keeps each count equal to its map's size up to
   the same offset, and leaves the other tier alone.
   */
  lemma {:induction false} SweepTierShape(m: Manager, t: Tier, keys: seq<NodeId>, cutoff: int, isSave: bool, now: int)
    requires WellTyped(m) && NoDuplicates(keys)
    requires forall k :: k in keys ==> k in m.Registered(t)
    ensures var r := SweepTier(m, t, keys, cutoff, isSave, now).manager;
            && WellTyped(r)
            && r.Registered(t.Other()) == m.Registered(t.Other()) && r.Count(t.Other()) == m.Count(t.Other())
            && (forall id :: id in r.Registered(t) <==> id in m.Registered(t) && (id in keys ==> Alive(m.Registered(t)[id], cutoff)))
            && (forall id :: id in r.Registered(t) ==>
                  r.Registered(t)[id] == if id in keys then Accrue(m.Registered(t)[id], isSave) else m.Registered(t)[id])
            && r.Count(t) - |r.Registered(t)| == m.Count(t) - |m.Registered(t)|
    decreases |keys|
  {
    if keys != [] {
      var id := keys[0];
      TailNoDuplicates(keys);
      KeepaliveStep(m, t, id, cutoff, isSave);
      var c := NodeKeepalive(m, t, id, cutoff, isSave);
      assert forall k :: k in keys <==> k == id || k in keys[1..];
      SweepTierShape(c.manager, t, keys[1..], cutoff, isSave, now);
      if c.alive {
        assert |c.manager.Registered(t)| == |m.Registered(t)| by {
          assert c.manager.Registered(t).Keys == m.Registered(t).Keys;
        }
      } else {
        SizeAfterRemove(m.Registered(t), id);
      }
    }
  }

  /** Sweeping tier `t` keeps the registry consistent: evicted nodes' handles leave the pool. */
  lemma {:induction false} SweepTierConsistent(m: Manager, t: Tier, keys: seq<NodeId>, cutoff: int, isSave: bool, now: int, o: Oracle)
    requires Consistent(m, o) && NoDuplicates(keys)
    requires forall k :: k in keys ==> k in m.Registered(t)
    ensures Consistent(SweepTier(m, t, keys, cutoff, isSave, now).manager, o)
    decreases |keys|
  {
    if keys != [] {
      var id := keys[0];
      TailNoDuplicates(keys);
      KeepaliveStep(m, t, id, cutoff, isSave);
      var c := NodeKeepalive(m, t, id, cutoff, isSave);
      var n := m.Registered(t)[id];
      if c.alive {
        AccrueKeepsConsistent(m, t, id, isSave, o);
      } else {
        assert TierOf(n.kind) == t;
        DeleteKeepsConsistent(m, t, n, o);
      }
      SweepTierConsistent(c.manager, t, keys[1..], cutoff, isSave, now, o);
    }
  }

  /** Crediting online time to a registered node keeps the registry consistent. */
  lemma AccrueKeepsConsistent(m: Manager, t: Tier, id: NodeId, isSave: bool, o: Oracle)
    requires Consistent(m, o) && id in m.Registered(t)
    ensures Consistent(m.WithTier(t, m.Registered(t)[id := Accrue(m.Registered(t)[id], isSave)], m.Count(t)), o)
  {
    var r := m.WithTier(t, m.Registered(t)[id := Accrue(m.Registered(t)[id], isSave)], m.Count(t));
    assert r.pools == m.pools;
    assert CountsMatch(r) by {
      assert r.Registered(t).Keys == m.Registered(t).Keys;
      assert |r.Registered(t)| == |m.Registered(t)|;
      assert r.Registered(t.Other()) == m.Registered(t.Other()) && r.Count(t.Other()) == m.Count(t.Other());
    }
    assert WellTyped(r) by {
      forall t': Tier, x | x in r.Registered(t')
        ensures r.Registered(t')[x].id == x && r.Registered(t')[x].kind == KindOf(t')
      {
        assert x in m.Registered(t');
        assert r.Registered(t')[x].id == m.Registered(t')[x].id && r.Registered(t')[x].kind == m.Registered(t')[x].kind;
      }
    }
    assert Mirrors(r) by {
      forall t': Tier, x
        ensures r.pools.Of(t')[x] == Held(r, t', x)
      {
        assert Held(r, t', x) == Held(m, t', x);
      }
    }
    assert Balanced(r, o) by {
      forall t': Tier, x
        ensures r.pools.Of(t')[x] == Earned(r, o, t', x)
      {
        assert Earned(r, o, t', x) == Earned(m, o, t', x);
      }
    }
  }

  /** Prepending a snapshot of a node the rest does not mention keeps a batch distinct. */
  lemma ConsDistinct(head: Snapshot, rest: seq<Snapshot>)
    requires DistinctSnapshots(rest)
    requires forall x :: x in rest ==> x.id != head.id
    ensures DistinctSnapshots([head] + rest)
  {
    var b := [head] + rest;
    forall i, j | 0 <= i < j < |b|
      ensures b[i].id != b[j].id
    {
      assert b[j] == rest[j - 1];
      if i > 0 {
        assert b[i] == rest[i - 1];
      }
    }
  }

  /** No two snapshots are of the same node. */
  predicate DistinctSnapshots(batch: seq<Snapshot>)
  {
    forall i, j :: 0 <= i < j < |batch| ==> batch[i].id != batch[j].id
  }

  /** Facts about a tier sweep's first step, as its batch lemmas use them. */
  lemma SweepHead(m: Manager, t: Tier, keys: seq<NodeId>, cutoff: int, isSave: bool, now: int)
    requires WellTyped(m) && NoDuplicates(keys) && keys != []
    requires forall k :: k in keys ==> k in m.Registered(t)
    ensures var id := keys[0];
            var c := NodeKeepalive(m, t, id, cutoff, isSave);
            var s := SweepTier(m, t, keys, cutoff, isSave, now);
            var rest := SweepTier(c.manager, t, keys[1..], cutoff, isSave, now);
            && WellTyped(c.manager) && NoDuplicates(keys[1..])
            && (forall k :: k in keys[1..] ==> k in c.manager.Registered(t))
            && s.manager == rest.manager
            && s.batch == (if c.alive then [SnapshotOf(Accrue(m.Registered(t)[id], isSave), now)] + rest.batch else rest.batch)
            && (id in s.manager.Registered(t) <==> c.alive)
            && (c.alive ==> s.manager.Registered(t)[id] == Accrue(m.Registered(t)[id], isSave))
  {
    var id := keys[0];
    TailNoDuplicates(keys);
    KeepaliveStep(m, t, id, cutoff, isSave);
    var c := NodeKeepalive(m, t, id, cutoff, isSave);
    assert forall k :: k in keys <==> k == id || k in keys[1..];
    SweepTierShape(c.manager, t, keys[1..], cutoff, isSave, now);
  }

  /** Every snapshot in a tier sweep's batch is of a visited survivor, as it stands after the sweep. */
  lemma {:induction false} SweepTierBatchSound(m: Manager, t: Tier, keys: seq<NodeId>, cutoff: int, isSave: bool, now: int)
    requires WellTyped(m) && NoDuplicates(keys)
    requires forall k :: k in keys ==> k in m.Registered(t)
    ensures var s := SweepTier(m, t, keys, cutoff, isSave, now);
            forall x :: x in s.batch ==>
              x.id in keys && x.id in s.manager.Registered(t) && x == SnapshotOf(s.manager.Registered(t)[x.id], now)
    decreases |keys|
  {
    if keys != [] {
      SweepHead(m, t, keys, cutoff, isSave, now);
      var c := NodeKeepalive(m, t, keys[0], cutoff, isSave);
      SweepTierBatchSound(c.manager, t, keys[1..], cutoff, isSave, now);
    }
  }

  /** Every visited survivor of a tier sweep has its snapshot in the batch. */
  lemma {:induction false} SweepTierBatchComplete(m: Manager, t: Tier, keys: seq<NodeId>, cutoff: int, isSave: bool, now: int)
    requires WellTyped(m) && NoDuplicates(keys)
    requires forall k :: k in keys ==> k in m.Registered(t)
    ensures var s := SweepTier(m, t, keys, cutoff, isSave, now);
            forall id :: id in keys && id in s.manager.Registered(t) ==> SnapshotOf(s.manager.Registered(t)[id], now) in s.batch
    decreases |keys|
  {
    if keys != [] {
      SweepHead(m, t, keys, cutoff, isSave, now);
      var c := NodeKeepalive(m, t, keys[0], cutoff, isSave);
      SweepTierBatchComplete(c.manager, t, keys[1..], cutoff, isSave, now);
      assert forall k :: k in keys <==> k == keys[0] || k in keys[1..];
    }
  }

  /** A tier sweep snapshots no node twice. */
  lemma {:induction false} SweepTierBatchDistinct(m: Manager, t: Tier, keys: seq<NodeId>, cutoff: int, isSave: bool, now: int)
    requires WellTyped(m) && NoDuplicates(keys)
    requires forall k :: k in keys ==> k in m.Registered(t)
    ensures DistinctSnapshots(SweepTier(m, t, keys, cutoff, isSave, now).batch)
    decreases |keys|
  {
    if keys != [] {
      SweepHead(m, t, keys, cutoff, isSave, now);
      var c := NodeKeepalive(m, t, keys[0], cutoff, isSave);
      SweepTierBatchDistinct(c.manager, t, keys[1..], cutoff, isSave, now);
      SweepTierBatchSound(c.manager, t, keys[1..], cutoff, isSave, now);
      var s := SweepTier(m, t, keys, cutoff, isSave, now);
      var rest := SweepTier(c.manager, t, keys[1..], cutoff, isSave, now);
      if c.alive {
        var head := SnapshotOf(Accrue(m.Registered(t)[keys[0]], isSave), now);
        assert head.id == keys[0];
        assert forall x :: x in rest.batch ==> x.id in keys[1..];
        ConsDistinct(head, rest.batch);
      }
    }
  }

  /**
   One keepalive tick over a well-typed registry, visiting every key of both
   tiers once: a node stays exactly when its last request is strictly after
   `now` minus one interval, each survivor has accrued the save tick's
   minute, and the batch holds one snapshot of each survivor and nothing
   else. Nothing here depends on the pools.
   */
  lemma NodesKeepaliveEffect(m: Manager, now: int, isSave: bool, edgeOrder: seq<NodeId>, candidateOrder: seq<NodeId>)
    requires WellTyped(m)
    requires Enumerates(edgeOrder, m.edgeNodes) && Enumerates(candidateOrder, m.candidateNodes)
    ensures var r := NodesKeepalive(m, now, isSave, edgeOrder, candidateOrder);
            && WellTyped(r.manager)
            && (forall t: Tier, id :: id in r.manager.Registered(t) <==> id in m.Registered(t) && Alive(m.Registered(t)[id], now - KeepaliveTime))
            && (forall t: Tier, id :: id in r.manager.Registered(t) ==> r.manager.Registered(t)[id] == Accrue(m.Registered(t)[id], isSave))
            && (forall t: Tier, id :: id in r.manager.Registered(t) ==> SnapshotOf(r.manager.Registered(t)[id], now) in r.batch)
            && (forall x :: x in r.batch ==>
                  || (x.id in r.manager.edgeNodes && x == SnapshotOf(r.manager.edgeNodes[x.id], now))
                  || (x.id in r.manager.candidateNodes && x == SnapshotOf(r.manager.candidateNodes[x.id], now)))
  {
    var cutoff := now - KeepaliveTime;
    var e := SweepTier(m, EdgeTier, edgeOrder, cutoff, isSave, now);
    SweepTierShape(m, EdgeTier, edgeOrder, cutoff, isSave, now);
    SweepTierBatchSound(m, EdgeTier, edgeOrder, cutoff, isSave, now);
    SweepTierBatchComplete(m, EdgeTier, edgeOrder, cutoff, isSave, now);
    assert e.manager.candidateNodes == m.candidateNodes;
    var c := SweepTier(e.manager, CandidateTier, candidateOrder, cutoff, isSave, now);
    SweepTierShape(e.manager, CandidateTier, candidateOrder, cutoff, isSave, now);
    SweepTierBatchSound(e.manager, CandidateTier, candidateOrder, cutoff, isSave, now);
    SweepTierBatchComplete(e.manager, CandidateTier, candidateOrder, cutoff, isSave, now);
    var r := NodesKeepalive(m, now, isSave, edgeOrder, candidateOrder);
    assert r.manager == c.manager && r.batch == e.batch + c.batch;
    assert c.manager.edgeNodes == e.manager.edgeNodes;
    forall t: Tier, id
      ensures id in r.manager.Registered(t) <==> id in m.Registered(t) && Alive(m.Registered(t)[id], cutoff)
      ensures id in r.manager.Registered(t) ==> r.manager.Registered(t)[id] == Accrue(m.Registered(t)[id], isSave)
      ensures id in r.manager.Registered(t) ==> SnapshotOf(r.manager.Registered(t)[id], now) in r.batch
    {
      if t == EdgeTier {
        if id in r.manager.Registered(t) {
          assert SnapshotOf(e.manager.Registered(t)[id], now) in e.batch;
        }
      } else {
        if id in r.manager.Registered(t) {
          assert SnapshotOf(c.manager.Registered(t)[id], now) in c.batch;
        }
      }
    }
    forall x | x in r.batch
      ensures || (x.id in r.manager.edgeNodes && x == SnapshotOf(r.manager.edgeNodes[x.id], now))
              || (x.id in r.manager.candidateNodes && x == SnapshotOf(r.manager.candidateNodes[x.id], now))
    {
      if x in e.batch {
        assert x.id in e.manager.Registered(EdgeTier);
      } else {
        assert x in c.batch;
        assert x.id in c.manager.Registered(CandidateTier);
      }
    }
  }

  /** A keepalive tick keeps a consistent registry consistent: evicted nodes' handles leave the pools. */
  lemma NodesKeepaliveKeepsConsistent(m: Manager, now: int, isSave: bool, edgeOrder: seq<NodeId>, candidateOrder: seq<NodeId>, o: Oracle)
    requires Consistent(m, o)
    requires Enumerates(edgeOrder, m.edgeNodes) && Enumerates(candidateOrder, m.candidateNodes)
    ensures Consistent(NodesKeepalive(m, now, isSave, edgeOrder, candidateOrder).manager, o)
  {
    var cutoff := now - KeepaliveTime;
    var e := SweepTier(m, EdgeTier, edgeOrder, cutoff, isSave, now);
    SweepTierShape(m, EdgeTier, edgeOrder, cutoff, isSave, now);
    SweepTierConsistent(m, EdgeTier, edgeOrder, cutoff, isSave, now, o);
    assert e.manager.candidateNodes == m.candidateNodes;
    SweepTierConsistent(e.manager, CandidateTier, candidateOrder, cutoff, isSave, now, o);
  }
}
