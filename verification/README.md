# Scheduler node manager — a Dafny model

This project models the sequential logic of the scheduler's node manager
(`node/scheduler/node/manager.go`): the two registries of online nodes (edge
and candidate) with their live counts, the weight handles each node holds in
its tier's selection pool, the 30-second keepalive sweep, the daily weight
redistribution, bandwidth updates, and the points score with the periodic
pass that collects it.

Every operation is one atomic step over immutable values:

- `Nodes` — node values, NAT classes, node types, the two tiers, and the
  online/offline events.
- `Weights` — the two selection pools. Each pool is a multiset of the node IDs
  whose handles it holds, and a node records how many handles it holds
  (`selectWeights`). Three collaborators are not defined in the file:
  `IsAbnormal`, `getNodeScoreLevel` and `weightMgr.getWeightNum`. They enter
  as an `Oracle` of total functions.
- `Registry` — the `Manager` state (two maps, two counts, pools, event log).
  It provides store and delete, the bandwidth update and the edge-node
  listing. It also defines the invariants:
  - `CountsMatch`: each count equals its map's size.
  - `WellTyped`: every entry sits under its own ID, in the registry of its
    own type.
  - `Mirrors`: each pool holds exactly the handles the registered nodes
    record.
  - `Balanced`: each pool holds exactly the earned handles of the registered,
    non-abnormal nodes.
- `Maintenance` — the daily redistribution. Both pools are cleaned, then
  candidates are refilled, then edges.
- `Keepalive` — the tick counter, the per-node check, the per-tier sweep and
  one full keepalive round with its snapshot batch.
- `Scoring` — the points formula over `real`, with `Floor`-based truncation
  toward zero.
- `Profits` — the periodic points pass that scores every registered node
  that is not abnormal.

`sync.Map.Range` visits keys in an unspecified order. Where the code ranges
over a map, the model takes that order as a parameter: a sequence that
enumerates the map's keys. The results are proved not to depend on it where
that matters (`Maintenance.RedistributeOrderIrrelevant`). Times are integers
in nanoseconds, as Go's `time.Duration`.

Three details of the code decide the behaviour:

- A node whose last request time equals the cutoff exactly is **offline**:
  the test is `!lastTime.After(t)`.
- A save tick credits `(2 * 30s) / 1min` = **1 minute** of online time.
- `weighting` tests `num <= 5000` twice. The second test can never decide.
  `Scoring.WeightingMatchesTable` proves the function equals the table with
  each breakpoint once.

Two behaviours of the code are kept as written and stated as lemmas:

- `redistributeNodeSelectWeights` skips abnormal nodes without clearing their
  `selectWeights`. A node that held handles and has since turned abnormal
  keeps its record of them while the pool no longer has them. So
  redistribution restores consistency only when abnormal nodes hold nothing
  (`Maintenance.RedistributeRestoresConsistent`). Otherwise the registry
  stops mirroring the pool (`Maintenance.AbnormalNodeKeepsStaleRecord`).
  Whether repaying such stale handles later disturbs other nodes depends on
  the weight manager's handle layout, which is not part of this model.
- Storing into one tier never looks at the other tier. Nothing in the manager
  keeps one ID out of both maps (`Registry.StoreIgnoresOtherTier`).

## Model

| member | source | states |
|---|---|---|
| Weights.DistributeNodeWeight | node/scheduler/node/manager.go:216-228 | An abnormal node, or one of neither type, gets nothing and keeps its record. Otherwise the node records `getWeightNum(getNodeScoreLevel(id))` handles, and exactly that many copies of its ID are added to its own type's pool. The other pool and every other node's handles are untouched. |
| Weights.RepayNodeWeight | node/scheduler/node/manager.go:231-239 | The node's recorded handles leave its own type's pool; the pool cannot go below zero. The node then records none. The other pool and other nodes' handles are untouched. A node of neither type is left as it was. |
| Weights.RepayUndoesDistribute | node/scheduler/node/manager.go:216-239 | For a node that held nothing, repaying after distributing gives back exactly the original pools and node. |
| Registry.Store | node/scheduler/node/manager.go:155-187 | A nil node, or an ID the tier already holds, leaves the manager unchanged: no new handles, no online event. A fresh ID is added to the tier, and its entry is the passed node except for the handles it now records. The entry and the pools are exactly what distributing the node's weight yields, whatever the node's type or prior record. The tier's other entries keep their values. Its count goes up by one, one online event is appended, and the other tier is untouched. Only the stored node's pool entries can change. |
| Registry.StoreIdempotent | node/scheduler/node/manager.go:160-163 | Storing the same node twice gives the same manager as storing it once. |
| Registry.StoreKeepsCounts | node/scheduler/node/manager.go:160-164 | If each count equals its map's size before a store, it does after. |
| Registry.StoreIgnoresOtherTier | node/scheduler/node/manager.go:155-187 | An ID that only the other tier holds is still stored. Both maps then hold it, and this tier's count goes up by one. |
| Registry.EmptyConsistent | node/scheduler/node/manager.go:44-52 | A new manager, with empty maps, zero counts and empty pools, satisfies the invariant that store, delete, the keepalive sweep and the bandwidth update preserve. |
| Registry.Delete | node/scheduler/node/manager.go:190-213 | The ID leaves the tier's map. The count goes down by one only if the ID was there. The offline event is appended in both cases. The node's handles are repaid from its type's pool, and the other pool is untouched. The returned node is the passed one with its record cleared, even when the ID was absent. A node of neither type is returned as passed, and the pools are untouched. No other node's handles change. |
| Registry.DeleteKeepsCounts | node/scheduler/node/manager.go:195-212 | If each count equals its map's size before a delete, it does after, whether or not the ID was present. |
| Registry.StoreKeepsWellTyped | node/scheduler/node/manager.go:155-187 | Storing a fresh node of the tier's type keeps every entry under its own ID, in the registry of its type. |
| Registry.StorePools | node/scheduler/node/manager.go:160-166 | After a fresh store, the node's own tier gains the node's entitlement in both pool and record, and nothing else changes. The entitlement is zero when the node is abnormal. |
| Registry.StoreKeepsConsistent | node/scheduler/node/manager.go:155-228 | A fresh store of a node of the tier's type that holds nothing keeps counts, types, pool mirroring and pool balance. |
| Registry.DeletePools | node/scheduler/node/manager.go:190-239 | After a delete, the pool entry of the deleted ID in its tier is reduced by the node's recorded handles, clipped at zero. Every other entry is unchanged. |
| Registry.DeleteEntries | node/scheduler/node/manager.go:194-212 | After a delete, only the deleted ID's entry in its own tier disappears. Other entries and their recorded handles are unchanged. |
| Registry.DeleteKeepsWellTyped | node/scheduler/node/manager.go:190-213 | Deleting keeps every remaining entry under its own ID, in the registry of its type. |
| Registry.DeleteKeepsConsistent | node/scheduler/node/manager.go:190-239 | Deleting a node of the tier's type keeps counts, types, pool mirroring and pool balance. If the ID is registered, the node must be the registered one. |
| Registry.StoreThenDeleteRestores | node/scheduler/node/manager.go:155-239 | Storing a fresh node and then deleting the stored node restores both maps, both counts and both pools. Only the online and offline events remain. |
| Registry.GetNode | node/scheduler/node/manager.go:378-381 | The lookup finds the tier holding the ID. It finds none exactly when neither map holds the ID. |
| Registry.ApplyBandwidths | node/scheduler/node/manager.go:383-388 | Each of down and up is replaced only by a strictly positive value and kept otherwise. Every other field stays as it was. |
| Registry.UpdateNodeBandwidths | node/scheduler/node/manager.go:377-394 | An unknown ID changes nothing and writes nothing. A known node gets the new bandwidths in its own map entry and nothing else in the manager changes. The pair written to storage is the node's new pair. |
| Registry.UpdateNodeBandwidthsIdempotent | node/scheduler/node/manager.go:377-394 | Applying the same report twice gives the same outcome as applying it once. |
| Registry.UpdateNodeBandwidthsKeepsConsistent | node/scheduler/node/manager.go:377-394 | A bandwidth report keeps counts, types, pool mirroring and pool balance. |
| Registry.GetAllEdgeNode | node/scheduler/node/manager.go:363-374 | The listing has one element per edge node, in visiting order. Each element is a registered edge node, and every registered edge node appears. |
| Maintenance.RefillTier | node/scheduler/node/manager.go:333-359 | Refilling a tier adds each visited, registered, non-abnormal node's earned handles to that tier's pool, once per node. It sets those nodes' records to the earned count, skips abnormal nodes, and leaves the other pool and the map's keys unchanged. |
| Maintenance.Redistribute | node/scheduler/node/manager.go:328-360 | After redistribution, each pool holds exactly the earned handles of the registered, non-abnormal nodes of its tier and nothing else. Keys, counts and events are unchanged. Non-abnormal nodes record their earned count; abnormal nodes are left as they were. |
| Maintenance.RedistributeForgetsPriorPools | node/scheduler/node/manager.go:329-330 | The result does not depend on what the pools held before, so no handle from before the run survives. |
| Maintenance.RedistributeOrderIrrelevant | node/scheduler/node/manager.go:333-359 | Any two visiting orders of the two maps give the same manager. |
| Maintenance.RedistributeRestoresConsistent | node/scheduler/node/manager.go:328-360 | If counts and types are right and no abnormal node records handles, redistribution leaves the registry consistent, whatever the pools held. |
| Maintenance.AbnormalNodeKeepsStaleRecord | node/scheduler/node/manager.go:336-338 | In this concrete case, an abnormal edge node recording three handles still records three after redistribution. Its pool now has none for it, so the registry no longer mirrors the pool. |
| Keepalive.SaveTicksIsHalf | node/scheduler/node/manager.go:66-73 | Of the first n ticks of the counter, exactly n / 2 are save ticks. |
| Keepalive.OnlineIncrementIsOneMinute | node/scheduler/node/manager.go:258-261 | Each save tick credits one minute: two 30-second intervals, in whole minutes. |
| Keepalive.Accrue | node/scheduler/node/manager.go:258-261 | A survivor's online duration grows by 1 on a save tick and by 0 otherwise. Nothing else about it changes. |
| Keepalive.AccrueOverCreditsHalfTicks | node/scheduler/node/manager.go:66-73 | A node alive through the first n ticks of the timer is credited n / 2 minutes. |
| Keepalive.IsSaveTick | node/scheduler/node/manager.go:65-72 | With the counter starting at 1, no tick saves before the second. |
| Keepalive.SaveTickAlternates | node/scheduler/node/manager.go:65-72 | Save ticks and plain ticks alternate, and the pattern repeats every two ticks. |
| Keepalive.NodeKeepalive | node/scheduler/node/manager.go:242-264 | A node survives exactly when its last request is strictly after the cutoff. A survivor is accrued in place. A dead node is deleted from the tier of its own type, or left in place if it has neither type. |
| Keepalive.CutoffIsOffline | node/scheduler/node/manager.go:243-245 | A node last heard from exactly at the cutoff is offline. One nanosecond later, it survives. |
| Keepalive.KeepaliveStep | node/scheduler/node/manager.go:245-262 | In a well-typed registry, one check either removes the entry and decrements its own tier's count, or accrues it. The other tier is left alone, and the registry stays well typed. |
| Keepalive.SweepTier | node/scheduler/node/manager.go:272-306 | A tier sweep snapshots at most one node per visited key. |
| Keepalive.SweepTierShape | node/scheduler/node/manager.go:272-306 | Sweeping a tier removes exactly the visited nodes that are not alive. Visited survivors are accrued and unvisited entries kept. The count stays equal to the map size up to the same offset. The other tier is untouched. |
| Keepalive.SweepTierConsistent | node/scheduler/node/manager.go:245-251 | A tier sweep keeps the registry consistent; evicted nodes' handles leave the pool. |
| Keepalive.AccrueKeepsConsistent | node/scheduler/node/manager.go:258-261 | Crediting online time to a registered node keeps the registry consistent. |
| Keepalive.SweepTierBatchSound | node/scheduler/node/manager.go:278-285 | Every snapshot in a tier's batch is of a visited survivor, with its accrued online duration. |
| Keepalive.SweepTierBatchComplete | node/scheduler/node/manager.go:278-285 | Every visited survivor has its snapshot in the tier's batch. |
| Keepalive.SweepTierBatchDistinct | node/scheduler/node/manager.go:278-285 | No node is snapshotted twice in one tier's batch. |
| Keepalive.NodesKeepalive | node/scheduler/node/manager.go:267-314 | A round snapshots at most one node per visited key. The batch is handed to storage on save ticks only. |
| Keepalive.NodesKeepaliveEffect | node/scheduler/node/manager.go:267-314 | Over any well-typed registry, whatever its pools hold, a node stays exactly when its last request is strictly after now minus 30 s. Each survivor is accrued, and the registry stays well typed. The batch holds a snapshot of every survivor and of survivors only. |
| Keepalive.NodesKeepaliveKeepsConsistent | node/scheduler/node/manager.go:242-314 | A round over a consistent registry leaves it consistent: evicted nodes' handles leave the pools. |
| Scoring.Min | node/scheduler/node/manager.go:447-453 | The result is one of the arguments and no larger than either. |
| Scoring.Max | node/scheduler/node/manager.go:455-461 | The result is one of the arguments and no smaller than either. |
| Scoring.BytesToGB | node/scheduler/node/manager.go:428-430 | The result times 1024³ gives back the byte count. |
| Scoring.Triangular | node/scheduler/node/manager.go:489-495 | The sum 1 + ... + n equals n(n+1)/2. |
| Scoring.Steps | node/scheduler/node/manager.go:489-495 | The loop runs at most 4 times. Every counted k is at most min(x, 4), and the next one is not. |
| Scoring.CalculateMC | node/scheduler/node/manager.go:485-498 | The two capped loops compute 0.7 times the sum of the two triangular numbers, which lies between 0 and 14. |
| Scoring.MCBounds | node/scheduler/node/manager.go:485-498 | The CPU/memory term lies in [0, 14]. |
| Scoring.CalculateMN | node/scheduler/node/manager.go:432-445 | The NAT multiplier lies between 0 and 2.5 and is 0 exactly for an unknown NAT class. |
| Scoring.CalculateMNInjective | node/scheduler/node/manager.go:432-445 | Distinct NAT classes get distinct multipliers. |
| Scoring.Weighting | node/scheduler/node/manager.go:463-483 | The population factor lies between 1 and 2. It is 2 exactly up to 2000 edge nodes and 1 exactly past 50000. |
| Scoring.WeightingMatchesTable | node/scheduler/node/manager.go:463-483 | The population factor equals the table in which each breakpoint appears once, so the repeated `<= 5000` test never decides. |
| Scoring.WeightingNonIncreasing | node/scheduler/node/manager.go:463-483 | The factor never grows with the population and stays between 1 and 2. |
| Scoring.Trunc | node/scheduler/node/manager.go:422 | Conversion to int truncates toward zero. |
| Scoring.TruncMonotone | node/scheduler/node/manager.go:422 | Truncation never reverses order. |
| Scoring.DiskTermPieces | node/scheduler/node/manager.go:416-417 | The disk term is 0.011·size up to 1000 GB and 0.01·size + 1 up to 2000 GB. Beyond that it is 20 + 2000/size. |
| Scoring.PointsFollowBaseScore | node/scheduler/node/manager.go:412-422 | For the same population, a larger pre-scaling sum never gives fewer points. |
| Scoring.MoreCoresNoFewerPoints | node/scheduler/node/manager.go:412-422 | More CPU cores never lower the points. |
| Scoring.MoreMemoryNoFewerPoints | node/scheduler/node/manager.go:412-422 | More memory never lowers the points. |
| Scoring.MoreBandwidthNoFewerPoints | node/scheduler/node/manager.go:412-422 | A faster upload never lowers the points. |
| Scoring.DiskTermMonotoneUpTo2000 | node/scheduler/node/manager.go:416-417 | Up to 2000 GB, a larger disk never lowers the disk term. |
| Scoring.MoreDiskNoFewerPoints | node/scheduler/node/manager.go:412-422 | Up to 2000 GB, a larger disk never lowers the points. |
| Scoring.DiskTermFallsPast2000 | node/scheduler/node/manager.go:417 | Past 2000 GB, the disk term strictly falls as the disk grows. |
| Scoring.PointsFallPast2000 | node/scheduler/node/manager.go:412-422 | In this concrete case, a node scores 42 points with 2000 GB and 41 with 4000 GB, so points are not monotone in disk size. |
| Scoring.PointsExample | node/scheduler/node/manager.go:412-422 | The example node gives (14 + 35 + 16) · 2 = 130 points: 4 cores, memory of at least 4, upload 200, full-cone NAT, a 1500 GB disk and 1000 edge nodes. |
| Scoring.DiskTermBounds | node/scheduler/node/manager.go:417 | A disk of non-negative size earns between 0 and 21. |
| Scoring.BandwidthTermBounds | node/scheduler/node/manager.go:414-415 | A non-negative upload rate earns between 0 and 50. |
| Scoring.PointsBounds | node/scheduler/node/manager.go:412-422 | With no negative upload rate or disk size, the points lie between 0 and 170. |
| Scoring.CalculateAndSavePoints | node/scheduler/node/manager.go:412-426 | With no negative upload rate or disk size, a node's points lie between 0 and 170. |
| Profits.Collect | node/scheduler/node/manager.go:116-130 | One tier's pass records an entry for exactly the visited registered IDs that are not abnormal, each with its node's points. Other entries are kept. |
| Profits.UpdateNodeProfits | node/scheduler/node/manager.go:114-152 | The handed-over points hold one entry per registered ID that is not abnormal, and nothing else. An ID in both tiers gets its candidate entry's points. |
| Profits.UpdateNodeProfitsOrderIrrelevant | node/scheduler/node/manager.go:114-146 | The points do not depend on the order either map is visited in. |
| Profits.UpdateNodeProfitsBounded | node/scheduler/node/manager.go:114-146 | With no negative upload rate or disk size anywhere, every handed-over score lies between 0 and 170. |

## Left out

- Goroutines, `sync.Map` concurrency, tickers and the midnight timer (manager.go:44-112). Each operation is one atomic step of a sequential model. So the non-atomic `Edges++`/`Edges--` race, which is a concurrency defect, is outside the model.
- Pub/sub delivery. Publishing is an append to the manager's event log.
- `ClientCloser` (the disconnect of a timed-out node). It changes no state the manager keeps.
- Storage calls: `SaveNodeInfo`, `UpdateOnlineDuration`, `UpdateNodeProfits`, `UpdateBandwidths`, `LoadDeactivateNodes`, `DeleteAssetRecordsOfNode`. The keepalive round and the bandwidth update return what they would write (`saved`). The storage itself and its errors are not modelled.
- `saveInfo` (manager.go:317-326), which stamps the node info with the current time and saves it, and `checkNodeDeactivate` (manager.go:396-409), which deletes the asset records of deactivated nodes. Both only call storage. `updateNodeProfits` is modelled as `Profits.UpdateNodeProfits`; the storage call it ends with is not.
- The RSA key and server ID, which this logic never uses.
- The weight manager's internals. Handles are modelled as copies of the owning node's ID in a per-tier multiset.
- `getNodeScoreLevel`, `getWeightNum`, `IsAbnormal`. These are collaborator functions in the `Oracle`. `IsAbnormal` is read as a predicate on the node's ID at the moment of the call.
- `LastRequestTime`. It is an input: the node's `lastRequest` field.
- The search order of `GetNode`. `GetNode` is defined outside manager.go, so `Registry.GetNode` assumes it searches the edge map first, then the candidate map. Under either order, a node registered in only one tier is found there.
- Keepalive.NodesKeepalive: every snapshot takes one `now` for the whole tick, where the code calls `time.Now()` once per snapshot.
- Float64 rounding. Scoring uses exact reals, so results can differ from IEEE results near integer boundaries.
- Out-of-range float-to-int conversion, and overflow of the tick counter, the online duration and the live counts. Go's `int` is modelled as unbounded.
- The debug log in `calculateAndSavePoints`.
- Node pointers. Go passes `*Node`, so the handles `Store` places are written into the caller's own node, and a later delete of that node repays them. The model stores node values: `Registry.Store` returns only the manager, so a caller must pass the registered value (`m.Registered(t)[id]`) to `Registry.Delete` for the handles to be repaid. The keepalive sweep and `Registry.StoreThenDeleteRestores` do so.
- The nil checks inside the `Range` callbacks. Store rejects nil nodes (modelled as `None`), so a map never holds nil. Deleting a nil node dereferences it in the code. The model's delete takes a node value.
