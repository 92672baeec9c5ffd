# Route analysis of an Omni-Path fabric: a verified model

This project models the routing-analysis engine of the topology library
(`Topology/fabricdata.c`, `Topology/route.c` and the selection algebra of
`Topology/point.c`) and proves what its reports mean.

* **Credit loops.** Routes between FI ports are traced, recorded as connections
  and forwarding entries, walked into a channel-dependency graph, pruned, and
  split into components. `Relations.dfy` holds the graph theory, `GraphView.dfy`
  the graph as a value with its representation invariant, `CreditGraph.dfy` the
  mutable graph, `ArcDeletion.dfy`, `Prune.dfy`, `Split.dfy`, `SplitGraph.dfy`,
  `Components.dfy` and `Verdict.dfy` pruning, splitting and the verdict, `CreditRoutes.dfy` and
  `RouteGraph.dfy` how the graph comes about, `Retrace.dfy` what its walks follow,
  `FabricWalks.dfy` and `FabricLoops.dfy` how they compare with the walks of the
  fabric, and `CreditLoops.dfy` the analysis from end to end. `Rings.dfy` and
  `WrongVerdicts.dfy` are fabrics on which the verdict is not that of the walks,
  `Runaway.dfy` says when the builder's walk never stops, and `Relaxation.dfy` is
  the distance computation on a component.
* **Walks and analyses.** `Fabric.dfy` is the fabric, `RouteWalk.dfy` the unicast
  walk, `WalkReports.dfy` what it reports, `Multicast.dfy` the multicast walk,
  `Tiers.dfy` the fat-tree tiers, `ServiceChannels.dfy` the service channels in
  use, `FlowBalance.dfy` the route counts per port, with `LidBits.dfy` for the
  LIDs of a range.
* **Indexes kept under mutation.** `LidMap.dfy` is the LID array, `ScTables.dfy`
  the interned SC-to-SC tables, `Links.dfy` the link relation and its counters.
* **Points.** `Points.dfy` compares and compresses selections.

Each operation that changes state is a method whose contract equates the new
state with a pure function of the old one; the properties are lemmas about
those functions. `dafny verify dfyconfig.toml` checks the whole project.

## Main results

* The verdict is exact about the routes that are walked: "deadlock free" is
  reported if and only if those routes use no channels one after the other in a
  cycle. Pruning ends in the greatest set of arcs in which every source has an
  incoming arc and every sink an outgoing one, whatever the vertex order, and
  repeated splitting takes it apart into its weakly connected components, one for
  one, each with a cycle. Their number is the one that is reported; in terms of
  channels, it is the number of disconnected parts of the largest set of
  dependencies in which each is led to and led on from.
* The routes walked are characterised on the fabric, without looking at what was
  recorded. Routes are traced on service level 0 (`Topology/route.c:267`) and
  walked, on each level in use, to one LID of each FI, the base LID of the port by
  which it was recorded (`Topology/fabricdata.c:2595`), under the SC tables alone
  (`Topology/fabricdata.c:2626-2652`). Where FIs have one port each, a dependency is
  found if and only if it is one of a route to a base LID whose walk on level 0
  arrives, under the SC tables composed along it, before they first yield 15.
* So the verdict is that of the walks on the levels in use, to base LIDs, under two
  conditions, each of which is exact for one half. The builder retraces every walk
  that arrives if and only if the walk on level 0 arrives wherever one on a level in
  use does, as it does when no path is bad; then no loop is missed. It visits two
  channels or more only where they are those of a walk that arrives if and only if
  no level that the SC tables let past two exits is refused later, or for want of a
  lane; then no loop is reported in error. Tables without 15 for the levels and
  channels in use are enough for that. With service channels ignored both hold. A
  loop among walks to other LIDs is then missed if and only if the walks to base
  LIDs have none.
* Three rings of three switches show what happens otherwise, whatever the collection
  has recorded: a loop of walks to the second LIDs of FIs is missed; a loop on level
  1 is missed because level 0 is refused; and a deadlock is reported although every
  walk on level 1 that would take part is refused for want of a lane.
* Every path between the FI ports whose walk on level 0 arrives is recorded, on
  every service channel in use and on no other; the two exceptions are a port number
  of 66 or more on that route, and an FI that already leaves for the same LID by
  another of its ports. These and the walks that do not arrive are the bad paths:
  good and bad paths are counted exactly, and what is recorded later never changes
  which a path is. An FI gets no other entry. With service channels in use the
  walks get their own channels only if the recorded set holds those the packet
  takes; see the last egress port below.
* The unguarded walk of the graph builder terminates because the routes recorded
  for a LID form a forest towards it. It keeps the destination LID in a `uint16`
  (`Topology/fabricdata.c:2573`), although LIDs are 32 bits wide, so it may end at
  another FI than the destination. With service channels ignored it exceeds every
  bound if and only if that FI has itself a route to the LID, by one of its ports
  to another, and stops within 65 channels otherwise. With them in use, too, it
  exceeds every bound if and only if it visits a channel twice. It cannot where base
  LIDs fit 16 bits, nor where FIs have one port each. On a three-node fabric with a
  LID of 65541 it runs away, whatever the collection has recorded.
* The unicast walk is measured against forwarding without any limit: it arrives
  if and only if forwarding delivers within 64 crossings and no service channel
  is refused, and a walk that meets a port twice could never have arrived. Whether
  it arrives or not, its calls are those of the switches it has crossed, each once,
  with the virtual lanes of the QoS tables on the way, and it ends where one of the
  reasons to end holds. On a delivered route it is refused exactly where composing
  the SC tables yields 15.
* The multicast walk records an incident if and only if some forwarding path ends
  badly or two paths enter one switch; each incident shows a real path and a real
  fault.
* Switch tiers are exact hop distances to the nearest FI. Route counts are the
  numbers of calls of the walks between the ports in focus, to each LID in turn;
  those at the two ends of the links of any set balance up to the number of
  incomplete routes.
* The service channels in use are the least set closed under the tables that are
  scanned. The scan stops one short of the highest-numbered egress port
  (`Topology/route.c:880`): the set holds every channel a packet can be switched
  to if and only if no table for a last egress port leads out of it, and a fabric
  on which a packet does leave the set is given.
* The "Dijkstra" distances are the shortest lengths over walks whose vertices,
  the last one excepted, have ascending ids. They are never too short, and right
  if and only if some shortest walk has ascending ids; a graph that pruning leaves
  alone is given on which the distance found is longer than the true one. The
  recorded next hop is always real.
* In the LID array, all through a run of adds and removes, every registered port
  owns its whole aligned block and the LID count is the number of occupied LIDs, if
  and only if the run removes whole blocks only; an armed port that was refused may
  not be one. A refused add leaves no trace, and a forced add evicts exactly the
  overlapping ports.
* Compressing a point keeps what every compare function says if and only if it
  does not merge a list that names something twice.

## Assumptions

Allocations succeed. Links are symmetric, join two different ports, and never
end at port 0 of a switch. An FI port used as the start of a walk is linked. LID
ranges are aligned and a port's LID and LMC do not change while it is
registered. Every graph of the analysis is filled first and emptied afterwards; AddArcExact says what goes wrong
otherwise. Fabrics hold FIs and switches only. Counters do not reach 2^32.

## Model

| member | source | states |
|---|---|---|
| ArcRelations.SupportedHasCycle | Topology/fabricdata.c:3407-3473 | a nonempty arc set that pruning cannot shrink contains a directed cycle |
| ArcRelations.CycleIsSupported | Topology/fabricdata.c:3407-3473 | the arcs of a cycle feed each other, so pruning can touch none of them |
| ArcRelations.VerdictExact | Topology/route.c:1797-1808 | what pruning leaves is empty if and only if there was no cycle |
| ArcRelations.GreatestSupportedUnique | Topology/fabricdata.c:3407-3473 | the result of pruning does not depend on the vertex order |
| GraphViews.AddVertexOk | Topology/fabricdata.c:2296-2348 | adding a vertex keeps the representation invariant and the arcs, and gives each connection one vertex |
| GraphViews.AddArcOk | Topology/fabricdata.c:2440-2532 | adding an arc keeps the invariant: both indexes, adjacency lists, reference counts, arc count |
| GraphViews.AddArcEffect | Topology/fabricdata.c:2440-2532 | the relation gains exactly the requested arc; self-arcs and unknown ends are refused |
| GraphViews.AddArcExact | Topology/fabricdata.c:2463-2481 | in any graph, a new arc keeps the invariant if and only if its id, the number of arcs, is free and the active count covers its ends |
| GraphViews.DelArcOk | Topology/fabricdata.c:2370-2437 | deleting an arc keeps the invariant and removes exactly that arc |
| GraphViews.InuseMeansArc | Topology/fabricdata.c:2370-2437 | the in-use counts and the reference count are zero exactly when there is no such arc |
| CreditGraphs.Graph.AddVertex | Topology/fabricdata.c:2296-2348 | refines adding a vertex on the value |
| CreditGraphs.Graph.AddArc | Topology/fabricdata.c:2440-2532 | refines adding an arc in any graph, and returns its id; in the add-only phase the graph stays valid |
| CreditGraphs.Graph.DelArc | Topology/fabricdata.c:2370-2437 | refines deletion: both indexes, tombstones at both ends, counts; an unknown id is not found |
| CreditGraphs.Vertex.EraseOutbound | Topology/fabricdata.c:2405-2412 | tombstones every occurrence of an arc id and lowers the counts by their number |
| ArcDeletion.DeleteInbound | Topology/fabricdata.c:3429-3442 | deletes all arcs into a vertex and counts them |
| ArcDeletion.DeleteOutbound | Topology/fabricdata.c:3445-3458 | deletes all arcs out of a vertex and counts them |
| ArcDeletion.DelAllInboundExact | Topology/fabricdata.c:3429-3442 | exactly the arcs into the vertex are gone |
| ArcDeletion.DelAllOutboundExact | Topology/fabricdata.c:3445-3458 | exactly the arcs out of the vertex are gone |
| Pruning.DeletionIsSafe | Topology/fabricdata.c:3427-3459 | the arcs a round deletes lie in no set of arcs that feed each other |
| Pruning.NoProgressIsSupported | Topology/fabricdata.c:3420-3466 | a round without deletions leaves a supported set |
| Pruning.Prune | Topology/fabricdata.c:3407-3473 | terminates and leaves the greatest supported subset of the arcs, each arc unchanged |
| Splitting.TakenIsComponent | Topology/fabricdata.c:2756-2852 | what the recursion takes is exactly the weakly connected component of its root |
| Splitting.SplitKeepsSupport | Topology/fabricdata.c:3372-3405 | the component and the rest of a pruned graph are both pruned |
| Splitting.SupportTransfers | Topology/fabricdata.c:2756-2852 | a copy with the same dependencies is pruned too, whatever its vertex ids |
| Splitting.DepsCount | Topology/fabricdata.c:2756-2852 | dependencies and arcs correspond one to one, so nothing is duplicated |
| Splitting.RelCount | Topology/fabricdata.c:2440-2532 | the arc counter is the number of arcs |
| GraphSplitting.HeadMovesIncident | Topology/fabricdata.c:2767-2839 | one step of the recursion moves exactly the arcs at a vertex into the new graph |
| GraphSplitting.SplitOutVertex | Topology/fabricdata.c:2756-2852 | terminates; the new graph gains exactly the dependencies the old one loses, a whole component |
| GraphSplitting.Split | Topology/fabricdata.c:3372-3405 | null exactly when no arc is left, otherwise the component of the first live vertex in a graph of its own |
| DeadlockVerdict.SplitYieldsCycle | Topology/fabricdata.c:3372-3405 | a component split off a pruned graph contains a cycle and shares no dependency with the rest |
| WeakComponents.OneComponentLess | Topology/fabricdata.c:3372-3405 | taking one component away leaves the others, each whole |
| WeakComponents.ComponentsAreParts | Topology/route.c:1819-1849 | components of vertices are the disconnected parts of the channel dependencies, one for one |
| WeakComponents.CoreOfGraph | Topology/route.c:1797-1850 | what pruning leaves is, in terms of channels, the most dependencies that feed each other, and has as many parts as components |
| DeadlockVerdict.SplitYieldsPart | Topology/fabricdata.c:3372-3405 | a split takes one part of the dependencies, whole, and lowers their number by one |
| DeadlockVerdict.SplitAll | Topology/route.c:1819-1846 | repeated splitting takes a pruned graph apart into its weakly connected components, one for one and arc for arc, each with a cycle, and counts them |
| DeadlockVerdict.DeadlockFree | Topology/route.c:1797-1850 | the verdict is "free" if and only if the graph has no cycle; the number reported is that of the weakly connected components of the greatest supported set of arcs |
| RouteWalking.ForwardsByTable | Topology/route.c:54-82 | a switch forwards by its linear table only, for a LID in range, out of a port that is there, initialized and linked, or its port 0 |
| RouteWalking.WalkRoutePort | Topology/route.c:91-186 | the loop with its fixed hop history makes the callback calls, and takes the return, of the recursive walk |
| RouteWalking.LoopNeverDelivers | Topology/route.c:119-125 | a walk that re-enters a switch port would never be delivered, however far it went |
| RouteWalking.WalkExact | Topology/route.c:91-186 | if unlimited forwarding delivers after n crossings, the walk arrives for n <= 64 and gives up as too long otherwise, unless a channel or lane is refused |
| RouteWalking.WalkArrives | Topology/route.c:91-186 | success means a connected chain of at most 64 distinct entry ports that ends where the LID is held, and that forwarding delivers |
| RouteWalking.WalkLanes | Topology/route.c:99-179 | on a route, a walk is refused exactly where composing the tables of the start and the entry ports yields 15; otherwise each call gets its ports and the composed lane |
| WalkReports.WalkStory | Topology/route.c:91-186 | for every walk, arriving or not: refused at the start without a call, or the calls of the distinct switches crossed, each with the lane that the QoS tables up to there give, and a true reason to end at the port it has come to |
| CreditRoutes.AddConnectionOk | Topology/fabricdata.c:3117-3180 | recording a link keeps the data consistent and fails only for a port number out of range |
| CreditRoutes.AddRouteOk | Topology/fabricdata.c:3182-3237 | recording a route keeps the data consistent and fails only where another port is recorded |
| CreditRoutes.AddDeviceOk | Topology/fabricdata.c:3042-3115 | recording a device keeps the data consistent |
| CreditRoutes.RouteStore.RecordConnection | Topology/fabricdata.c:3117-3180 | refines recording a connection |
| CreditRoutes.RouteStore.RecordRoute | Topology/fabricdata.c:3182-3237 | refines recording a route |
| CreditRoutes.RoundMoves | Topology/route.c:1522-1600 | a round of the replay finds the exit the walk took and moves to the walk's next port |
| CreditRoutes.WalkIsTraced | Topology/route.c:206-257 | the trace records of a successful walk between FIs describe its route, exit by exit |
| CreditRoutes.Replay | Topology/route.c:1522-1634 | replay of traced records is good if and only if the port numbers of its hops fit and the source leaves by one port only; then every exit is recorded |
| CreditRoutes.GetRoute | Topology/route.c:1472-1651 | when a route is analyzed; it is good if and only if its walk on service level 0 arrives, its port numbers fit and its source does not leave by another port; then it is recorded, and nothing else about FIs is |
| CreditRoutes.GoodPathStays | Topology/route.c:1636-1646 | once a path has been dealt with, nothing recorded later changes whether it is good |
| CreditRoutes.ConnectionCounted | Topology/fabricdata.c:3117-3180 | the connection counter is the number of connections recorded |
| CreditRoutes.RouteCounted | Topology/fabricdata.c:3182-3237 | the route counter is the number of routes recorded |
| CreditRoutes.GetRoutes | Topology/route.c:1653-1677 | every path between two ports is dealt with; good are as many as have a walk on service level 0 that arrives by port numbers in range and a source that did not leave for the LID by another port before; bad are the others |
| CreditRoutes.CollectRoutes | Topology/route.c:1729-1757 | every path whose walk on service level 0 arrives and whose port numbers fit is recorded, on every channel in use and no other, unless its source leaves by another port; an FI gets no other entry; with no bad path, every path has a recorded route; good and bad paths are counted over all pairs, by what is recorded in the end |
| RouteGraphs.StepApproaches | Topology/fabricdata.c:2595-2680 | every step of the builder's walk is one crossing nearer the destination: the recorded routes form a forest |
| RouteGraphs.StepLeavesDevice | Topology/fabricdata.c:2657-2663 | consecutive devices differ, so no arc joins a channel to itself |
| RouteGraphs.PairDepsAre | Topology/fabricdata.c:2652-2663 | the arcs of a route are the pairs of consecutive channels |
| RouteGraphs.BuildRoute | Topology/fabricdata.c:2573-2680 | unless it runs away the walk terminates, adds exactly the pairs of consecutive channels of the route, and tells whether it got to the destination |
| RouteGraphs.BuildRouteGraph | Topology/fabricdata.c:2535-2752 | the graph holds exactly the dependencies of the routes to the stored LID of each FI, for every used service level; the walks that get to their destination are counted, and those that do not |
| CreditRoutes.WiredHop | Topology/route.c:1545-1580 | recording a hop keeps every recorded route connected on every service channel in use, and adds no connection on another |
| RouteRetrace.Follows | Topology/fabricdata.c:2595-2680 | from any point of any route that does not run away, refused or not, the builder visits the channels of the rest of the route as far as it gets, and nothing after |
| RouteRetrace.FollowsExact | Topology/fabricdata.c:2595-2680 | on a recorded route it gets exactly to the first hop that is not recorded for the channel there, or to the end |
| FabricWalks.ArrivesExact | Topology/route.c:99-179 | the walk of a route arrives if and only if no table on the way yields 15, as channel or as lane |
| FabricWalks.WalkVls | Topology/route.c:99-184 | the virtual lane of each call of an arriving walk between FIs: that of the service level's channel at the start; at a switch that of its new channel under the entry port's SC2VL table, if there is an SC table for the exit, otherwise that of the call before; at the end that of the last exit |
| FabricWalks.RouteExact | Topology/fabricdata.c:2595-2680 | the channels visited of a known route are its exits, on the channels that the composed SC tables give, up to the first 15; lanes are not looked at |
| FabricWalks.BuilderRetracesWalk | Topology/fabricdata.c:2595-2680 | for a known route and a service level in use whose walk arrives, the channels visited are the exits that walk reports, with the service channels of the packet, up to the destination |
| FabricLoops.DepIsTableDep | Topology/fabricdata.c:2652-2663 | on any fabric on which no walk runs away, every dependency of the analysis is one of a route to the stored base LID of a port under the SC tables, before the first 15 |
| FabricLoops.LoopIsTables | Topology/route.c:1786-1808 | so a loop that is reported is one of those routes |
| FabricLoops.BuilderExact | Topology/fabricdata.c:2595-2680 | where FIs have one port each: from FI to FI the channels of the route up to the first 15, if its walk on level 0 arrives, otherwise none |
| FabricLoops.RouteDepsExact | Topology/fabricdata.c:2652-2663 | there, the dependencies are exactly those of the routes to base LIDs under the SC tables, and so are the loops |
| FabricLoops.WalksFoundExact | Topology/route.c:259-270 | every walk that arrives on a level in use is retraced if and only if the walk on level 0 arrives wherever one on a level in use does |
| FabricLoops.OnlyWalksExact | Topology/fabricdata.c:2626-2652 | two channels or more are visited only as those of a walk that arrives if and only if no level let past two exits by the SC tables is refused |
| FabricLoops.VerdictOnBases | Topology/route.c:1786-1808 | under the first condition no loop of walks to base LIDs is missed, under the second only such loops are reported |
| FabricLoops.GoodArrives | Topology/route.c:1729-1757 | with no bad path the first condition holds |
| FabricLoops.OpenTablesArrive | Topology/route.c:99-150 | with tables that yield no 15 for the levels and channels in use the second holds |
| WrongVerdicts.LoopMissed | Topology/fabricdata.c:2585-2600 | on a ring with two LIDs per FI the walks of the fabric form a loop, those to base LIDs do not, and no collected data has one |
| WrongVerdicts.ZeroMissed | Topology/route.c:259-270 | on a ring with level 1 in use its walks form a loop, but no collected data has one, as level 0 is refused |
| WrongVerdicts.FalseAlarm | Topology/fabricdata.c:2626-2652 | on a ring with level 1 in use all collected data has a loop, but no walks form one, as they are refused a lane |
| CreditLoops.CyclesCorrespond | Topology/route.c:1786-1808 | vertices form a cycle exactly when their channels depend on each other in one |
| CreditLoops.GoodPathRecorded | Topology/route.c:1782-1783 | one good path is enough for the analysis to go on |
| CreditLoops.PartsUnique | Topology/route.c:1845-1849 | the number of parts reported is determined by the dependencies |
| CreditLoops.ValidateAllCreditLoopRoutes | Topology/route.c:1679-1865 | from fabric to report, with service channels found or ignored: routes are recorded, good and bad paths counted, and a deadlock is reported if and only if the routes to the stored LID of each FI contain a credit loop, with the number of disconnected parts; nothing is analyzed only if nothing was recorded |
| CreditLoops.VerdictExactOnFabric | Topology/route.c:1679-1865 | where FIs have one port each and base LIDs fit 16 bits, and no path was bad or all port numbers fit: a deadlock is reported if and only if the routes to base LIDs loop under the SC tables, and the dependencies are the same; if and only if the walks to base LIDs loop, under the two conditions or with service channels ignored; loops of other walks are then missed exactly if those do not loop |
| FabricWalks.SafeFabrics | Topology/fabricdata.c:2573-2680 | no walk goes round where base LIDs fit 16 bits, nor where no FI has two ports with LIDs |
| FabricWalks.SafeStays | Topology/fabricdata.c:2573-2680 | if no walk of the fabric goes round, no walk of the builder runs away, whatever was recorded |
| Runaways.RunawayExact | Topology/fabricdata.c:2573-2680 | with service channels ignored, the walk exceeds every bound if and only if the source and the FI that answers for the stored LID both have a route to it and that FI is not the destination; otherwise it stops within 65 channels |
| Runaways.RepeatExact | Topology/fabricdata.c:2573-2680 | for any data and levels, the walk exceeds every bound if and only if it visits a channel twice; otherwise it is no longer than there are recorded connections |
| Runaways.StoredLidRunsAway | Topology/fabricdata.c:2573-2595 | on a fabric with LID 65541 the walk is longer than any bound, for all data the collection can record |
| Relaxation.RelaxVertex | Topology/fabricdata.c:3582-3613 | relaxing one vertex keeps predecessors real and distances exact so far |
| Relaxation.NextHop | Topology/fabricdata.c:3625-3651 | the back-walk terminates and the next hop is a true out-neighbor of the source, on a walk no longer than the distance |
| Relaxation.FindDistances | Topology/fabricdata.c:3537-3656 | the same for every vertex of a source's row |
| Relaxation.DistancesExact | Topology/fabricdata.c:3561-3614 | a finite distance is the shortest length over walks with ascending ids, the last vertex excepted; infinite exactly when there is none |
| Relaxation.ShortestExact | Topology/fabricdata.c:3561-3614 | the distance is never below the true one, and equal to it if and only if some shortest walk has ascending ids, the last vertex excepted |
| Relaxation.NotShortest | Topology/fabricdata.c:3561-3575 | a graph that pruning leaves alone, on which the distance found is not the shortest |
| MulticastRoutes.AllDoneIsSound | Topology/route.c:1132-1335 | if every switch reached is finished, every path ends well and no switch is entered by two paths |
| MulticastRoutes.JustifiedUnsound | Topology/route.c:1132-1335 | a recorded incident shows a path that ends badly, or two paths into one switch |
| MulticastRoutes.SoundExact | Topology/route.c:1132-1335 | sound means, read off the records: no path is 64 devices long, ends at a port without a member, meets a switch without a table for the group, or is sent to a port that is missing, not initialized or not linked, and no two paths go into one switch |
| MulticastRoutes.McWalk.Walk | Topology/route.c:1132-1335 | flags, tree and incidents after a walk; the path list is as found; no switch is expanded twice |
| MulticastRoutes.McWalk.ValidateMCRoutes | Topology/route.c:1338-1371 | nothing is recorded if and only if forwarding from the edge switch is sound |
| FatTreeTiers.TierSearch.DetermineSwitchTiers | Topology/route.c:413-450 | terminates; every switch gets its hop distance to the nearest FI, 0 if none is reached |
| FatTreeTiers.LinkedTiers | Topology/route.c:413-450 | linked switches with tiers differ by at most one tier, and a switch linked to a tiered one has a tier |
| FatTreeTiers.TierBelow | Topology/route.c:413-450 | tier 1 is linked to an FI, tier k to a switch of tier k-1 |
| FatTreeTiers.EmptyLayer | Topology/route.c:430-449 | stopping at the first round that finds nothing is right: nothing lies beyond an empty layer |
| ServiceChannels.GetSLSCInfo | Topology/route.c:822-900 | the SLs passed in, the base SL of each virtual fabric and its response SL if specified; terminates with the least set of SCs that holds the images of these and is closed under the SC tables, those of last egress ports excepted |
| ServiceChannels.ScanEnds | Topology/route.c:837-862 | the scan of the end ports is complete unless SC 15 was passed in |
| ServiceChannels.Pass | Topology/route.c:864-897 | a pass over a growing set adds nothing unneeded, and one that changes nothing has found a closed set |
| ServiceChannels.LeastUsedUnique | Topology/route.c:822-900 | the result does not depend on the order of the scans |
| ServiceChannels.UsedExact | Topology/route.c:864-897 | the set holds every channel a packet of a used SL can be switched to if and only if no table for a last egress port leads out of it |
| ServiceChannels.PacketsStayUsed | Topology/route.c:864-897 | then it holds the channel of a packet of a used SL at every device of its route |
| ServiceChannels.LastEgressMissed | Topology/route.c:880 | a fabric on which the set is {0} and a packet leaves a switch by its last port on channel 1 |
| ScTables.LookupExact | Topology/fabricdata.c:669-686 | the first match is the only one |
| ScTables.AddTableOk | Topology/fabricdata.c:688-749 | port masks stay disjoint and nonempty, tables pairwise distinct |
| ScTables.AddTableMaps | Topology/fabricdata.c:688-749 | the added port reads back its table, every other port what it read before |
| ScTables.ScscList.LookupScsc | Topology/fabricdata.c:669-686 | the loop finds the first match |
| ScTables.ScscList.AddScsc | Topology/fabricdata.c:688-749 | the list behaves as a plain map from egress port to table, and stays valid |
| FlowBalance.WalkChain | Topology/route.c:91-186 | the calls of a walk are linked hop to hop, and none is left open if it arrives |
| FlowBalance.ChainCounts | Topology/route.c:475-491 | in one walk a port is entered as often as its peer is left, the last call excepted |
| FlowBalance.FlowBalances | Topology/route.c:541-659 | over any run and any set of links, receive counts never exceed send counts and the total difference is at most the number of bad paths |
| FlowBalance.LinkBalances | Topology/route.c:541-659 | the same for one link, with equality if no path is bad |
| FlowBalance.FlowTable.TabulateRouteCallback | Topology/route.c:475-491 | the counters are the counts over the calls so far, for all and for base LIDs |
| FlowBalance.FlowTable.TabulateRoutes | Topology/route.c:502-538 | walks to as many LIDs as the source has, which have the bits of the base LID and of the offset: the LIDs of the destination in turn, if its base is aligned and it has no fewer; counts paths and those that do not arrive, or stops where tables are missing |
| LidBits.OrBits | Topology/route.c:528 | a bit of the tabulated LID is set if and only if it is set in the base LID or in the offset |
| LidBits.OrAligned | Topology/route.c:528 | for an aligned base LID the tabulated LID is base plus offset |
| FlowBalance.FlowTable.TabulateCARoutes | Topology/route.c:541-659 | which pairs are tabulated for which focus, when it fails, that each counter is the number of calls that left or entered by its port, the number of walks that do not arrive, and that the counters balance over any set of links |
| FlowBalance.PairsExact | Topology/route.c:560-657 | the pairs tabulated are the ordered pairs of different FI ports that the focus asks for |
| FlowBalance.GridExact | Topology/route.c:614-626 | each port is paired with each other port as often as they are listed |
| FlowBalance.CallsCount | Topology/route.c:475-491 | counting call by call gives the number of calls of all walks, or of those to base LIDs, at a port |
| FlowBalance.BadCount | Topology/route.c:541-659 | the bad paths are the walks that do not arrive |
| FlowBalance.CountersBalance | Topology/route.c:541-659 | over any set of links, what the counters say was sent but not received lies between zero and the number of bad paths |
| FlowBalance.LinkCountersBalance | Topology/route.c:541-659 | the same for the two counters of one link |
| LidMaps.LastLidFits | Topology/fabricdata.c:624-630 | checking the base LID is enough: the last LID of an aligned range fits too |
| LidMaps.ForcedAdd | Topology/fabricdata.c:605-649 | a forced add registers the port, evicts exactly the overlapping ports and leaves all others |
| LidMaps.ConflictedIsUnregistered | Topology/fabricdata.c:633-640 | a refused add concerned an unregistered port, so undoing it removes nothing else |
| LidMaps.RemovedPort | Topology/fabricdata.c:565-593 | removing a port frees its block and leaves all other ports |
| LidMaps.RunOk | Topology/fabricdata.c:565-667 | all through any run of adds and removes every registered port owns its whole block and nothing else, and the count is the number of occupied LIDs, if and only if whole blocks are removed |
| LidMaps.LidMap.GetMapEntry | Topology/fabricdata.c:79-84 | reads the flat map through the two-level table |
| LidMaps.LidMap.SetMapEntry | Topology/fabricdata.c:86-101 | writes the flat map, allocating a block on first use |
| LidMaps.RemoveCountExact | Topology/fabricdata.c:592 | lowering the LID count by the size of the block is right if and only if the whole block was filed |
| LidMaps.RemoveExact | Topology/fabricdata.c:565-593 | a removal keeps table and count right if and only if the block is filled by ports whose blocks lie in it, as that of a registered port is |
| LidMaps.LidMap.AllLidsRemove | Topology/fabricdata.c:565-593 | for any port: frees its block and lowers the count by its size if it is armed, active or found under its base LID, otherwise does nothing; a valid map stays valid if the port is registered, and otherwise exactly if nothing or a whole block is removed |
| LidMaps.LidMap.PartialLidsRemove | Topology/fabricdata.c:595-603 | frees the first LIDs of a port and lowers the count by their number |
| LidMaps.LidMap.AllLidsAdd | Topology/fabricdata.c:605-649 | status and new map for every case: an armed or active port with a GUID, or a switch port 0 without state, gets its whole block, unless that conflicts or is out of range; any other port changes nothing; the count stays the number of occupied LIDs |
| FabricLinks.AddedOk | Topology/fabricdata.c:1284-1359 | the links stay a symmetric matching with one "from" end each, and all five counters stay right |
| FabricLinks.RemovedOk | Topology/fabricdata.c:1385-1427 | a linked port can always be unlinked, and the same holds after |
| FabricLinks.CountsBounded | Topology/fabricdata.c:1345-1353 | no counter underflows or exceeds the number of links |
| FabricLinks.LinkedPortsCount | Topology/fabricdata.c:1309-1345 | every link has exactly one "from" end: twice the link counter is the number of linked ports |
| FabricLinks.FromIsLower | Topology/fabricdata.c:1311-1328 | of two linked ports the one on the node with the lower GUID is marked "from", on one node the one with the lower number |
| FabricLinks.CountersRead | Topology/fabricdata.c:1345-1353 | what each counter counts, read off the node records; FI links and links between switches add up to all links |
| FabricLinks.RemoveUndoesAdd | Topology/fabricdata.c:1284-1427 | removing a link just added, by either end, restores everything but the rates |
| FabricLinks.SelfLinkStays | Topology/fabricdata.c:1284-1406 | a port linked to itself is not refused, breaks the invariant and can never be unlinked |
| FabricLinks.AddExact | Topology/fabricdata.c:1284-1359 | adding a link keeps the invariant if and only if the ports differ or one of them is linked already |
| FabricLinks.LinkTable.AddLink | Topology/fabricdata.c:1284-1359 | refines adding a link on port records and counters, that of a port to itself included |
| FabricLinks.LinkTable.RemoveLink | Topology/fabricdata.c:1385-1427 | refines removing a link; it fails only for an unlinked port |
| Points.FillsAll | Topology/point.c:1219-1227 | by counting, a list as long as its owner's contents holds all of them exactly if it repeats none |
| Points.CompressExact | Topology/point.c:1199-1370 | port, node, system and IOC comparisons are all preserved if and only if no merged list repeats something |
| Points.AppendedPorts | Topology/point.c:358-397 | appending widens the selection by just the ports of the object; the first append starts from nothing |
| Points.PairsSelect | Topology/point.c:811-884 | a pair list selects exactly the ports of the nodes of both lists |
| Points.LevelsAgree | Topology/point.c:811-1096 | a node is selected if and only if one of its ports is, a system if and only if one of its nodes is |
| Points.MergesWhole | Topology/point.c:1199-1370 | a list of two or more without repetition becomes its owner if and only if it holds all that the owner has |
| Points.Point.ListAppend | Topology/point.c:358-397 | appends to a list of the same kind, starts one, or destroys the point |
| Points.Point.ListAppendUniquePort | Topology/point.c:1188-1193 | a port list built this way repeats nothing |
| Points.Point.FabricCompress | Topology/point.c:1199-1370 | the three list forms, and when the meaning is kept |

## Left out

- CreditLoops.ValidateAllCreditLoopRoutes: requires that no walk goes round, because a run that never ends has no report; RunawayExact says when one does.
- CreditLoops.VerdictExactOnFabric: says nothing of fabrics on which an FI answers for LIDs by two ports; for those DepIsTableDep and LoopIsTables state the one direction, as which port's routes are recorded depends on the order of the ports.
- Runaways.RepeatExact: with service channels in use, what makes the walk return is not stated in terms of the fabric.
- RouteGraphs.BuildRoute: requires that the walk does not run away, as one that does has no result; the hop histogram is left out.
- RouteGraphs.BuildRouteGraph: requires the same of all pairs of FIs.
- MulticastRoutes.McWalk.Walk: the path count is kept but not specified; the status of a walk with incidents is that of its last branch, as in the code, and not specified.
- FatTreeTiers.TierSearch.DetermineSwitchTiers: says nothing about FIs, which also get a tier because the code tests the node of the port and not its neighbor.
- ServiceChannels.GetSLSCInfo: if SC 31 is in use the loop guard shifts a 32-bit word by 32, which C leaves undefined; the model takes the result as 0.
- FlowBalance.FlowTable.TabulateCARoutes: the callback calls of a walk are replayed after it, which no caller can tell; the fat-tree callback is left out, and on failure the counters are not specified beyond being counts.
- ScTables.ScscList.AddScsc: one list and no missing QoS data; both cases return at once in the code.
- Points.Point.FabricCompress: parsing, copying and destroying points, and the expected-object halves, which have only the single-entry case.
- CreditRoutes.GetRoute: trace records come from the walk; records queried from the subnet manager, and its workarounds, reach Replay as arbitrary records about which only safety is stated.
- The copy-out of distance rows, which copies a byte count of columns, and CLDijkstraFindCycles and CLDijkstraCheckDistancesAndRoutes, which report over the truncated rows.
- The LID map in tree mode, where the code does not check overlap.
- PortDataSetPortInfo, which changes a registered port's LID.
- The route callback's rate field, printing, progress, timing, locks and threads: the builder runs single-threaded.
- Allocation failures and freeing.
- MAD transport, snapshots, XML, focus parsing and the searches that build points.
