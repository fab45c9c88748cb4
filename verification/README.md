# Open/R in Dafny

A model of the parts of Open/R whose correctness is hardest to see from the code, and proofs about
it: link-state routing and its memo tables, DUAL over a network of nodes, Decision's incremental
rebuild, Fib programming, peer-ingress backpressure, the coalescers, the config store and sub-prefix
allocation. `dafny verify dfyconfig.toml` checks everything.

## What is modelled

**Link state and SPF** (`Topology`, `Spf`, `SpfPaths`, `SpfTies`, `Walks`, `NextHops`,
`Forwarding`, `DisjointPaths`, `SpfView`, `LinkMerge`, `Adjacencies`, `LinkState`, `Advertised`). The reference notion is a
*permitted walk*: a chain of links that are up and not left out, with no overloaded node in the
middle. Dijkstra, the ECMP next hops and the link-disjoint paths are proved against shortest
permitted walks. The link table, kept by a merge walk over two sorted lists, is proved to hold exactly
the mutual adjacencies of the latest databases. The memo tables are dropped only on a reported topology
change; they are proved to answer for the current graph after every run of updates, deletions and
queries, although the overload bit of a node heard of for the first time is never reported.

**DUAL** (`DualSpec`, `DualEvents`, `DualMail`, `Dual`, `DualNetwork`, `DualConvergence`). One node and
root as a class whose methods refine event functions; where the source takes the first fitting entry
of a hash map, the functions take that neighbour as an argument. A network is any number of nodes, with
ordered links that come up, go down and deliver in any interleaving. In every reachable state with no
message in flight every node is PASSIVE (diffusing computations cannot deadlock), holds its true
shortest distance to the root, and the next hops spell out a shortest path.

**Decision** (`RouteSpec`, `RouteSelection`, `RebuildGate`, `OwnDrain`, `Decision`). The route owed to a
prefix is stated on graphs and advertisements alone and proved unique; the running-best loops are proved
to compute it. It is proved exactly when a link-state update that does not ask for a full rebuild leaves
every route as it was; then the per-prefix patch and the full rebuild give the same table up to the
equality of RIB entries, which looks at neither the area nor the cost.

**Fib** (`Fib`). The agent's replies are parameters, the hardware and the table of a reader of the
published updates are ghosts that may change in any way the replies allow.

**Peer-ingress limit** (`IngressBytes`, `IngressResume`). The byte ledgers as a class over one value, and
the pause and resume protocol as a step machine in which every atomic operation and every lock section is
one step of one of any number of threads.

**Coalescers** (`RouteUpdate`, `Publication`), **config store** (`PersistentStore`) and **sub-prefixes**
(`SubPrefix`). Folding, logging and bit writing are proved against what a reader, a replay or a reading back
gives.

Names of nodes, interfaces, areas, peers and keys are interned: a natural number stands for a string, in
the order of the strings. Integers are unbounded except where the source relies on a width or a sign: the
lengths in the store's log, the value of a bit string and the arithmetic on prefix lengths are 32 bits wide,
and a negative minimum of next hops is compared as an unsigned number. `Inf` stands for the largest 64-bit
distance. Clocks, agent replies, disk outcomes and the hash that orders links are parameters.

## Where the code falls short of a property

- A link of metric 0 can be missing from the ECMP predecessors. They are complete if and only if no
  zero-cost link at a reached node may be crossed both ways, and each shortest zero-cost hop starts at the
  lesser name, or at the least-named of the last hops of its end where all of these are free
  (`SpfTies.CompleteIff`). So they are where costs are positive (`SpfTies.PositiveResolves`).
- Crossing a link in use brings a packet nearer if and only if the link costs something
  (`Forwarding.NextHopApproaches`); over a free link it can go back and forth (`Forwarding.FreeLinkLoops`).
- The stored up-status of a link comes to differ from the advertised one if and only if an update ends an
  interface overload on a link whose use it forbids (`LinkStates.UpStatusAfterUpdate`,
  `LinkStates.UpStatusElsewhere`), which two nodes can bring about (`LinkStates.ReservationIsMissed`). While
  no adjacency is reserved for its other end the two agree in every run (`LinkStates.Run`).
- A second peerUp for the next hop of a PASSIVE DUAL node aborts the process unless a neighbour is then
  feasible (`DualEvents.RepeatedPeerUp`); four events bring a new node to where it does
  (`DualEvents.RepeatedPeerUpCanFail`). No other event fails a CHECK.
- The rebuild gate overlooks our own first database of an area if that changes our overload bit, or a stale
  metric increment, and the change shows against somebody who can be reached: routes are then kept if and
  only if it does not (`OwnDrain.QuietUpdateKeepsRoutes`). Such an update can come
  (`Decisions.GateCanOverlook`).
- A full rebuild while no database of ours is known empties the table; that is wrong if and only if there are
  static routes (`Decisions.AbsentOwesStatics`).
- A delta that both deletes and installs a prefix can leave Fib out of step, unless each such prefix is dirty
  already or its delete is delayed (`Fibs.ProgrammingAlwaysTracksIff`); for given replies, unless each is
  dirty afterwards (`Fibs.ProgrammingTracksIff`). Decision never sends one
  (`Decisions.Decision.RebuildRoutes`) and coalescing never makes one (`RouteUpdates.FoldedIsDisjoint`).
- A reader of Fib's updates that is level with the intended table, but for dirty prefixes, is lost by exactly
  two steps (`Fibs.Fib.Handle`): an update during a repeated sync that changes a prefix which is not dirty
  (`Fibs.LevelAfterUpdate`, `Fibs.ResyncMissesUpdate`), and a repeated sync that fails while a dirty prefix is
  due on which reader and table disagree (`Fibs.LevelAfterFailedSync`, `Fibs.FailedResyncLosesPrefix`).
- Above the limit it can be that no connection is over its fair share, since a peer without a connection may hold
  the bytes (`IngressBytes.NobodyToPause`); some connection is if whoever holds bytes has one
  (`IngressBytes.SomeConnectionIsOver`).
- A connection paused again before its previous resumption has run is read although it is in the paused
  list (`IngressResume.PausesHoldIff`, `IngressResume.LateResumeUndoesPause`); an execution gets there
  (`IngressResume.PauseCanComeTooEarly`, `IngressResume.PauseCanBeUndone`).
- Folding a TTL refresh is right for every reader if and only if it is for the value that is pending and does
  not take a pending refresh back (`Publications.FoldIsRightIff`).
- Decoding inverts encoding if and only if key and data are shorter than 2^32 bytes
  (`PersistentStores.DecodeInvertsEncodeIff`).

## Model

| member | source | states |
|---|---|---|
| `Spf.RunSpf` | openr/decision/LinkState.cpp:641-743 | the result is exact hop by hop: closed under permitted hops, no hop shortens a metric, path links are the tight hops from nodes recorded before, next hops are the first hops of path links |
| `Spf.ExtractMin` | openr/decision/LinkState.h:447-492 | the extracted node has the least metric, ties broken by name |
| `Spf.RelaxStep` | openr/decision/LinkState.cpp:680-736 | relaxing one link, with decrease-key and tie merging, keeps the search invariant |
| `Spf.RecordMinimum` | openr/decision/LinkState.cpp:653-661 | recording the least queued node keeps the search invariant |
| `SpfPaths.SpfIsShortest` | openr/decision/LinkState.cpp:641-743 | exactly the nodes a permitted walk reaches are recorded, each at the length of a shortest permitted walk |
| `Advertised.CostIsAdvertised` | openr/decision/Link.cpp:140-143 | on the databases: the cost of a link is at least what each end advertises and is advertised by one of them, so a soft drain at either end counts; by hop count it is 1 |
| `Advertised.PermittedIsAdvertised` | openr/decision/LinkState.cpp:664-696 | a walk crosses only links that both ends advertise without interface overload, and no node in the middle advertises the overload bit |
| `Advertised.LengthIsAdvertised` | openr/decision/LinkState.cpp:698-712 | the length of a walk is a hop-by-hop sum in which no end's metric exceeds the hop's share and one of the two equals it |
| `Advertised.MetricIsAdvertised` | openr/decision/LinkState.cpp:641-743 | the metric recorded for a node is such a sum over a walk to it, and no walk to it has a smaller one |
| `SpfPaths.PathLinksAreLastHops` | openr/decision/LinkState.cpp:713-728 | every path link recorded for a node is the last hop of a shortest walk to it |
| `SpfPaths.PositiveCostsComplete` | openr/decision/LinkState.cpp:680-736 | with positive costs no last hop of a shortest walk is missing |
| `SpfTies.CompleteIff` | openr/decision/LinkState.cpp:680-736 | for all costs, names and overload bits: no last hop of a shortest walk is missing if and only if no zero-cost link at a reached node is open both ways and every tight zero-cost hop starts at the lesser name, or at the least-named tight predecessor of a node entered by free hops only |
| `SpfTies.PositiveResolves` | openr/decision/LinkState.cpp:680-736 | positive costs meet that condition |
| `SpfPaths.ZeroCostLosesLink` | openr/decision/LinkState.cpp:682-696 | a zero-cost link open to transit both ways is missing at one of its ends |
| `SpfPaths.NextHopsAreFirstHops` | openr/decision/LinkState.cpp:726-733 | where no last hop is missing, the next hops of a node are exactly the first nodes of its shortest walks |
| `SpfTies.ResultIsUnique` | openr/decision/LinkState.cpp:641-743 | any two exact results agree in metrics, next hops and sets of path links, whatever the costs, so a memoized one is a fresh one |
| `NextHops.ClosestNodes` | openr/decision/SpfSolver.cpp:587-603 | the running best ends with exactly the recorded destinations at the least metric |
| `NextHops.GetNextHopsWithMetric` | openr/decision/SpfSolver.cpp:572-612 | exactly the next hops toward the closest destinations, each with the distance that remains; the subtraction never underflows |
| `NextHops.GetNextHopsThrift` | openr/decision/SpfSolver.cpp:614-679 | one next hop for every up link whose metric and remaining distance add up to the least |
| `Advertised.HopsAreAdvertised` | openr/decision/SpfSolver.cpp:655-676 | on the databases: the next hops over some links are made of exactly the adjacencies we advertise for them: the IPv4 address for IPv4 and the IPv6 address otherwise, our interface, the other node, the distance |
| `NextHops.ChosenIsBestFirstLink` | openr/decision/SpfSolver.cpp:572-679 | where ECMP is complete, a link is chosen if and only if it is the first link of a shortest permitted walk to the destination set |
| `NextHops.UsedIsBest` | openr/decision/SpfSolver.cpp:572-679 | for all costs, every link chosen is such a first link |
| `NextHops.ChosenIsUsed` | openr/decision/SpfSolver.cpp:572-679 | the links chosen depend on the graph alone, not on the result they are read from |
| `NextHops.SelectBestPathsSpf` | openr/decision/SpfSolver.cpp:471-512 | the next hops go over exactly the links in use, which are first links of shortest walks to the destinations, and all of them where ECMP is complete; none if none can be reached |
| `Advertised.UsedHopsAreAdvertised` | openr/decision/SpfSolver.cpp:471-512 | so are the next hops returned for destinations, from the adjacencies of the links in use |
| `Forwarding.ForwardsToNextHops` | openr/decision/SpfSolver.cpp:471-512 | the neighbours forwarded to are those of the next hops returned |
| `Forwarding.NextHopApproaches` | openr/decision/SpfSolver.cpp:572-679 | the next node is nearer to the destinations by its own computation, overloaded nodes included, if and only if the link costs something, and then by exactly that cost |
| `Forwarding.ForwardingConverges` | openr/decision/SpfSolver.cpp:572-679 | along any forwarding walk over links that cost something, each node computing for itself, cost travelled and distance left add up to the distance at the start, so there is no loop |
| `Forwarding.StuckOnlyAtDestination` | openr/decision/SpfSolver.cpp:572-679 | a node that reaches the destinations and is none of them has a link in use |
| `Forwarding.PacketIsDelivered` | openr/decision/SpfSolver.cpp:572-679 | a forwarding walk that cannot be extended ends in the destinations, after exactly the distance in cost and at most that many hops |
| `Forwarding.FreeLinkLoops` | openr/decision/SpfSolver.cpp:572-679 | two nodes that forward to each other over a link that costs nothing |
| `DisjointPaths.TraceOnePath` | openr/decision/LinkState.cpp:20-41 | a path over unvisited path links, or none and then every path to the node meets a link already used; links of failed branches are useless |
| `DisjointPaths.TraceAllPaths` | openr/decision/LinkState.cpp:614-619 | traced paths are pairwise link-disjoint and block every further path |
| `DisjointPaths.DisjointShortestPaths` | openr/decision/LinkState.cpp:610-620 | the traced family for the graph without the links left out |
| `DisjointPaths.TracedIsMaximal` | openr/decision/LinkState.cpp:595-624 | where ECMP is complete, a traced family is a set of pairwise link-disjoint shortest paths, and every shortest path shares a link with it |
| `LinkMerge.SortLinks` | openr/decision/LinkState.cpp:168-177 | a strictly sorted list of exactly the given links |
| `LinkMerge.SortedByHash` | openr/decision/Link.cpp:292-299 | the order is by hash, then by node, interface, node, interface |
| `LinkMerge.AddOne` | openr/decision/LinkState.cpp:43-48 | adding a link brings it up to date in table and indices, with its flags, and keeps the graph valid |
| `LinkMerge.RemoveOne` | openr/decision/LinkState.cpp:51-56 | removing a link no longer made brings it up to date, and the CHECKs hold |
| `LinkMerge.UpdateOne` | openr/decision/LinkState.cpp:451-551 | updating a link in both lists copies the advertising side and reports what changed |
| `LinkMerge.TopologyReportedIff` | openr/decision/LinkState.cpp:459-491 | a topology change is reported if and only if the advertised metric or the up-status of the stored link changes |
| `LinkMerge.AttributesReportedIff` | openr/decision/LinkState.cpp:493-541 | changed attributes are reported if and only if the advertised side changes in more than metric and interface overload |
| `LinkMerge.MergeLinks` | openr/decision/LinkState.cpp:392-552 | after the walk the links of the node are exactly those made, untouched links are untouched, and the flags are set if and only if some link reports |
| `LinkMerge.UnreportedKeepsLink` | openr/decision/LinkState.cpp:459-491 | an update of a link that reports no topology change leaves its cost and up-status |
| `LinkMerge.UpStatusExact` | openr/decision/LinkState.cpp:472-491 | the stored up-status is the advertised one, but for exactly one combination of overload and usability |
| `Adjacencies.MakeLinkExact` | openr/decision/LinkState.cpp:292-316 | a link is made if and only if both ends advertise it, from what both advertise |
| `Adjacencies.MakeLinks` | openr/decision/LinkState.cpp:318-331 | the links made at a node are exactly its mutual adjacencies |
| `Adjacencies.ReservedForOther` | openr/decision/LinkState.h:20-45 | a link may be used by us if and only if every adjacency for it that is reserved leads to us |
| `Adjacencies.MergeMatches` | openr/decision/LinkState.cpp:392-552 | the merged table holds exactly one link per mutual adjacency of the new databases, with each side as advertised |
| `LinkStates.ApplyDatabase` | openr/decision/LinkState.cpp:333-558 | the effect of a database on table, indices and overload bits, and all change flags, both ways |
| `LinkStates.AppliedKeepsStep` | openr/decision/LinkState.cpp:333-558 | the table stays in step with the databases |
| `LinkStates.UnreportedSameView` | openr/decision/LinkState.cpp:188-213 | an update without a topology change leaves the graph the same to SPF, unreported first overload bits included |
| `LinkStates.CachesSurvive` | openr/decision/LinkState.cpp:553-556 | memoized SPF results and path lists stay right on a graph that looks the same |
| `LinkStates.UpStatusAfterUpdate` | openr/decision/LinkState.cpp:472-491 | after an update a link of its node is up as advertised if and only if the one exception does not apply |
| `LinkStates.UpStatusElsewhere` | openr/decision/LinkState.cpp:392-552 | other links keep their state and what is advertised of them |
| `LinkStates.UsableAfterUpdate` | openr/decision/LinkState.cpp:472-491 | while no adjacency is reserved, stored links stay usable |
| `LinkStates.RemoveNode` | openr/decision/LinkState.cpp:58-77 | the node and its links are gone from table and indices, nothing else is |
| `LinkStates.ListsAreDisjoint` | openr/decision/LinkState.cpp:595-624 | cached path lists of one pair of nodes share no link |
| `LinkStates.LinkState.UpdateAdjacencyDatabase` | openr/decision/LinkState.cpp:333-558 | table in step, caches right for the new graph, dropped only on a topology change; links stay usable unless it reserves an adjacency |
| `LinkStates.LinkState.DeleteAdjacencyDatabase` | openr/decision/LinkState.cpp:560-579 | the same for a deletion; reported if and only if there was a database |
| `LinkStates.LinkState.GetSpfResult` | openr/decision/LinkState.cpp:626-636 | the memoized answer is an exact result for the current graph |
| `LinkStates.LinkState.GetKthPaths` | openr/decision/LinkState.cpp:595-624 | the k-th list is a traced family of the current graph without the links of lists 1 to k-1, all of which are cached |
| `LinkStates.LinkState.GetAdjacencyDatabasesComputed` | openr/decision/LinkState.cpp:130-166 | exactly the mutual adjacencies of every database, in order, overloaded if either end says so |
| `LinkStates.LinkState.CollectBefore` | openr/decision/LinkState.cpp:602-609 | exactly the links of lists 1 to k-1, all computed and cached |
| `LinkStates.Run` | openr/decision/LinkState.cpp:333-636 | after any run of updates, deletions and queries the table matches the latest databases and every memoized answer is right; if no update reserved an adjacency, every link is up exactly as advertised |
| `LinkStates.ReservationIsMissed` | openr/decision/LinkState.cpp:472-491 | a run of two nodes after which a link is up although its use is forbidden |
| `DualSpec.MinDistance` | openr/kvstore/Dual.cpp:88-100 | the least distance through any neighbour, attained if finite |
| `DualSpec.ActiveStateTells` | openr/kvstore/Dual.cpp:16-63 | over any events while ACTIVE, the state tells who started the computation and what came first since: a rise in distance or the successor's query |
| `DualSpec.LastReplyFrees` | openr/kvstore/Dual.cpp:16-63 | the last reply makes a node PASSIVE, or without a feasible neighbour goes on exactly from the two states that noted more |
| `DualSpec.ReactKeepsInv` | openr/kvstore/Dual.cpp:263-310 | local or diffusing computation restores the node invariant and no CHECK fails |
| `DualSpec.DiffuseKeepsInv` | openr/kvstore/Dual.cpp:229-261 | starting a diffusing computation leaves the node ACTIVE and waiting for every up neighbour, or PASSIVE without a route |
| `DualSpec.ReceiveReplyKeepsInv` | openr/kvstore/Dual.cpp:651-744 | the last reply makes the node PASSIVE at the minimum, with an empty stack |
| `DualEvents.HandleKeepsInv` | openr/kvstore/Dual.cpp:417-744 | every event keeps: PASSIVE if and only if no reply is expected, the stack empty when PASSIVE and at most one deep when ACTIVE, and a PASSIVE node other than the root at the minimum over its neighbours in all three distances, attained by its next hop |
| `DualEvents.OnlyRaiseCanFail` | openr/kvstore/Dual.cpp:263-310 | no event but peerUp can fail a CHECK on next hop or feasibility |
| `DualEvents.RepeatedPeerUp` | openr/kvstore/Dual.cpp:430-450 | peerUp for the next hop of a PASSIVE node passes its CHECK if and only if a neighbour is then feasible, always if the link had a cost and has not become dearer |
| `DualEvents.RepeatedPeerUpCanFail` | openr/kvstore/Dual.cpp:278-283 | events that lead from a new node to one for which it does not |
| `DualMail.HandlePromises` | openr/kvstore/Dual.cpp:188-261 | on every link, the messages an event sends carry the receiver's stored report to the current one, a query goes out exactly on activation, and replies sent plus owed balance queries received |
| `DualMail.ActiveIsFrozen` | openr/kvstore/Dual.cpp:417-744 | report distance, feasible distance and the stack do not change while a node stays ACTIVE |
| `Duals.Dual.constructor` | openr/kvstore/Dual.cpp:68-86 | the initial route, which satisfies the node invariant |
| `Duals.Dual.GetMinDistance` | openr/kvstore/Dual.cpp:88-100 | the least distance over the neighbours, 0 at the root |
| `Duals.Dual.RouteAffected` | openr/kvstore/Dual.cpp:102-159 | affected if and only if the distance is not the minimum or the next hop does not attain it; the CHECK fails exactly without a next hop at a finite minimum |
| `Duals.Dual.MeetFeasibleCondition` | openr/kvstore/Dual.cpp:161-186 | a neighbour meeting the source node condition if and only if there is one: up, at the minimum, and its report strictly below the feasible distance |
| `Duals.Dual.FloodUpdates` | openr/kvstore/Dual.cpp:188-205 | one UPDATE for every neighbour that is up, no other mail changed |
| `Duals.Dual.LocalComputation` | openr/kvstore/Dual.cpp:207-227 | next hop and all three distances adopted; UPDATEs flooded if and only if the report changed |
| `Duals.Dual.DiffusingComputation` | openr/kvstore/Dual.cpp:229-261 | a QUERY to and an expected reply from exactly the up neighbours |
| `Duals.Dual.TryLocalOrDiffusing` | openr/kvstore/Dual.cpp:263-310 | refines the reaction function; a CHECK fails if and only if its condition does |
| `Duals.Dual.SendReply` | openr/kvstore/Dual.cpp:575-605 | pops the stack and answers, or remembers to if the link is down |
| `Duals.Dual.ProcessReply` | openr/kvstore/Dual.cpp:651-744 | refines the reply function, with the next hop its loop comes upon first |
| `Duals.Dual.Introduce` | openr/kvstore/Dual.cpp:462-490 | the neighbour that came up gets our report, and a reply if one is still owed |
| `Duals.Dual.PeerUp` | openr/kvstore/Dual.cpp:417-491 | refines the link-up event and keeps the invariant; fails a CHECK exactly as characterised |
| `Duals.Dual.PeerDown` | openr/kvstore/Dual.cpp:493-529 | refines the link-down event and keeps the invariant |
| `Duals.Dual.ProcessUpdate` | openr/kvstore/Dual.cpp:531-573 | refines the update event and keeps the invariant |
| `Duals.Dual.ProcessQuery` | openr/kvstore/Dual.cpp:607-649 | refines the query event and keeps the invariant |
| `Duals.Dual.ReceiveReplyMessage` | openr/kvstore/Dual.cpp:835-868 | refines the reply event and keeps the invariant |
| `DualNetwork.ApplyKeepsInv` | openr/kvstore/Dual.cpp:417-868 | every step of the network keeps its invariant: messages in flight carry stored reports to current ones, and whoever waits has its query or reply in flight or is held up by a node that became ACTIVE later |
| `DualNetwork.ReachableIsGood` | openr/kvstore/Dual.cpp:417-868 | so it holds in every reachable state |
| `DualConvergence.QuietMeansPassive` | openr/kvstore/Dual.cpp:651-744 | no deadlock: with no message in flight every node is PASSIVE |
| `DualConvergence.QuietHasConverged` | openr/kvstore/Dual.cpp:188-261 | then every distance is the true shortest one, infinite if and only if there is no path, and following next hops reaches the root in that distance |
| `DualConvergence.RestingRunHasConverged` | openr/kvstore/Dual.cpp:417-868 | the same for every moment without messages of every run |
| `DualConvergence.LinkCanComeUp` | openr/kvstore/Dual.cpp:756-766 | no CHECK fails when a link that is down comes up, in any reachable state |
| `DualConvergence.LinkCanGoDown` | openr/kvstore/Dual.cpp:769-781 | nor when one goes down |
| `DualConvergence.MessageCanArrive` | openr/kvstore/Dual.cpp:835-868 | nor when a message arrives |
| `RouteSelection.GetReachablePrefixEntries` | openr/decision/SpfSolver.cpp:138-182 | exactly the advertisements of nodes reachable in their area, and whether one of our own was there |
| `RouteSelection.FilterHardDrainedNodes` | openr/decision/SpfSolver.cpp:444-459 | without the overloaded nodes, unless all are |
| `RouteSelection.SelectTop` | openr/common/LsdbUtil.cpp:774-816 | exactly the advertisements that none ranks above; on the fields: no drained one beside one that is not, then the larger path preference, then the larger source preference |
| `RouteSelection.SelectShortestDistance` | openr/common/LsdbUtil.cpp:728-750 | exactly those at the least distance |
| `RouteSelection.SelectBestRoutes` | openr/decision/SpfSolver.cpp:367-412 | exactly the selected advertisements, at least one if there is any |
| `RouteSelection.SelectedByFields` | openr/decision/SpfSolver.cpp:367-412 | on the fields: an overloaded node is selected only if all are overloaded; with best route selection none is behind another one considered, and among equals none is farther |
| `RouteSelection.CombineAreas` | openr/decision/SpfSolver.cpp:286-309 | the next hops of exactly the nearest areas |
| `RouteSelection.GetMinNextHopThreshold` | openr/decision/SpfSolver.cpp:414-427 | the threshold excludes a number of next hops if and only if a selected advertisement asks for more, or some ask and all for a negative number |
| `RouteSelection.RouteToEntries` | openr/decision/SpfSolver.cpp:223-319 | from reachable advertisements to the route: none for our own prefixes, without next hops or below the minimum |
| `RouteSelection.RouteIsMadeOf` | openr/decision/SpfSolver.cpp:514-565 | the fields of a route: the first selected advertisement by node and area, marked drained if and only if its node is, its area, and whether one of our own was considered; at least as many next hops as asked for |
| `RouteSelection.RouteLeads` | openr/decision/SpfSolver.cpp:286-309 | its cost is the distance in the nearest of the selected areas, and its next hops are exactly those of such areas |
| `Decisions.RouteHopsAreAdvertised` | openr/decision/SpfSolver.cpp:655-676 | on the databases: every next hop of a route is made of an adjacency we advertise in its area, with the address of the prefix's family unless IPv4 goes over IPv6 |
| `RouteSelection.CreateRouteForPrefix` | openr/decision/SpfSolver.cpp:184-319 | the route that the specification on graphs and advertisements owes to the prefix |
| `RouteSelection.RouteIsUnique` | openr/decision/SpfSolver.cpp:184-319 | the specification admits one route only |
| `RebuildGate.AsksRebuildIff` | openr/decision/Decision.cpp:36-49 | on the state before and after: a rebuild is asked for if and only if a known overload bit, the increment or the label changes, a link comes up, goes down or changes its advertised metric, or our own database relabels a link |
| `RebuildGate.QuietUpdateKeepsArea` | openr/decision/Decision.cpp:36-49 | an update that does not ask for a rebuild leaves shortest walks, our own addresses and the drain state of everybody else reachable as they were, and the area looking the same if and only if it keeps our own overload bit and increment |
| `RebuildGate.OnlyFirstOwnDatabase` | openr/decision/Decision.cpp:36-49 | which only our own first database of an area may not keep |
| `RebuildGate.AlikeSameRoute` | openr/decision/SpfSolver.cpp:184-319 | areas that look the same give every prefix the same route |
| `OwnDrain.OwnDrainKeepsRoutes` | openr/decision/SpfSolver.cpp:184-459 | a change of our own drain state leaves the routes of all prefixes if and only if it does not show: nobody else reachable stands to be preferred differently |
| `OwnDrain.QuietUpdateKeepsRoutes` | openr/decision/Decision.cpp:36-49 | an update that does not ask for a rebuild leaves the routes of all prefixes as they were if and only if it brings no such change; otherwise two advertisements are given whose route differs |
| `OwnDrain.OverlookedIsFirst` | openr/decision/Decision.cpp:36-49 | one that does is our own first database of the area |
| `Decisions.CreateRouteForPrefixOrGetStaticRoute` | openr/decision/SpfSolver.cpp:115-136 | the computed route, or else the static one |
| `Decisions.BuildRouteDb` | openr/decision/SpfSolver.cpp:321-365 | a table if and only if our node is known, and then the route owed to every prefix |
| `Decisions.FullUpdate` | openr/decision/Decision.cpp:1076-1102 | the delta of a full rebuild leads to a current table, or to an empty one if our node is unknown |
| `Decisions.AbsentOwesStatics` | openr/decision/SpfSolver.cpp:321-337 | if our node is unknown, the empty table is the right one if and only if there are no static routes |
| `Decisions.CalculateUpdate` | openr/decision/SpfSolver.cpp:21-41 | exactly the prefixes gone and the entries that are new or differ in next hops, best advertisement or a flag |
| `Decisions.DifferenceLeads` | openr/decision/SpfSolver.cpp:21-51 | applying the difference gives the other table, with the same next hops, best advertisement and flags for every prefix; it never installs and deletes one prefix |
| `Decisions.MakePatch` | openr/decision/Decision.cpp:1105-1112 | for each prefix reported, the route owed or a delete |
| `Decisions.PatchedIsCurrent` | openr/decision/Decision.cpp:1105-1127 | a table current but for some prefixes is current once patched for them |
| `Decisions.Decision.AddArea` | openr/decision/Decision.cpp:963-970 | a new empty area changes no route |
| `Decisions.Decision.UpdateAdjacencyDatabase` | openr/decision/Decision.cpp:843-861 | the area takes the database and a rebuild is pending if asked for; no route goes stale unless the database is our own first one there and brings a change that shows |
| `Decisions.Decision.DeleteAdjacencyDatabase` | openr/decision/Decision.cpp:920-936 | a deletion asks for a full rebuild if and only if there was a database |
| `Decisions.Decision.UpdatePrefix` | openr/decision/PrefixState.cpp:16-41 | the advertisement is stored, and its prefix reported if and only if something changed |
| `Decisions.Decision.DeletePrefix` | openr/decision/PrefixState.cpp:43-62 | the advertisement is gone, empty prefixes too, reported if and only if it was there |
| `Decisions.Decision.UpdateStaticRoutes` | openr/decision/Decision.cpp:1009-1035 | static routes updated, their prefixes pending |
| `Decisions.Decision.RebuildRoutes` | openr/decision/Decision.cpp:1048-1134 | full or patched, the table then holds the route owed to every prefix, but after a full rebuild without our node exactly if there are no static routes; every entry has the next hops, best advertisement and flags owed; the update sent has disjoint keys and leads from the old table to the new |
| `Decisions.CurrentTablesAgree` | openr/decision/Decision.cpp:1076-1127 | a patched and a rebuilt table are equal entry by entry |
| `Decisions.CurrentCarries` | openr/decision/RibEntry.h:81-87 | a current table has, for every prefix, the next hops, best advertisement and flags of the route owed |
| `Decisions.GateCanOverlook` | openr/decision/LinkState.cpp:188-213 | an update of ours that does not ask for a rebuild and brings such a change |
| `Fibs.DueUpdate` | openr/fib/Fib.cpp:401-427 | a delta for exactly the dirty prefixes that are due, as the intended table has them |
| `Fibs.Installable` | openr/fib/Fib.cpp:500-512 | exactly the routes that may be installed |
| `Fibs.MarkFailed` | openr/fib/Fib.cpp:551-670 | dirty afterwards are exactly the failed prefixes and the delayed deletes, besides those already dirty; a failed one is due at the retry time, a delayed delete after the delay and no earlier, the others when they were |
| `Fibs.ProgrammingTracksIff` | openr/fib/Fib.cpp:551-670 | for any outcome of the two requests, every difference between hardware and intent is dirty if and only if every prefix both deleted and installed is dirty afterwards |
| `Fibs.ProgrammingAlwaysTracksIff` | openr/fib/Fib.cpp:551-670 | that is so for all outcomes if and only if each such prefix was dirty already or its delete is delayed |
| `Fibs.PublicationTracks` | openr/fib/Fib.cpp:625-665 | replaying the published delta keeps a reader at the intended table, but for dirty prefixes |
| `Fibs.PublicationTells` | openr/fib/Fib.cpp:625-665 | what a reader has after each prefix of the delta: the route if it was installed, nothing if it was deleted or failed |
| `Fibs.SyncPublicationTells` | openr/fib/Fib.cpp:790-845 | the same for a sync |
| `Fibs.NotDueStays` | openr/fib/Fib.cpp:401-427 | a retry before a prefix is due leaves it dirty, due when it was, and the same in hardware and for readers |
| `Fibs.SyncingEnds` | openr/fib/Fib.cpp:1041-1097 | SYNCED is entered from SYNCING by a finished sync and in no other way |
| `Fibs.LevelAfterUpdate` | openr/fib/Fib.cpp:672-745 | an update stored but not published leaves a level reader level if and only if it changes no prefix but dirty ones |
| `Fibs.LevelAfterFailedSync` | openr/fib/Fib.cpp:401-427 | a failed sync, which consumes the due dirty prefixes, leaves a level reader level if and only if reader and intent agree on these |
| `Fibs.Fib.UpdateRoutes` | openr/fib/Fib.cpp:672-745 | the intended table takes the delta in every state; in SYNCED it is programmed and published, in SYNCING left to the sync, and a level reader stays level except as above |
| `Fibs.Fib.Program` | openr/fib/Fib.cpp:551-670 | whatever the agent does within its replies, hardware differs from intent only where dirty; the reader gets exactly the published delta and is level if it was but for the delta |
| `Fibs.Fib.ProcessDecisionRouteUpdate` | openr/fib/Fib.cpp:486-520 | the intended table takes the update, deletes last; every difference stays dirty |
| `Fibs.Fib.SyncRoutes` | openr/fib/Fib.cpp:747-859 | a sync without error ends in SYNCED with every difference dirty, a full success with hardware equal to intent; what is published and what stays dirty, exactly; a level reader stays level except as above |
| `Fibs.Fib.RetryDirty` | openr/fib/Fib.cpp:672-745 | prefixes that are not due stay as they are; once all are due and the requests succeed, nothing is dirty and hardware equals intent |
| `Fibs.Fib.RetryRoutes` | openr/fib/Fib.cpp:886-935 | the same for the retry task in either state; no transition CHECK fails |
| `Fibs.Fib.KeepAlive` | openr/fib/Fib.cpp:950-981 | an agent with another birth time, or none, takes Fib out of SYNCED; the reader is level as before |
| `Fibs.Fib.Handle` | openr/fib/Fib.cpp:384-981 | for every event in every state: a level reader stays level if and only if the step is neither an update during a repeated sync that alters a clean prefix nor a failed repeated sync with a due dirty prefix on which reader and intent disagree |
| `Fibs.Fib.NothingDirtyMeansProgrammed` | openr/fib/Fib.h:267-275 | SYNCED, no restart since, nothing dirty: hardware equals intent, and so does a reader if and only if it is level |
| `Fibs.ResyncMissesUpdate` | openr/fib/Fib.cpp:384-428 | a run with an update during a repeated sync, after which hardware equals intent but the reader was never told |
| `Fibs.FailedResyncLosesPrefix` | openr/fib/Fib.cpp:401-427 | a run without one, in which a failed repeated sync has the same effect |
| `IngressBytes.AdmitKeepsValid` | openr/kvstore/KvStorePeerIngressLimit.cpp:244-275 | admitting keeps all ledgers exact |
| `IngressBytes.AdmitAdds` | openr/kvstore/KvStorePeerIngressLimit.cpp:244-275 | all the bytes are queued on the connection and in all, and nothing else changes |
| `IngressBytes.ReleaseKeepsValid` | openr/kvstore/KvStorePeerIngressLimit.cpp:277-306 | so does a release, even of more than was admitted |
| `IngressBytes.ReleaseTakes` | openr/kvstore/KvStorePeerIngressLimit.cpp:277-306 | released are the bytes asked for, or what is queued if that is less |
| `IngressBytes.IdentifyKeepsValid` | openr/kvstore/KvStorePeerIngressLimit.cpp:227-242 | so does moving a connection's bytes to its peer |
| `IngressBytes.AddPendingKeepsValid` | openr/kvstore/KvStorePeerIngressLimit.cpp:491-505 | so does adding pending-merge bytes, all of them |
| `IngressBytes.ReleasePendingKeepsValid` | openr/kvstore/KvStorePeerIngressLimit.cpp:514-549 | so does releasing them, as many as asked for or as there are |
| `IngressBytes.HeldIsEverything` | openr/kvstore/KvStorePeerIngressLimit.h:270-283 | held bytes of peers and queued bytes of unidentified connections add up to the two global totals |
| `IngressBytes.SomebodyIsOver` | openr/kvstore/KvStorePeerIngressLimit.cpp:357-375 | above the limit somebody holds more than the limit divided by the number of holders |
| `IngressBytes.HeldByIs` | openr/kvstore/KvStorePeerIngressLimit.cpp:363-367 | compared with the share are, for an identified connection, the pending bytes of its peer and the queued bytes of all the peer's connections, else its own |
| `IngressBytes.SomeConnectionIsOver` | openr/kvstore/KvStorePeerIngressLimit.cpp:357-375 | above the limit some connection is over its fair share, if every peer that holds bytes has a connection |
| `IngressBytes.NobodyToPause` | openr/kvstore/KvStorePeerIngressLimit.cpp:357-375 | ledgers above the limit with no connection over its share, a peer without a connection holding the bytes |
| `IngressBytes.Backpressure.InitConnection` | openr/kvstore/KvStorePeerIngressLimit.cpp:218-225 | a connection keeps the slot it has; a new one holds nothing |
| `IngressBytes.Backpressure.Admit` | openr/kvstore/KvStorePeerIngressLimit.cpp:244-275 | rejected if and only if the connection has already reached its limit |
| `IngressBytes.Backpressure.RecordSenderId` | openr/kvstore/KvStorePeerIngressLimit.cpp:227-242 | the bytes follow the sender; nothing happens for a known one |
| `IngressBytes.Backpressure.Release` | openr/kvstore/KvStorePeerIngressLimit.cpp:277-306 | at most what the connection has queued is released, everywhere alike |
| `IngressBytes.Backpressure.AddPendingMerge` | openr/kvstore/KvStorePeerIngressLimit.cpp:491-505 | the bytes are counted for the peer and globally |
| `IngressBytes.Backpressure.ReleasePendingMerge` | openr/kvstore/KvStorePeerIngressLimit.cpp:514-549 | at most what the peer has pending is released, everywhere alike |
| `IngressBytes.Backpressure.IsOverFairShare` | openr/kvstore/KvStorePeerIngressLimit.cpp:357-375 | over if and only if more than the fair share is held; the divisor is never 0 |
| `IngressResume.StepKeepsInv` | openr/kvstore/KvStorePeerIngressLimit.cpp:377-568 | every step of every thread keeps: below the threshold, or once stopped, somebody is about to resume whoever is in the list |
| `IngressResume.NoLostResume` | openr/kvstore/KvStorePeerIngressLimit.cpp:377-470 | in every interleaving, with no call mid-way and bytes below the threshold or pausing stopped, nobody is in the list, and once handed-out resumptions have run everybody is read |
| `IngressResume.PausedOnce` | openr/kvstore/KvStorePeerIngressLimit.cpp:392-416 | no connection is in the list twice |
| `IngressResume.PausesOnlyAbove` | openr/kvstore/KvStorePeerIngressLimit.cpp:377-416 | in every execution, whoever is put into the list was so by a call that saw pausing go on and read totals above the threshold |
| `IngressResume.ResumesOnlyBelow` | openr/kvstore/KvStorePeerIngressLimit.cpp:430-470 | and the list is emptied only by a call that saw pausing stopped or read totals below the lower one |
| `IngressResume.ListChangesOnlyBy` | openr/kvstore/KvStorePeerIngressLimit.cpp:377-568 | nothing else but a timer changes the list; a connection within its fair share is let go |
| `IngressResume.TimerTakesOwn` | openr/kvstore/KvStorePeerIngressLimit.cpp:551-568 | a timer takes out its own pause only |
| `IngressResume.PausesHoldIff` | openr/kvstore/KvStorePeerIngressLimit.cpp:388-416 | whoever is in the list is not read, through every step but pausing somebody whose previous resumption has not run |
| `IngressResume.LateResumeUndoesPause` | openr/kvstore/KvStorePeerIngressLimit.cpp:570-585 | that resumption then turns reading on under the new pause |
| `IngressResume.PauseCanComeTooEarly` | openr/kvstore/KvStorePeerIngressLimit.cpp:388-416 | an execution in which a connection is about to be paused while its previous resumption has not run |
| `IngressResume.PauseCanBeUndone` | openr/kvstore/KvStorePeerIngressLimit.cpp:570-585 | and one in which a connection is in the list and yet read |
| `RouteUpdates.FoldInPlace` | openr/decision/RouteUpdate.h:125-140 | the loops on an INCREMENTAL base: later state wins per key |
| `RouteUpdates.AbsorbInPlace` | openr/decision/RouteUpdate.h:111-123 | the loops on a FULL_SYNC base: a deleted key is absent |
| `RouteUpdates.FoldExactIff` | openr/decision/RouteUpdate.h:109-147 | folding is exact for a consumer that deletes first if and only if the later delta has disjoint keys |
| `RouteUpdates.FoldDeletesLast` | openr/decision/RouteUpdate.h:109-147 | and always exact for one that deletes last |
| `RouteUpdates.FoldedIsDisjoint` | openr/decision/RouteUpdate.h:109-147 | a fold has disjoint keys if the pending delta has |
| `RouteUpdates.DecisionRouteUpdate.MergeInPlace` | openr/decision/RouteUpdate.h:109-147 | both tables merged, the prefix types united |
| `RouteUpdates.DecisionRouteUpdate.CoalesceDecision` | openr/decision/RouteUpdate.h:288-298 | a snapshot replaces what is pending but keeps its prefix types, a delta is merged |
| `RouteUpdates.DecisionRouteUpdate.CoalesceIncremental` | openr/decision/RouteUpdate.h:317-326 | merges two deltas only |
| `RouteUpdates.AbsorbBlindIff` | openr/decision/RouteUpdate.h:300-316 | a reader that cannot see the type survives a delta folded into a snapshot if and only if it holds none of the deleted keys |
| `RouteUpdates.CoalescingIsTransparent` | openr/decision/RouteUpdate.h:288-326 | for every stream and every interleaving of pushes and pops, a reader that catches up has the tables and prefix types it would have had without coalescing |
| `Publications.PendingPublication.MergeInPlace` | openr/dispatcher/PublicationCoalescer.h:99-141 | what the merge makes of every key |
| `Publications.OverIs` | openr/dispatcher/PublicationCoalescer.h:54-86 | on the fields: a refresh of the same version by the same originator keeps the pending payload and takes the later liveness; anything else replaces what is pending |
| `Publications.FoldIsRightIff` | openr/dispatcher/PublicationCoalescer.h:66-86 | folding one key is right for all readers if and only if the refresh fits |
| `Publications.FoldIsUpToDate` | openr/dispatcher/PublicationCoalescer.h:54-86 | no pending payload is lost and no ttlVersion moves back |
| `Publications.FoldingIsTransparent` | openr/dispatcher/PublicationCoalescer.h:99-141 | for every stream of publications as KvStore makes them and every interleaving, a reader that catches up has the state it would have had without folding |
| `PersistentStores.DecodeInvertsEncodeIff` | openr/config-store/PersistentStore.cpp:353-415 | decoding inverts encoding before any trailing bytes, up to empty data, if and only if the lengths fit |
| `PersistentStores.ParseReplays` | openr/config-store/PersistentStore.cpp:285-323 | parsing an encoded log is replaying it |
| `PersistentStores.ShortFileFails` | openr/config-store/PersistentStore.cpp:285-295 | a file shorter than the marker is no log |
| `PersistentStores.FormatIs` | openr/config-store/PersistentStore.cpp:353-384 | the marker spelled out and the bytes of an addition and of a deletion |
| `PersistentStores.EncodeDatabase` | openr/config-store/PersistentStore.cpp:203-235 | the whole database as a log that replays to it, readable if its entries fit the length fields |
| `PersistentStores.PersistentStore.constructor` | openr/config-store/PersistentStore.cpp:248-323 | starts with what the file holds, or empty |
| `PersistentStores.PersistentStore.Store` | openr/config-store/PersistentStore.cpp:67-85 | the value is there, and file plus unflushed objects replay to the database |
| `PersistentStores.PersistentStore.Erase` | openr/config-store/PersistentStore.cpp:87-105 | the key is gone, likewise; nothing is logged for a missing key |
| `PersistentStores.PersistentStore.Flush` | openr/config-store/PersistentStore.cpp:137-201 | after a successful append of entries that fit, with or without compaction, the file alone loads to the database |
| `PersistentStores.PersistentStore.SaveDatabase` | openr/config-store/PersistentStore.cpp:203-246 | if its entries fit, the file loads to the database, whatever appends have failed before |
| `PersistentStores.Reopen` | openr/config-store/PersistentStore.cpp:63-65 | closing and reopening gives the same database if its entries fit the length fields |
| `PersistentStores.Recover` | openr/config-store/PersistentStore.cpp:248-283 | after a crash exactly the unflushed objects are missing |
| `SubPrefixes.GetNthPrefix` | openr/common/LsdbUtil.cpp:214-268 | every bit of the network: seed, index, or clear; for all lengths, an error if and only if the network is larger than the seed, longer than the address or the index out of range |
| `SubPrefixes.BitStrValue` | openr/common/LsdbUtil.cpp:200-212 | the number the bits spell, modulo 2^32 |
| `SubPrefixes.IndexRoundTrip` | openr/common/LsdbUtil.cpp:200-262 | the bits beyond the seed spell the index |
| `SubPrefixes.DistinctNetworks` | openr/common/LsdbUtil.cpp:214-262 | distinct indices give distinct networks |
| `SubPrefixes.InsideSeed` | openr/common/LsdbUtil.cpp:214-262 | every network is inside the seed network and clear beyond its length |
| `SubPrefixes.AllocateAndRead` | openr/common/LsdbUtil.cpp:200-262 | allocating index i and reading it back gives i for 1 to 32 bits |

## Left out

- Overflow of 64-bit metrics and distances: sums are unbounded.
- LinkStates.LinkState: links are values keyed by their identity rather than shared objects; link holds, the fabric helper and propagation-time logging are not modelled.
- Decisions.Decision holds its areas as values without memo tables, since a memoized result is a fresh one; rib policy, initialization gating and perf events are not modelled.
- DualNetwork: links come up at a positive cost; a link changes at both ends in one step and its messages are lost when it goes down; one root; termination of a diffusing computation is not proved, nor loop freedom at every instant, since local computation assigns the feasible distance outright.
- Duals.Dual: next-hop callbacks, counters and the flooding-tree children are not modelled.
- Fibs.Fib: dryrun mode, MPLS routes, backoff durations and the interleaving of keepAlive with a request in progress are not modelled.
- IngressResume: the ledger lock sections are separate (IngressBytes); the outcome of the fair-share test is arbitrary.
- Publications: queue barriers between areas and initialization events.
- PersistentStores.PersistentStore: dryrun mode, timers and backoff; a file that is no log of the store is only loaded, nothing is claimed of appending to it.
- KvStore's merge, flooding and peer state machine, the messaging queue, Thrift servers and clients, configuration, monitoring and the command line.
