# A model of the AIE stream-switch router

This project models the part of the AIE runtime that turns requested flows into a switch
configuration. It proves when a configured switch delivers every packet to exactly its destinations,
that routes are trees of paths in the graph of channels, and when the settings of a route, followed
from switchbox to switchbox, lead to exactly its destinations:

- the compiler from "packet id to destinations" to ordered first-match packet rules (`PacketIds`,
  `GroupOrder`, `PacketRules`, `PacketRulesMeaning`, `RepeatedSlaves`, `RepeatedPair`, `RoutedPairs`);
- the allocation of arbiters and msels (`MSel`, `Connections`, `ComponentSearch`, `Placement`,
  `RepeatedLists`, `TileAMSel`, `AMSel`) and the master sets made from it (`PacketRouting`), with the
  switch that the two configure together (`PacketSwitch`, `SourceInBothMaps`);
- the array heap of any arity with an index map and a shared distance map (`HeapOrder`, `Heap`);
- the search for paths over that heap (`Wiring`, `PortOrder`, `SwitchFabric`, `ShortestPaths`,
  `PathSearch`, `ShortestTrees`, `StaleQueue`);
- the congestion-aware router with its capacity accounts (`Flows`, `FixedConnections`, `Capacity`,
  `FlowCharges`, `TraceBack`, `FlowSettings`, `Solutions`, `Rounds`, `Router`, `ParallelLinks`,
  `SharedDestination`), and where packets get to by its settings (`Delivery`, `InsideTwice`,
  `CrossedLinks`);
- the allocators of DMA channels and of buffer descriptor ids (`ChannelGenerator`, `BdIdGenerator`)
  and the packet and control headers (`Headers`).

Objects whose methods change their fields are classes; a loop that updates variables is a method
with a loop, proved against a specification function, and the theorems are about these functions.
`dafny verify dfyconfig.toml` checks everything.

## Main results

- **Packet rules.** `PacketRulesMeaning.FirstMatchMeaning`: the emitted rules mean the flow map if
  and only if ids of one port that agree on the low mask bits have the same destinations, as long as
  no slave takes one branch: its merge is rejected while its id is the first of an older group with
  ids of other low bits, whose rule is then emitted with the mask of that id alone. By
  `WholeUnlessNarrowed` this branch is exactly what makes a rule lose ids of its group. The caller
  lists a pair once for each of its destinations (`AMDAIECreatePathFindFlows.cpp:390-399`), and
  `RepeatedPair.RepeatLosesAnId` is such a work list for which the rules lose an id.
  `RepeatedSlaves.HarmlessNeverNarrows` has the condition on the work list: repeats do no harm, in
  any order, to ids whose destinations are apart from the others on their port, or are theirs alone.
- **Exact delivery.** `PacketSwitch.RunOnPacketFlow`: rules, arbiter/msel pairs and master selects
  deliver a packet to a port of its tile exactly when the prior or the new flows want it there. A
  source that is in both must not share its prior destinations with an id that is wanted elsewhere
  (`PacketSwitch.ExactOnApartPort`, `SourceInBothMaps.OverlapMisdelivers`).
- **Allocation.** `TileAMSel.TileAMSelGenerator.Solve`: groups are the connected components, in the
  order of their first ports, success is characterised exactly, pairs satisfy all constraints, and
  failure leaves no pair.
- **Heap.** Order, conservation and the exact inverse index map for any arity
  (`Heap.DAryHeap`), also while keys are stale.
- **Paths.** The search always finds a tree of all reachable nodes (`ShortestTrees.PredsAreTree`,
  `PredsAreReachable`); its distances are shortest if and only if no relaxation of a black node was
  passed over (`ShortestUnlessMissed`), which `StaleQueue.NotAlwaysShortest` shows can happen.
- **Routes.** `Router.Router.FindPaths`: every returned solution routes every flow over exactly its
  tree paths and uses every channel legally, but for one packet flow beside 32 or more fixed ones.
  Every round is described flow by flow (`Rounds.IsRound`): the demands it starts with, the order of
  the flows, the demands that each flow finds, and what its route does to them; it fails exactly when
  a channel is over capacity. `ParallelLinks.RouteInParallel` is an input for which this gives a
  solution in every case, because the raised demand sends the second circuit over another link.
- **Delivery.** `Delivery.ExactDelivery`: a route is not crossed and its settings lead to exactly its
  destinations if and only if none of its paths takes two channels of one switchbox in a row. It is
  crossed when it drives a link to a port that its tree enters from elsewhere; `DrivenIffFed` covers
  this case too. The search does not exclude such paths: `InsideTwice.RouteTwice` is routed and not
  delivered, and `CrossedLinks.RouteCrossed` is delivered by accident.

## How the code is represented

- 32-bit words are numbers below 2^32 with bitwise operators defined bit by bit (`Words`); a
  `std::set` is an ascending sequence; an ordered or hashed map is a map.
- The matrices of all switchboxes are one map from a channel (two tiles, two ports) to a cell. A
  switchbox is in the graph when it has channels; a matrix entry is found by its ports.
- `std::sort` is an insertion sort; sorted results are proved unique.
- Where the code walks over a hashed map or over all matrix entries, the order is left open, and
  everything is proved for every order.
- Demands and distances are exact reals, and the largest double is an explicit infinity.
- Devices, limits and the initial graph are parameters. A `LogicalResult`, `FailureOr` or
  `std::optional` is an option or a Boolean answer.

## Where the code and its comments or names differ

- `iree_aie_router.cc:276-277` says that any overlap leads to the same group ID; the maximum that is
  taken after the inner `break` can replace the group found (`Flows.OverlapWithoutSharing`,
  `Flows.WhenGroupIsShared` has the exact condition).
- `iree_aie_router.cc:335-338` says that new packet flows may use channels of fixed packet flows.
  Only the group that is routed first can; afterwards the fixed flows have been turned into used
  capacity (`Capacity.LaterGroupsDoNotFit`, `FlowCharges.FixedGroupRouted`; `Router.Router.FindPaths`
  says so of every solution).
- The route to self at `iree_aie_router.cc:564-568` is never taken for flows made by `addFlow`,
  because equality of physical ports includes the direction.
- The capacity test at `amsel_generator.cc:172` is strict, so merging never uses the last msel of an
  arbiter (`Placement.ExactFitIsRefused`), and the number of msels needed counts a list once for each
  source, in an unsigned byte that wraps around (`RepeatedLists.WhenPlaced`, `Placement.WrappedTest`).
  A build with assertions stops before it wraps, at `amsel_generator.cc:51` (`MSel.AssertionStopsWrap`).
- `configureSwitchPacketMasters` collects msel bits in 8 bits; larger msels are lost
  (`PacketRouting.ExactDelivery` has the condition). A shift by 32 or more is not defined and is
  excluded.
- `BdIdAssignmentMode::Smallest` returns the first free id of the list, which is the smallest one for
  every set of assigned ids exactly when the list is in order (`BdIdGenerator.LeastNeedsOrder`).
- A source key that is in the prior and in the new packet flows is grouped by its prior destinations
  but gets arbiters for the union (`PacketSwitch.ExactForSlave`).
- The cap of 32 packet flows at `iree_aie_router.cc:594-598` sets the count back and charges one
  circuit, so one new packet flow is accepted beside 32 or more fixed ones (`Capacity.OneTooMany`,
  `Router.SingleFlowFits`).
- A packet flow to the destination of a circuit can get group -1 and is then charged as a circuit
  (`Flows.WhenTakenForCircuit`).
- `ChannelGenerator.cpp:50-51` calls the front of the packet channels the least recently used one; it
  need not be after `FirstAvailablePacketFlow` has used a channel again that is not the last of the
  list (`ChannelGenerator.NotAlwaysLeastUsed`). Round robin keeps to it, at once and in further
  requests, exactly in the runs in which this does not happen (`ChannelGenerator.LeastUsedUnlessSkipped`).
- Legality is per channel, as the code checks it: two circuits to one destination are accepted
  although both drive its port (`SharedDestination.RouteBoth`). A port that no channel leaves is driven
  by one flow, or by packet flows of one group, exactly when so are the requests for it
  (`Solutions.PortOfOneGroup`), and where at most one channel leaves a port, flows of different groups
  only meet at a destination of one of them (`Solutions.MeetAtDestination`).
- In the graph of `dijkstraShortestPaths` one node stands for a port in both directions, so a path may
  go out of a switchbox port and straight back in; `existsPathToDest` and the switch do not
  (`Delivery.ExactDelivery` has the condition, `InsideTwice.NotDelivered` an input).

## Model

| member | source | states |
|---|---|---|
| `PacketIds.GroupMaskBit` | runtime/src/iree-amd-aie/aie_runtime/iree_aie_router.cc:834-847 | The mask of a group has a bit exactly at the positions below numMaskBits on which all ids of the group agree: it is the largest such mask. |
| `PacketIds.GroupMaskOrderFree` | runtime/src/iree-amd-aie/aie_runtime/iree_aie_router.cc:843-844 | The mask depends on the ids of the group only, not on which id is the first. |
| `PacketIds.GroupMaskShrinks` | runtime/src/iree-amd-aie/aie_runtime/iree_aie_router.cc:969-970 | A group that grows can only lose bits of its mask. |
| `PacketIds.OwnRuleMatches` | runtime/src/iree-amd-aie/aie_runtime/iree_aie_router.cc:834-847 | Every id of a group matches the rule of its group. |
| `PacketIds.SingletonRule` | runtime/src/iree-amd-aie/aie_runtime/iree_aie_router.cc:979-981 | The rule of a group of one id matches exactly the ids with the same low numMaskBits bits. |
| `PacketIds.RuleSeesLowBitsOnly` | runtime/src/iree-amd-aie/aie_runtime/iree_aie_router.cc:840-844 | No rule can tell apart two ids with the same low numMaskBits bits. |
| `PacketIds.FittingIdsDiffer` | runtime/src/iree-amd-aie/aie_runtime/iree_aie_router.cc:838-844 | Ids below 2^numMaskBits with the same low bits are equal. |
| `GroupOrder.SortBySizeSorts` | runtime/src/iree-amd-aie/aie_runtime/iree_aie_router.cc:870-876 | The sorted list is ordered by size and then by content. |
| `GroupOrder.SortBySizeAdds` | runtime/src/iree-amd-aie/aie_runtime/iree_aie_router.cc:870-876 | Sorting conserves the groups. |
| `GroupOrder.SortedUnique` | runtime/src/iree-amd-aie/aie_runtime/iree_aie_router.cc:870-876 | There is only one sorted list of given groups; so it does not matter which sorting algorithm is used. |
| `GroupOrder.LexLessIs` | runtime/src/iree-amd-aie/aie_runtime/iree_aie_router.cc:870-876 | The recursive comparison of two groups holds exactly when they agree up to some place where the first one ends or has the smaller id. |
| `GroupOrder.GroupLessIs` | runtime/src/iree-amd-aie/aie_runtime/iree_aie_router.cc:870-876 | The order of the groups is: fewer ids first, and with as many ids the smaller id where they first differ. |
| `GroupOrder.SortGroupsBySize` | runtime/src/iree-amd-aie/aie_runtime/iree_aie_router.cc:870-876 | The in-place sort returns the groups, each as often as before, in that order. |
| `PacketRules.UpdateGroupMask` | runtime/src/iree-amd-aie/aie_runtime/iree_aie_router.cc:834-847 | The loop over the ids sets the group mask for every id of the group, and no other entry of the mask map changes. |
| `PacketRules.VerifyGroupsByMask` | runtime/src/iree-amd-aie/aie_runtime/iree_aie_router.cc:896-910 | The three loops accept the groups if and only if no id of a later group matches the rule of an earlier one. |
| `PacketRules.FindGroup` | runtime/src/iree-amd-aie/aie_runtime/iree_aie_router.cc:944-962 | The group found is the first one whose first id has the destinations of the new id; none is found only if there is none. |
| `PacketRules.FindMatchingGroup` | runtime/src/iree-amd-aie/aie_runtime/iree_aie_router.cc:944-962 | The comparison by size and inclusion finds the first group with equal destination sets. |
| `PacketRules.TryMerge` | runtime/src/iree-amd-aie/aie_runtime/iree_aie_router.cc:964-977 | A merge is kept if and only if the sorted result passes the verification; otherwise the groups are those of before and the masks of the old group are restored, with the mask of the rejected id left over. |
| `PacketRules.PlaceSlave` | runtime/src/iree-amd-aie/aie_runtime/iree_aie_router.cc:942-983 | One step of the work list: merge, undo or new singleton. |
| `PacketRules.RoutedComeFirst` | runtime/src/iree-amd-aie/aie_runtime/iree_aie_router.cc:919-941 | Placing all slaves on the joint problem has the table that the prior slaves and the prior flows alone give, into which the new slaves are then placed in their order, with prior destinations going before new ones. |
| `PacketRules.EmitSlaveGroupsAndMasksRoutingConfig` | runtime/src/iree-amd-aie/aie_runtime/iree_aie_router.cc:912-985 | The imperative code with groups, masks and roll back computes the specified rule tables; its run passes, after the prior slaves, through the table that the prior slaves and flows alone give, and then places the new slaves one by one. |
| `PacketRules.CompileWellFormed` | runtime/src/iree-amd-aie/aie_runtime/iree_aie_router.cc:942-983 | After every step no group is empty, and every member has been seen and has a mask; so the look-ups in the mask map cannot fail. |
| `PacketRulesMeaning.SingletonPosition` | runtime/src/iree-amd-aie/aie_runtime/iree_aie_router.cc:979-982 | A new singleton is sorted in front of every group of two or more ids. |
| `PacketRulesMeaning.AddSingletonOk` | runtime/src/iree-amd-aie/aie_runtime/iree_aie_router.cc:978-982 | The unverified insertion of a singleton keeps the invariant of the port, for any id, listed before or not. |
| `PacketRulesMeaning.AddSingletonWhole` | runtime/src/iree-amd-aie/aie_runtime/iree_aie_router.cc:978-982 | After it all rules catch their groups if and only if they did before and the id is not the first id of a group with ids of other low bits. |
| `PacketRulesMeaning.MergeOk` | runtime/src/iree-amd-aie/aie_runtime/iree_aie_router.cc:966-973 | A merge that passes the verification keeps the invariant of the port; all rules were whole before, are whole after, and no rule catches an id of a later group. |
| `PacketRulesMeaning.UndoneMasks` | runtime/src/iree-amd-aie/aie_runtime/iree_aie_router.cc:964-981 | After a rejected merge has been undone and the singleton added, only the mask of the rejected id has changed among the masks with which rules are emitted. |
| `PacketRulesMeaning.OrderedIsSeparate` | runtime/src/iree-amd-aie/aie_runtime/iree_aie_router.cc:896-910 | The verification with the stored masks succeeds exactly when no rule of an earlier group matches an id of a later one. |
| `PacketRulesMeaning.StepOnOtherPort` | runtime/src/iree-amd-aie/aie_runtime/iree_aie_router.cc:945-982 | A step leaves the groups and masks of all other ports alone. |
| `PacketRulesMeaning.CompileOk` | runtime/src/iree-amd-aie/aie_runtime/iree_aie_router.cc:942-983 | The invariant of all ports holds after every step of every work list, with any repeats, and all ids seen so far are in groups. |
| `PacketRulesMeaning.WholeUnlessNarrowed` | runtime/src/iree-amd-aie/aie_runtime/iree_aie_router.cc:963-983 | For every work list: all emitted rules catch all ids of their groups if and only if no slave took the failing branch, a rejected merge of an id that is the first of a group with ids of other low bits. |
| `RepeatedSlaves.GroupInvariant` | runtime/src/iree-amd-aie/aie_runtime/iree_aie_router.cc:942-983 | On a port whose repeated slaves are solo or apart, after every step: groups are non-empty, sorted, partition the ids seen so far, hold the mask of the group for each member, would pass the verification, and destinations apart from the others have one group. |
| `PacketRulesMeaning.FirstMatchMeaning` | runtime/src/iree-amd-aie/aie_runtime/iree_aie_router.cc:912-985 | For every work list in which no slave takes the failing branch: first-match evaluation of the rules of every port gives each routed id exactly its destination set, if and only if ids of one port with the same low bits have the same destinations. |
| `PacketRulesMeaning.MeaningInGeneral` | runtime/src/iree-amd-aie/aie_runtime/iree_aie_router.cc:912-985 | For every work list at all: the rules mean the flow map if and only if ids that cannot be told apart have the same destinations and each id that the rules of its own groups have lost is caught by a rule with its destinations. |
| `PacketRulesMeaning.OwnRuleIsEnough` | runtime/src/iree-amd-aie/aie_runtime/iree_aie_router.cc:912-985 | An id that a rule of its own group catches goes to exactly its destinations, even if rules of other groups have been narrowed. |
| `RepeatedSlaves.ApartRules` | runtime/src/iree-amd-aie/aie_runtime/iree_aie_router.cc:863-895 | When the destinations of one of two groups are apart from the others, the rule of the one that is sorted in front catches no id of the other: ids that alone have their destinations need only differ from the others in the low bits, groups of several ids must be told apart by the bits that each has in common. |
| `RepeatedSlaves.StepCalm` | runtime/src/iree-amd-aie/aie_runtime/iree_aie_router.cc:942-983 | Listing a slave again changes nothing, a merge into a group apart from the others is accepted, and no step narrows a rule, on ports whose repeats are solo or apart. |
| `RepeatedSlaves.HarmlessNeverNarrows` | compiler/plugins/target/AMD-AIE/aie/AMDAIECreatePathFindFlows.cpp:390-399 | A condition on the work list alone that keeps every step off the failing branch: on each port only solo slaves are repeated, or entries with the same low bits are of one solo slave or of ids apart from the others. |
| `RepeatedSlaves.HarmlessMeaning` | compiler/plugins/target/AMD-AIE/aie/AMDAIECreatePathFindFlows.cpp:390-409 | For these work lists, in any order, the rules mean the flow map if and only if ids that cannot be told apart have the same destinations. |
| `RepeatedSlaves.AllApartMeaning` | compiler/plugins/target/AMD-AIE/aie/AMDAIECreatePathFindFlows.cpp:390-409 | When all destination sets of a port are apart from each other, the rules mean the flow map for any order and any repetition. |
| `RepeatedSlaves.OwnGroupCatches` | runtime/src/iree-amd-aie/aie_runtime/iree_aie_router.cc:912-985 | On a port whose repeated slaves are solo or apart, the first rule that matches an id is the rule of the one group that holds it. |
| `RepeatedSlaves.FittingIdsAreHarmless` | runtime/src/iree-amd-aie/aie_runtime/iree_aie_router.cc:912-985 | Distinct pairs with ids below 2^numMaskBits meet all of these conditions. |
| `PacketRulesMeaning.Lookup` | runtime/src/iree-amd-aie/aie_runtime/iree_aie_router.cc:878-895 | The index returned is that of the first rule that matches; none only if no rule matches. |
| `RepeatedPair.RepeatLosesAnId` | compiler/plugins/target/AMD-AIE/aie/AMDAIECreatePathFindFlows.cpp:390-399 | Counterexample: a work list that lists every pair once for each of its destinations, as the caller does, in which a slave takes the failing branch and the rules lose another id, although all ids can be told apart. |
| `RoutedPairs.GroupsAre` | runtime/src/iree-amd-aie/aie_runtime/iree_aie_router.cc:936-941 | Prior ids 0 and 7 with one destination and new ids 1 and 2 with another, 5 mask bits: the prior group is kept whole and the merge of the new ids is rejected. |
| `RoutedPairs.Emitted` | runtime/src/iree-amd-aie/aie_runtime/iree_aie_router.cc:912-985 | The emission, run on this input, returns the groups {1}, {2} and {0, 7}. |
| `MSel.MSelGenerator.AddConnection` | runtime/src/iree-amd-aie/aie_runtime/amsel_generator.cc:16-35 | A new destination port list gets the next msel, a known one keeps its msel; it fails exactly when a new list finds no msel left, and then nothing has changed. |
| `MSel.MSelGenerator.AddConnections` | runtime/src/iree-amd-aie/aie_runtime/amsel_generator.cc:37-44 | All connections are added if and only if the different port lists, old and new, are not more than the msels; msels given out before stay. |
| `MSel.MSelGenerator.GetNumMSelsForConnections` | runtime/src/iree-amd-aie/aie_runtime/amsel_generator.cc:46-59 | The count of new port lists, repetitions included, in an unsigned byte that wraps around. |
| `MSel.MSelGenerator.GetPhysPortMSels` | runtime/src/iree-amd-aie/aie_runtime/amsel_generator.cc:69-78 | Every source, in order, with the msel of its port list. |
| `MSel.NoMSelLeft` | runtime/src/iree-amd-aie/aie_runtime/amsel_generator.cc:22-29 | When one connection finds no msel left there are too few for all of them. |
| `MSel.CountNewBounds` | runtime/src/iree-amd-aie/aie_runtime/amsel_generator.cc:46-59 | The count is never less than the number of different new port lists. |
| `MSel.AssertionStopsWrap` | runtime/src/iree-amd-aie/aie_runtime/amsel_generator.cc:50-52 | The assertion in the loop holds for all lists if and only if less than 255 new ones come before the last, and then the byte does not wrap around. |
| `Connections.ClosedGroupsAreComponents` | runtime/src/iree-amd-aie/aie_runtime/amsel_generator.cc:116-148 | Groups that are closed under shared destination ports, linked inside and list every source once are exactly the classes of 'linked by a chain of shared destination ports'. |
| `Connections.LinkedTransitive` | runtime/src/iree-amd-aie/aie_runtime/amsel_generator.cc:98-99 | Being linked by chains of shared destination ports is transitive. |
| `Connections.LinkedSymmetric` | runtime/src/iree-amd-aie/aie_runtime/amsel_generator.cc:98-99 | Being linked is symmetric. |
| `Connections.LinkedStaysInside` | runtime/src/iree-amd-aie/aie_runtime/amsel_generator.cc:116-148 | No chain leads out of a closed group. |
| `ComponentSearch.PopNewPort` | runtime/src/iree-amd-aie/aie_runtime/amsel_generator.cc:135-145 | Visiting a new port queues all of its 'port and id's and their sources and keeps the invariant of the search. |
| `ComponentSearch.PopSource` | runtime/src/iree-amd-aie/aie_runtime/amsel_generator.cc:131-134 | Visiting a source puts it into the group, queues its destinations and keeps the invariant of the search. |
| `ComponentSearch.SearchEnds` | runtime/src/iree-amd-aie/aie_runtime/amsel_generator.cc:125-147 | When the queue is empty the group is closed, everything in it is linked, and all visited ends are accounted for. |
| `TileAMSel.TileAMSelGenerator.AddConnection` | runtime/src/iree-amd-aie/aie_runtime/amsel_generator.cc:80-91 | Destinations are appended to those of the source, their ports are appended to the port list in their order, and the two indexes follow. |
| `TileAMSel.TileAMSelGenerator.CollectGroup` | runtime/src/iree-amd-aie/aie_runtime/amsel_generator.cc:120-147 | One run of the work list collects a new group that is closed and linked; it terminates by (unvisited ends, queue length). |
| `ComponentSearch.FoundAtPort` | runtime/src/iree-amd-aie/aie_runtime/amsel_generator.cc:116-148 | The group collected at a place of the port list has a source that sends to this port, and none that sends to an earlier one. |
| `TileAMSel.TileAMSelGenerator.GroupSources` | runtime/src/iree-amd-aie/aie_runtime/amsel_generator.cc:116-148 | The groups are the connected components: every source with a destination is in exactly one group, and two sources are in one group if and only if a chain of shared destination ports links them. They are in the order of the first ports that lead to them. |
| `TileAMSel.TileAMSelGenerator.PlaceGroup` | runtime/src/iree-amd-aie/aie_runtime/amsel_generator.cc:157-185 | A group gets a new arbiter while there are any, and then the first one with enough msels by the code's test; the group is added to that arbiter and nothing else changes. |
| `TileAMSel.TileAMSelGenerator.Solve` | runtime/src/iree-amd-aie/aie_runtime/amsel_generator.cc:111-195 | It succeeds exactly when the placement of the components, in the order of their first ports, succeeds; then the pairs solve the constraints and every source has the arbiter at which its component was placed and an msel in use there, otherwise no source has a pair. |
| `TileAMSel.TileAMSelGenerator.GetAMSel` | runtime/src/iree-amd-aie/aie_runtime/amsel_generator.cc:197-202 | The pair of a source, or none. |
| `TileAMSel.PairsSolve` | runtime/src/iree-amd-aie/aie_runtime/amsel_generator.cc:151-194 | The pairs read from the generators: every source with a destination has one within the limits, sources that share a destination port share the arbiter, and sources share a pair only if, and on one arbiter always if, their destination port lists are equal. |
| `TileAMSel.PairsArePlaced` | runtime/src/iree-amd-aie/aie_runtime/amsel_generator.cc:157-194 | Every source has the arbiter that the first-fit search chose for its group, and an msel that is in use on it. |
| `TileAMSel.SameGroupSameArbiter` | runtime/src/iree-amd-aie/aie_runtime/amsel_generator.cc:98-104 | Sources that share a destination port have the same arbiter, and equal pairs mean equal destination port lists. |
| `Placement.RoomIsEnough` | runtime/src/iree-amd-aie/aie_runtime/amsel_generator.cc:168-177 | A merge that passes the capacity test fits, so adding its connections cannot fail, when fewer than 256 new port lists are counted. |
| `Placement.FirstFit` | runtime/src/iree-amd-aie/aie_runtime/amsel_generator.cc:167-185 | The arbiter found passes the capacity test and no earlier one does; none is found only if none passes. |
| `Placement.WrappedTest` | runtime/src/iree-amd-aie/aie_runtime/amsel_generator.cc:46-59 | A group of different new lists passes the capacity test without fitting if and only if there are 256 or more of them and their number modulo 256 leaves an msel over; these are exactly the groups at which the assertion of line 51 stops a build with assertions. |
| `RepeatedLists.GroupsAreComponents` | runtime/src/iree-amd-aie/aie_runtime/amsel_generator.cc:116-148 | One source with a port of its own and any number of packet ids with one other port are two connected components. |
| `RepeatedLists.WhenPlaced` | runtime/src/iree-amd-aie/aie_runtime/amsel_generator.cc:156-186 | On one arbiter these two components are placed if and only if one plus the number of packet ids modulo 256 is less than the msels, although two msels are used in any case; for more than 255 packet ids this is the answer of a build without assertions. |
| `RepeatedLists.WhenAsserted` | runtime/src/iree-amd-aie/aie_runtime/amsel_generator.cc:50-52 | With assertions the count goes through if and only if there are at most 255 packet ids. |
| `RepeatedLists.OneMoreFits` | runtime/src/iree-amd-aie/aie_runtime/amsel_generator.cc:168-177 | Counterexample to 'merged if there are still msels available': with 8 msels 6 packet ids with one list are placed, 7 and 255 are not, and 256 are in a build without the assertion of line 51, which fails for 256 and not for 255. |
| `Placement.ExactFitIsRefused` | runtime/src/iree-amd-aie/aie_runtime/amsel_generator.cc:172 | Because the test is strict, a group that would exactly use up the msels of an arbiter is refused. |
| `Placement.PlacedWithinLimits` | runtime/src/iree-amd-aie/aie_runtime/amsel_generator.cc:151-186 | A successful placement uses at most numArbiters arbiters and at most numMSels msels on each. |
| `Placement.EnoughArbiters` | runtime/src/iree-amd-aie/aie_runtime/amsel_generator.cc:156-165 | With at least as many arbiters as components the placement succeeds if and only if every component has at most numMSels different destination port lists. |
| `AMSel.AMSelGenerator.InitTileIfNotExists` | runtime/src/iree-amd-aie/aie_runtime/amsel_generator.cc:204-208 | A tile gets a new empty generator only if it has none. |
| `AMSel.AMSelGenerator.AddConnection` | runtime/src/iree-amd-aie/aie_runtime/amsel_generator.cc:210-220 | Only the connections of the given tile change, its destination ports are appended in their order; an unknown tile is refused. |
| `AMSel.AMSelGenerator.GetAMSel` | runtime/src/iree-amd-aie/aie_runtime/amsel_generator.cc:222-226 | The pair of a source on its tile, or none. |
| `AMSel.AMSelGenerator.Solve` | runtime/src/iree-amd-aie/aie_runtime/amsel_generator.cc:228-234 | It succeeds only if every tile is solved, and fails only if the placement of some tile fails. |
| `PacketRouting.GatherRoutes` | runtime/src/iree-amd-aie/aie_runtime/iree_aie_router.cc:1020-1036 | The connections gathered for a tile are exactly the flows whose source is on that tile. |
| `PacketRouting.SourcesInOrder` | runtime/src/iree-amd-aie/aie_runtime/iree_aie_router.cc:1005-1013 | Sources are ordered by column first; on one port the lower id comes first. |
| `PacketRouting.ListFlows` | runtime/src/iree-amd-aie/aie_runtime/iree_aie_router.cc:1000-1013 | The sorted list has every flow of the map once, in ascending order of the sources. |
| `PacketRouting.EmitPacketRoutingConfiguration` | runtime/src/iree-amd-aie/aie_runtime/iree_aie_router.cc:989-1065 | The entries are the prior flows and then the new ones, each part sorted by source. On success all listed sources have pairs that fit together and that the first-fit search gives for the components in the order of the entries, and a master port lists exactly the pairs of the sources that send to it, in ascending order; it fails only if some source has no destination or the placement of some tile fails. |
| `PacketRouting.ComputeMasterSets` | runtime/src/iree-amd-aie/aie_runtime/iree_aie_router.cc:1053-1064 | A master port lists a pair if and only if the pair has the port; the list is ascending, without repetitions. |
| `PacketRouting.TakePairs` | runtime/src/iree-amd-aie/aie_runtime/iree_aie_router.cc:1039-1051 | The ports entered for a pair are exactly the destination ports of the sources with this pair. |
| `PacketRouting.ConfigureSwitchPacketMasters` | runtime/src/iree-amd-aie/aie_runtime/iree_aie_configure.cc:327-333 | The loop leaves the arbiter of the last pair and the OR of the msel bits. |
| `PacketRouting.MasterBit` | runtime/src/iree-amd-aie/aie_runtime/iree_aie_configure.cc:327-333 | Bit i of the master select is set if and only if i < 8 and some pair has msel i. |
| `PacketRouting.ExactDelivery` | runtime/src/iree-amd-aie/aie_runtime/iree_aie_configure.cc:321-334 | A packet with the pair of its source leaves through exactly the destination ports of that source, under 'same arbiter and msel bit enabled', if and only if the msel fits into the 8-bit master select. |
| `PacketSwitch.ReachesPortsOfFirst` | compiler/plugins/target/AMD-AIE/aie/AMDAIECreatePathFindFlows.cpp:401-522 | The packet of a source reaches exactly the ports on which either flow map wants the first id of the group whose rule catches it. |
| `PacketSwitch.ExactForSlave` | compiler/plugins/target/AMD-AIE/aie/AMDAIECreatePathFindFlows.cpp:401-522 | Delivery of a source is exact if and only if that first id is wanted on the same ports, for sources in one map or in both. |
| `PacketSwitch.PacketsReachTheirDestinations` | compiler/plugins/target/AMD-AIE/aie/AMDAIECreatePathFindFlows.cpp:401-522 | Rules, pairs and masters together: when ids with equal destinations in the rules are wanted on the same ports, the packet of a source reaches a port of its tile if and only if either map wants it there. |
| `PacketSwitch.ExactOnApartPort` | compiler/plugins/target/AMD-AIE/aie/AMDAIECreatePathFindFlows.cpp:401-522 | On a port where all destination sets are apart from each other, all deliveries are exact if and only if ids with equal destinations in the rules are wanted on the same ports. |
| `PacketSwitch.OverlapMustBeSolo` | runtime/src/iree-amd-aie/aie_runtime/iree_aie_router.cc:919-931 | The condition holds when every source that is in both maps is the only id of its port with its prior destinations, and so when no source is in both. |
| `PacketSwitch.ListedInBoth` | runtime/src/iree-amd-aie/aie_runtime/iree_aie_router.cc:919-941 | The condition holds when every source is in its slave list and only solo slaves are listed twice. |
| `SourceInBothMaps.OverlapMisdelivers` | runtime/src/iree-amd-aie/aie_runtime/iree_aie_router.cc:919-931 | Counterexample: a source in both maps that shares its prior destinations with another id; however often it is listed, packets of the other id also leave on the new destination. |
| `PacketSwitch.RunOnPacketFlow` | compiler/plugins/target/AMD-AIE/aie/AMDAIECreatePathFindFlows.cpp:401-522 | The two compilers run one after the other on the same flows configure a switch that, when no slave takes the failing branch and ids that cannot be told apart agree, delivers every packet to exactly the ports on which either map wants it, on every port whose flows the rules can tell. Prior slaves and prior flows come first in both; it gives up only if some source has no destination or the placement of some tile fails. |
| `HeapOrder.ChildOf` | runtime/src/iree-amd-aie/aie_runtime/d_ary_heap.h:208-215 | The positions whose parent is i are exactly the arity positions from its first child on. |
| `HeapOrder.TopIsLeast` | runtime/src/iree-amd-aie/aie_runtime/d_ary_heap.h:134-144 | The first element of an ordered heap of any arity is a least one. |
| `HeapOrder.LoweredKey` | runtime/src/iree-amd-aie/aie_runtime/d_ary_heap.h:164-168 | Lowering one key leaves the heap ordered but at that element. |
| `HeapOrder.LoweredWithoutUpdate` | runtime/src/iree-amd-aie/aie_runtime/iree_aie_router.cc:477-480 | A key lowered without an update leaves the heap ordered if and only if the element is still not less than its parent. |
| `HeapOrder.SiftUpOrders` | runtime/src/iree-amd-aie/aie_runtime/d_ary_heap.h:251-295 | Moving an element up conserves the elements and restores the order from a heap that is ordered but at that element. |
| `HeapOrder.SiftDownOrders` | runtime/src/iree-amd-aie/aie_runtime/d_ary_heap.h:299-357 | Moving an element down conserves the elements and restores the order from a heap that is ordered but below that element. |
| `HeapOrder.SmallestIsLeastChild` | runtime/src/iree-amd-aie/aie_runtime/d_ary_heap.h:311-343 | The smallest child found is not greater than any element whose parent is the given one, for full and for partly filled levels. |
| `HeapOrder.SmallestIsFirst` | runtime/src/iree-amd-aie/aie_runtime/d_ary_heap.h:315-343 | Of several least children it is the first. |
| `HeapOrder.StaysBelow` | runtime/src/iree-amd-aie/aie_runtime/d_ary_heap.h:251-280 | An element that is not less than its parent is not moved, equal keys included. |
| `HeapOrder.PushOrders` | runtime/src/iree-amd-aie/aie_runtime/d_ary_heap.h:125-132 | Push adds exactly the element and keeps the order. |
| `HeapOrder.PopOrders` | runtime/src/iree-amd-aie/aie_runtime/d_ary_heap.h:146-162 | Pop removes exactly the first element and keeps the order. |
| `HeapOrder.UpdateOrders` | runtime/src/iree-amd-aie/aie_runtime/d_ary_heap.h:164-173 | After one key was lowered, moving its element up gives a heap ordered by the new keys. |
| `Heap.RiseOne` | runtime/src/iree-amd-aie/aie_runtime/d_ary_heap.h:263-280 | Counting one more level is one more swap of the simple sift up. |
| `Heap.LevelsToMove` | runtime/src/iree-amd-aie/aie_runtime/d_ary_heap.h:258-280 | The first loop counts exactly the levels by which the simple sift up moves the element. |
| `Heap.SmallestChild` | runtime/src/iree-amd-aie/aie_runtime/d_ary_heap.h:315-343 | Both loops find the first smallest child. |
| `Heap.DAryHeap.Push` | runtime/src/iree-amd-aie/aie_runtime/d_ary_heap.h:125-132 | The element is added, the index map stays the exact inverse of the array, and an ordered heap stays ordered. |
| `Heap.DAryHeap.Top` | runtime/src/iree-amd-aie/aie_runtime/d_ary_heap.h:134-144 | The first element; a least one when the heap is ordered. |
| `Heap.DAryHeap.Pop` | runtime/src/iree-amd-aie/aie_runtime/d_ary_heap.h:146-162 | The first element is removed and nothing else, the index map stays the exact inverse, and an ordered heap stays ordered. |
| `Heap.DAryHeap.Update` | runtime/src/iree-amd-aie/aie_runtime/d_ary_heap.h:168-173 | From a heap that is ordered but at the given element it restores the order; the elements are conserved in any case. |
| `Heap.DAryHeap.Contains` | runtime/src/iree-amd-aie/aie_runtime/d_ary_heap.h:175-179 | The stored index tells whether the value is in the heap. |
| `Heap.DAryHeap.PushOrUpdate` | runtime/src/iree-amd-aie/aie_runtime/d_ary_heap.h:181-192 | Adds an absent value and updates a present one, with the guarantees of both. |
| `Heap.DAryHeap.SwapHeapElements` | runtime/src/iree-amd-aie/aie_runtime/d_ary_heap.h:218-227 | Two elements change places and the index map follows. |
| `Heap.DAryHeap.PreserveHeapPropertyUp` | runtime/src/iree-amd-aie/aie_runtime/d_ary_heap.h:251-295 | Counting first and then moving the parents down into the hole has the result of the simple sift up by swaps. |
| `Heap.DAryHeap.PreserveHeapPropertyDown` | runtime/src/iree-amd-aie/aie_runtime/d_ary_heap.h:299-357 | The loop of swaps with the smallest child is the specified sift down. |
| `PortOrder.AscendingIsUnique` | runtime/src/iree-amd-aie/aie_runtime/iree_aie_router.cc:454 | A set of ports has only one ascending listing, so the sorted neighbour list does not depend on the order of discovery. |
| `PortOrder.PortsInOrder` | runtime/src/iree-amd-aie/aie_runtime/iree_aie_router.h:94-107 | Ports are ordered by column, row, the numbers of their bundles, channel, and incoming before outgoing. |
| `PortOrder.SortPorts` | runtime/src/iree-amd-aie/aie_runtime/iree_aie_router.cc:454 | The sorted list has exactly the given ports. |
| `SwitchFabric.NextIsNeighbour` | runtime/src/iree-amd-aie/aie_runtime/iree_aie_router.cc:425-455 | The neighbours are, without a look at the table of directions: a port of the same switchbox that a free channel connects, and the port at the other end of the link when some channel between the two switchboxes ends there. |
| `SwitchFabric.ListNeighbours` | runtime/src/iree-amd-aie/aie_runtime/iree_aie_router.cc:425-455 | The list has exactly these neighbours, in ascending order. |
| `SwitchFabric.PathIs` | runtime/src/iree-amd-aie/aie_runtime/iree_aie_router.cc:425-455 | A path goes from neighbour to neighbour. |
| `SwitchFabric.NextHasChannel` | runtime/src/iree-amd-aie/aie_runtime/iree_aie_router.cc:458-467 | Every neighbour is the end of a channel of the graph, so the searches for the ports cannot fail, and no connection enters a source. |
| `SwitchFabric.SameNext` | runtime/src/iree-amd-aie/aie_runtime/iree_aie_router.cc:425-455 | The neighbours depend on which channels are available only, not on their use. |
| `PathSearch.RelaxNeighbour` | runtime/src/iree-amd-aie/aie_runtime/iree_aie_router.cc:457-481 | The look at one neighbour, with the shared distance map, the colors and the heap, is the specified visit. |
| `PathSearch.FourChildren` | runtime/src/iree-amd-aie/aie_runtime/iree_aie_router.cc:411-417 | In the queue of the search the parent of j is i exactly for the four places from 4i + 1 on. |
| `ShortestPaths.VisitCases` | runtime/src/iree-amd-aie/aie_runtime/iree_aie_router.cc:468-480 | A visit discovers a white node, lowers a queued one, passes over a black one or does nothing; a white node is always relaxed. |
| `ShortestPaths.VisitKeeps` | runtime/src/iree-amd-aie/aie_runtime/iree_aie_router.cc:457-481 | The invariant of the search holds after every look at a neighbour. |
| `ShortestPaths.PopKeeps` | runtime/src/iree-amd-aie/aie_runtime/iree_aie_router.cc:421-423 | It holds after every pop, which takes a node that was not popped before. |
| `ShortestPaths.TurnKeeps` | runtime/src/iree-amd-aie/aie_runtime/iree_aie_router.cc:421-483 | It holds after every turn of the outer loop, with one more node popped. |
| `ShortestPaths.RunKeeps` | runtime/src/iree-amd-aie/aie_runtime/iree_aie_router.cc:403-486 | It holds in every state of every run, whether or not the queue is ordered. |
| `ShortestPaths.SearchEnds` | runtime/src/iree-amd-aie/aie_runtime/iree_aie_router.cc:421 | The search ends after at most one turn for every node. |
| `ShortestTrees.PredsAreReachable` | runtime/src/iree-amd-aie/aie_runtime/iree_aie_router.cc:403-486 | The predecessor map holds exactly the nodes that can be reached from the source by at least one connection. |
| `ShortestTrees.PredsAreNeighbours` | runtime/src/iree-amd-aie/aie_runtime/iree_aie_router.cc:403-486 | The predecessor of a node is the source or a node with a predecessor, and is its neighbour; every neighbour of the source or of a node with a predecessor has one. |
| `ShortestTrees.PredsAreTree` | runtime/src/iree-amd-aie/aie_runtime/iree_aie_router.cc:403-486 | Predecessors form a tree: each is popped strictly earlier, is connected to the node, and the distance is the cost of the chain of predecessors, which is a path from the source. |
| `ShortestTrees.ShortestUnlessMissed` | runtime/src/iree-amd-aie/aie_runtime/iree_aie_router.cc:477-483 | All distances are shortest-path costs if and only if no relaxation of a black node was passed over. |
| `ShortestTrees.LeastPopsFindShortest` | runtime/src/iree-amd-aie/aie_runtime/iree_aie_router.cc:421-483 | In every run in which each popped node is a least queued one, all distances are shortest. |
| `ShortestTrees.HeapPopsLeast` | runtime/src/iree-amd-aie/aie_runtime/iree_aie_router.cc:421-483 | As long as the distance of no queued node is lowered, the queue is a heap and only least nodes are popped. |
| `ShortestTrees.SameDemandFindsShortest` | runtime/src/iree-amd-aie/aie_runtime/iree_aie_router.cc:421-483 | When all demands are equal, as at the first flow, all distances are shortest. |
| `ShortestTrees.NeverNearerFindsShortest` | runtime/src/iree-amd-aie/aie_runtime/iree_aie_router.cc:421-483 | When no queued node ever gets nearer, all distances are shortest. |
| `StaleQueue.NotAlwaysShortest` | runtime/src/iree-amd-aie/aie_runtime/iree_aie_router.cc:477-480 | Counterexample with demands that are those computed from the histories: a distance lowered without an update of the queue makes the search find cost 4 where a path costs 3. |
| `Router.Router.Neighbours` | runtime/src/iree-amd-aie/aie_runtime/iree_aie_router.cc:426-455 | The list comes from the cache or is entered into it, and has exactly the neighbours in the current graph, in ascending order. |
| `Router.Router.DijkstraShortestPaths` | runtime/src/iree-amd-aie/aie_runtime/iree_aie_router.cc:403-486 | The predecessors are those of the specified search: each is a neighbour on the way, and with the source or a node all of its neighbours are in the map; every cached list still equals the recomputed one. |
| `Router.WhenCacheAgrees` | runtime/src/iree-amd-aie/aie_runtime/iree_aie_router.cc:312-333 | After fixed circuits were added the cache still agrees with the graph if and only if no cached port starts one of them. |
| `Flows.AddedRequests` | runtime/src/iree-amd-aie/aie_runtime/iree_aie_router.cc:266-308 | Sources stay different, and the requests are those of before and the new one; `AddedIs` has the groups. |
| `Flows.WhenGroupIsShared` | runtime/src/iree-amd-aie/aie_runtime/iree_aie_router.cc:276-301 | A new packet flow shares a packet group with all flows with its destination if and only if these are all in the packet group of the last one and no later flow has a larger group. |
| `Flows.WhenTakenForCircuit` | runtime/src/iree-amd-aie/aie_runtime/iree_aie_router.cc:276-301 | A new packet flow gets group -1, that of the circuits, if and only if the last flow with its destination is a circuit and no packet flow was added since. |
| `Flows.NewGroupIsFresh` | runtime/src/iree-amd-aie/aie_runtime/iree_aie_router.cc:298-300 | Without a common destination the group is a new one. |
| `Flows.OverlapWithoutSharing` | runtime/src/iree-amd-aie/aie_runtime/iree_aie_router.cc:276-301 | Counterexample to 'any overlap leads to the same group ID': a flow to a destination of group 0 gets group 1. |
| `Flows.GroupFlows` | runtime/src/iree-amd-aie/aie_runtime/iree_aie_router.cc:508-512 | The map holds for every group its flows in their order. |
| `Flows.OfGroupOrder` | runtime/src/iree-amd-aie/aie_runtime/iree_aie_router.cc:508-512 | The flows of a group are listed in the order in which they were added. |
| `Flows.AddedIs` | runtime/src/iree-amd-aie/aie_runtime/iree_aie_router.cc:266-308 | What an added flow changes, told without the search for its group. |
| `Flows.NewGroupIs` | runtime/src/iree-amd-aie/aie_runtime/iree_aie_router.cc:276-301 | A packet flow to a destination that no flow has gets group 0 or one more than the largest group; otherwise the largest among the groups of the last flow with the destination and of those after it. |
| `Flows.GroupOfNewIsUnique` | runtime/src/iree-amd-aie/aie_runtime/iree_aie_router.cc:276-301 | Only one group fits this. |
| `Router.Router.AddFlow` | runtime/src/iree-amd-aie/aie_runtime/iree_aie_router.cc:266-308 | A flow of the same source gets one more destination and all groups stay; otherwise a new flow is added, with group -1 for a circuit and for a packet flow the group of `NewGroupIs`; no other flow changes, and the requests are those of before and the new one. |
| `Router.Router.GroupForDestination` | runtime/src/iree-amd-aie/aie_runtime/iree_aie_router.cc:280-301 | The nested loops compute the specified group. |
| `FixedConnections.WhenAllCanBeTaken` | runtime/src/iree-amd-aie/aie_runtime/iree_aie_router.cc:316-332 | Fixed circuits are accepted if and only if all are available and none is asked for twice. |
| `FixedConnections.TakenExactly` | runtime/src/iree-amd-aie/aie_runtime/iree_aie_router.cc:316-332 | Exactly the accepted connections become unavailable and nothing else changes. |
| `FixedConnections.TakeChangesNext` | runtime/src/iree-amd-aie/aie_runtime/iree_aie_router.cc:320-323 | Taking a channel changes the neighbours of exactly the ports it starts at. |
| `FixedConnections.CanTakeIsFree` | runtime/src/iree-amd-aie/aie_runtime/iree_aie_router.cc:316-332 | Acceptance, channel by channel: every connection of the tile exists and is free, and no two are the same. |
| `FixedConnections.TakenAll` | runtime/src/iree-amd-aie/aie_runtime/iree_aie_router.cc:316-332 | Then exactly these channels of the tile are no longer available, and nothing else has changed. |
| `Router.Router.AddFixedCircuitConnection` | runtime/src/iree-amd-aie/aie_runtime/iree_aie_router.cc:312-333 | It succeeds if and only if all connections are free and different, and then exactly they are taken; otherwise exactly those before the first that is not free. |
| `FixedConnections.FixedChannelsCount` | runtime/src/iree-amd-aie/aie_runtime/iree_aie_router.cc:352-399 | The channels counted are exactly the connection and, inside a switchbox, the link from the port wired to its source and the link to the port wired to its destination, where these lead to tiles of the array. |
| `FixedConnections.CountedFor` | runtime/src/iree-amd-aie/aie_runtime/iree_aie_router.cc:352-399 | Counting adds one to exactly these channels. |
| `Router.Router.AddFixedPacketConnection` | runtime/src/iree-amd-aie/aie_runtime/iree_aie_router.cc:339-401 | It succeeds if and only if the connection and the links of `FixedChannelsCount` exist; then exactly their counts are greater by one, and otherwise no other count has changed. |
| `Capacity.BumpRaises` | runtime/src/iree-amd-aie/aie_runtime/iree_aie_router.cc:109-113 | A channel in use becomes half as dear again with every bump, and one that is not in use stays as it is. |
| `Capacity.ChargeRaises` | runtime/src/iree-amd-aie/aie_runtime/iree_aie_router.cc:583-604 | A charge makes the channel half as dear again if it is then in use, and leaves all other demands. |
| `Capacity.DemandIs` | runtime/src/iree-amd-aie/aie_runtime/iree_aie_router.cc:96-105 | Every round over capacity and every use in the last round make a channel dearer by a tenth of the base. |
| `Capacity.DemandStaysAtLeastOne` | runtime/src/iree-amd-aie/aie_runtime/iree_aie_router.cc:96-113 | Demands are at least 1 after every update and never fall when bumped. |
| `Capacity.DemandGrows` | runtime/src/iree-amd-aie/aie_runtime/iree_aie_router.cc:96-105 | An unused channel without history costs 1; more use or a longer history never make it cheaper, and a longer history makes it dearer. |
| `Capacity.ClaimsRowAndColumn` | runtime/src/iree-amd-aie/aie_runtime/iree_aie_router.cc:583-592 | A channel shared by packet flows claims its row and column: in them only flows of its group can share, and flows of other groups count like circuits. |
| `Capacity.ChargesOthers` | runtime/src/iree-amd-aie/aie_runtime/iree_aie_router.cc:583-604 | Of the other channels only those of the same switchbox with the same source port or destination port change: a shared channel makes their group its own. |
| `Capacity.ChargeWithin` | runtime/src/iree-amd-aie/aie_runtime/iree_aie_router.cc:583-604 | Every charge, on whichever branch, keeps the account of the channel. |
| `Capacity.CloseBetween` | runtime/src/iree-amd-aie/aie_runtime/iree_aie_router.cc:617-628 | After a group is closed, a channel within its capacity has a legal use, or one packet flow beside 32 or more fixed ones. |
| `Capacity.FirstGroupIsExact` | runtime/src/iree-amd-aie/aie_runtime/iree_aie_router.cc:583-628 | For one channel and the first group the account is exact: it is within its capacity if and only if it carries nothing, one circuit beside no fixed packet flow, or packet flows that with the fixed ones are at most 32, or one packet flow beside 32 or more fixed ones. |
| `FlowCharges.FirstGroupRouted` | runtime/src/iree-amd-aie/aie_runtime/iree_aie_router.cc:550-628 | The same for the whole graph and the flows of the first group, with all their charges and claims of rows and columns: the accounts of all channels are exact when it has been closed. |
| `Capacity.OneTooMany` | runtime/src/iree-amd-aie/aie_runtime/iree_aie_router.cc:593-598 | Counterexample to the cap of 32: one packet flow beside 40 fixed ones leaves the channel within its capacity. |
| `Capacity.LaterGroupsDoNotFit` | runtime/src/iree-amd-aie/aie_runtime/iree_aie_router.cc:617-628 | A packet flow of a later group never fits into a channel with fixed packet flows. |
| `FlowCharges.FixedGroupRouted` | runtime/src/iree-amd-aie/aie_runtime/iree_aie_router.cc:550-628 | After every group, channels with fixed packet flows that are within their capacity are used by flows of the first group only. |
| `FlowCharges.ChargedOnce` | runtime/src/iree-amd-aie/aie_runtime/iree_aie_router.cc:571-612 | A flow charges every channel of its route exactly once and no other channel. |
| `FlowCharges.DemandCharged` | runtime/src/iree-amd-aie/aie_runtime/iree_aie_router.cc:571-612 | Charging the route of a flow makes every channel of it that is then in use half as dear again, and leaves the demand and the use of all others. |
| `FlowCharges.CircuitRaises` | runtime/src/iree-amd-aie/aie_runtime/iree_aie_router.cc:571-612 | After a circuit every channel of its route is strictly dearer, and all other demands stay. |
| `FlowCharges.CloseRaises` | runtime/src/iree-amd-aie/aie_runtime/iree_aie_router.cc:617-628 | Closing a group turns counted packets into one use and makes every channel in use half as dear again. |
| `FlowCharges.GroupRouted` | runtime/src/iree-amd-aie/aie_runtime/iree_aie_router.cc:550-628 | After all flows of a group, and the closing of the group, the accounts hold for the flows routed so far. |
| `TraceBack.WalkAddsChain` | runtime/src/iree-amd-aie/aie_runtime/iree_aie_router.cc:569-612 | The walk back from a destination ends, and processes exactly the nodes of its tree path that were not processed, each once. |
| `TraceBack.TracedIsOnPaths` | runtime/src/iree-amd-aie/aie_runtime/iree_aie_router.cc:561-613 | For all destinations together exactly the nodes on their tree paths are processed, each once. |
| `FlowSettings.SettingsRecordPaths` | runtime/src/iree-amd-aie/aie_runtime/iree_aie_router.cc:564-609 | The settings have exactly the connections inside switchboxes on the tree paths, and equally many incoming and outgoing ports on every tile. |
| `FlowSettings.SettingsDriveOnce` | runtime/src/iree-amd-aie/aie_runtime/iree_aie_router.cc:605-609 | No outgoing port is set twice by one flow. |
| `Router.Router.Charge` | runtime/src/iree-amd-aie/aie_runtime/iree_aie_router.cc:583-604 | The branch, the marking of row and column, the count with its limit of 32 and the bump change the graph as specified; `ChargeRaises` and `ChargesOthers` have the changes. |
| `Router.Router.WalkBack` | runtime/src/iree-amd-aie/aie_runtime/iree_aie_router.cc:569-612 | The loop charges, records and processes the nodes of the walk. |
| `Router.Router.RouteFlow` | runtime/src/iree-amd-aie/aie_runtime/iree_aie_router.cc:551-615 | One flow: its tree comes from the search on the current demands, all its destinations are traced, charged and recorded, and the demands rise on exactly its route. |
| `Rounds.OneMoreTurn` | runtime/src/iree-amd-aie/aie_runtime/iree_aie_router.cc:551-615 | Every flow is routed on the tree that the search finds with the demands that the flows before it have left. |
| `Router.Router.RouteGroup` | runtime/src/iree-amd-aie/aie_runtime/iree_aie_router.cc:550-628 | The flows of one group in their order, each on the demands that the flows before it left: all are solved, and after closing the accounts of all channels hold, exactly for the first group. |
| `Rounds.GroupInOrder` | runtime/src/iree-amd-aie/aie_runtime/iree_aie_router.cc:508-512 | A group larger than those before keeps the order: groups ascending, and in a group the flows as they were added. |
| `Router.Router.RouteAllGroups` | runtime/src/iree-amd-aie/aie_runtime/iree_aie_router.cc:550-629 | All groups, in ascending order, and the flows of a group as they were added: every flow is solved once, on the demands that those before it left; the accounts hold, and they are exact when there is one group only. |
| `Router.Router.CheckCapacity` | runtime/src/iree-amd-aie/aie_runtime/iree_aie_router.cc:631-647 | Counts the channels over capacity and enters each into its history. |
| `Rounds.FirstStart` | runtime/src/iree-amd-aie/aie_runtime/iree_aie_router.cc:498-532 | In the first round all demands are 1 at the start. |
| `Router.Router.FindPaths` | runtime/src/iree-amd-aie/aie_runtime/iree_aie_router.cc:494-672 | Every round begins with demands computed from the failed rounds in which the channel was over capacity and from its use in the round before, and routes all flows in order, each on the demands that those before it left; it fails if and only if some channel is over its capacity of 1. A solution has every flow exactly once, solved, and uses every channel legally or by one packet flow beside 32 or more fixed ones, and channels with fixed packet flows only for the least group; the connections, the fixed packet flows and the agreement of the cache are kept; in each round that failed all flows were solved, and when all flows are of one group the channels over capacity are exactly those used in another way; it gives up after maxIterations failed rounds. |
| `ParallelLinks.SecondTakesOther` | runtime/src/iree-amd-aie/aie_runtime/iree_aie_router.cc:551-615 | Two circuits between two switchboxes with two links: after the first, the second takes the other link. |
| `ParallelLinks.RouteInParallel` | runtime/src/iree-amd-aie/aie_runtime/iree_aie_router.cc:494-672 | So the router, given both requests and at least one round, always returns a solution. |
| `Router.SingleFlowFits` | runtime/src/iree-amd-aie/aie_runtime/iree_aie_router.cc:494-672 | A single packet flow, with any number of destinations, is routed in the first round, however many packet flows are fixed; so is a single circuit where none are fixed. |
| `Solutions.NothingOverlooked` | runtime/src/iree-amd-aie/aie_runtime/iree_aie_router.cc:593-598 | Where less than 32 packet flows are fixed on every channel, all uses of a solution are legal. |
| `Solutions.SolvedReachesAll` | runtime/src/iree-amd-aie/aie_runtime/iree_aie_router.cc:556-615 | Every destination of a solved flow is reached by a path of the channel graph over channels the flow is charged for; `Delivery` has when the settings lead there. |
| `Solutions.OnPathsOnly` | runtime/src/iree-amd-aie/aie_runtime/iree_aie_router.cc:556-615 | No node is processed that is not on the tree path to a destination. |
| `Solutions.SolvedSettings` | runtime/src/iree-amd-aie/aie_runtime/iree_aie_router.cc:605-615 | The settings of a solved flow are balanced, as the later assertions need, set no port twice and are exactly the charged channels inside switchboxes. |
| `Solutions.LegalSharing` | runtime/src/iree-amd-aie/aie_runtime/iree_aie_router.cc:631-668 | In a solution two flows over one channel are packet flows of one group, at most 32 use it, and a circuit shares with no flow and no fixed packet flow. |
| `Solutions.SharedSettings` | runtime/src/iree-amd-aie/aie_runtime/iree_aie_router.cc:631-672 | Two flows that set the same connection of a switchbox are packet flows of one group. |
| `Solutions.EntersAndLeaves` | runtime/src/iree-amd-aie/aie_runtime/iree_aie_router.cc:571-611 | A flow leaves every node that it enters, unless it is one of its destinations. |
| `Solutions.SharedNode` | runtime/src/iree-amd-aie/aie_runtime/iree_aie_router.cc:631-672 | Two flows routed into one node are packet flows of one group, or they enter it and leave it over different channels; each leaves it unless it ends there. |
| `Solutions.PortOfOneGroup` | runtime/src/iree-amd-aie/aie_runtime/iree_aie_router.cc:631-672 | In every solution, for a port that is no source and that no channel leaves: all flows routed into it are packet flows of one group if and only if all flows that have it as a destination are. |
| `Solutions.MeetAtDestination` | runtime/src/iree-amd-aie/aie_runtime/iree_aie_router.cc:631-672 | Where at most one channel leaves a port, two flows that are not of one packet group are both routed into it only if it is a destination of one of them. |
| `SharedDestination.BothDriveOnePort` | runtime/src/iree-amd-aie/aie_runtime/iree_aie_router.cc:631-672 | Counterexample to 'an output port is driven by one flow': every solution of two circuits from one switchbox to one destination connects both sources to the destination port. When it does hold is `PortOfOneGroup`. |
| `SharedDestination.AlwaysLegal` | runtime/src/iree-amd-aie/aie_runtime/iree_aie_router.cc:631-672 | Every solution of these two circuits uses every channel legally. |
| `SharedDestination.RouteBoth` | runtime/src/iree-amd-aie/aie_runtime/iree_aie_router.cc:494-672 | The router, given both requests and at least one round, returns such a solution. |
| `ShortestTrees.ResultHasNoReturn` | runtime/src/iree-amd-aie/aie_runtime/iree_aie_router.cc:421-483 | With demands of at least 1, which all rounds have, no path comes back to the place of the source and goes on from there. |
| `Delivery.AlternatingIsDriven` | runtime/src/iree-amd-aie/aie_runtime/iree_aie_router.cc:765-814 | A port on a path of the flow gets the packets, by following the settings as `existsPathToDest` does, when the hops of its tree path stay in a switchbox and go over a link by turns. |
| `Delivery.DrivenIffAlternates` | runtime/src/iree-amd-aie/aie_runtime/iree_aie_router.cc:765-814 | As long as no far end of a link that the flow drives is entered from elsewhere, these are exactly the ports that get the packets. |
| `Delivery.DrivenIffFed` | runtime/src/iree-amd-aie/aie_runtime/iree_aie_router.cc:765-814 | Crossed or not: the settings lead to a port if and only if a walk back over the links that the flow drives ends at the source. |
| `Delivery.DestinationIsDriven` | runtime/src/iree-amd-aie/aie_runtime/iree_aie_router.cc:765-814 | A destination gets the packets when no two hops in a row on the tree path to it stay inside one switchbox; when the flow is not crossed in this way, only then. |
| `Delivery.CrossedGoesTwice` | runtime/src/iree-amd-aie/aie_runtime/iree_aie_router.cc:571-609 | A crossed flow has a path with two hops in a row inside one switchbox. |
| `Delivery.ExactDelivery` | runtime/src/iree-amd-aie/aie_runtime/iree_aie_router.cc:494-672 | For a source and destinations that are not on links: a routed flow is not crossed and delivers its packets to exactly its destinations, among all ports that are not on links, if and only if no two hops in a row on its tree paths stay inside one switchbox. |
| `Delivery.KeptForDestination` | compiler/plugins/target/AMD-AIE/aie/AMDAIECreatePathFindFlows.cpp:349-361 | Then the connections that the caller keeps for a destination, as no false broadcast, are exactly those on the tree path to it. |
| `InsideTwice.NotDelivered` | runtime/src/iree-amd-aie/aie_runtime/iree_aie_router.cc:425-450 | Counterexample to delivery: where the only way takes two channels of one switchbox in a row, every solution sets both, and nothing gets to the destination. |
| `InsideTwice.RouteTwice` | runtime/src/iree-amd-aie/aie_runtime/iree_aie_router.cc:494-672 | The router, given this request and at least one round, returns such settings. |
| `CrossedLinks.DeliveredByAccident` | runtime/src/iree-amd-aie/aie_runtime/iree_aie_router.cc:425-450 | Two paths that go twice inside a switchbox, over the two ends of one link, deliver each other's packets: every solution is exact and crossed. |
| `CrossedLinks.RouteCrossed` | runtime/src/iree-amd-aie/aie_runtime/iree_aie_router.cc:494-672 | The router returns such a solution. |
| `ChannelGenerator.Answered` | runtime/src/iree-amd-aie/aie_runtime/Utils/ChannelGenerator.cpp:25-65 | What each mode is answered: none exactly when no channel qualifies; a circuit channel is unused, a packet channel is not a circuit channel, and round robin takes the first of the packet channels only when all channels are taken. |
| `ChannelGenerator.ListedByUse` | runtime/src/iree-amd-aie/aie_runtime/Utils/ChannelGenerator.cpp:38-127 | In every run the packet channels are listed in the order of their last use, after each request, if and only if no request FirstAvailablePacketFlow is answered with a packet channel that is not the last one. |
| `ChannelGenerator.RoundRobinIsLeastUsed` | runtime/src/iree-amd-aie/aie_runtime/Utils/ChannelGenerator.cpp:45-57 | As long as they are, a channel that round robin uses again is a least recently used one. |
| `ChannelGenerator.ListedByUseIffLeastUsed` | runtime/src/iree-amd-aie/aie_runtime/Utils/ChannelGenerator.cpp:45-57 | When all channels are taken they are listed in this order if and only if each of the next round-robin requests, one for every packet channel, would use a least recently used channel. |
| `ChannelGenerator.LeastUsedUnlessSkipped` | runtime/src/iree-amd-aie/aie_runtime/Utils/ChannelGenerator.cpp:38-127 | In every run: round robin uses a least recently used channel whenever it uses one again, after each request and for any number of further round-robin requests, if and only if no request FirstAvailablePacketFlow is answered with a packet channel that is not the last one. |
| `ChannelGenerator.NotAlwaysLeastUsed` | runtime/src/iree-amd-aie/aie_runtime/Utils/ChannelGenerator.cpp:38-57 | Counterexample otherwise: after FirstAvailablePacketFlow has used the first of two channels again, round robin answers it once more. |
| `ChannelGenerator.GetAndAssignKeeps` | runtime/src/iree-amd-aie/aie_runtime/Utils/ChannelGenerator.cpp:25-127 | Circuit and packet channels stay disjoint and within range, and exactly the answered channel is added to its kind. |
| `ChannelGenerator.CircuitNeverAgain` | runtime/src/iree-amd-aie/aie_runtime/Utils/ChannelGenerator.cpp:25-127 | In every run a channel given to a circuit flow is never given out again. |
| `ChannelGenerator.CircuitNeverBefore` | runtime/src/iree-amd-aie/aie_runtime/Utils/ChannelGenerator.cpp:25-127 | In every run a channel given to a circuit flow had not been given out before. |
| `ChannelGenerator.RoundRobinIsFair` | runtime/src/iree-amd-aie/aie_runtime/Utils/ChannelGenerator.cpp:45-58 | Once all channels are taken, round-robin request k is answered packet channel k modulo their number, so each is returned exactly once in a row of that many requests. |
| `ChannelGenerator.ChannelGenerator.FindFirstAvailableChannel` | runtime/src/iree-amd-aie/aie_runtime/Utils/ChannelGenerator.cpp:11-23 | The first channel that is in none of the sets, or none if there is none. |
| `ChannelGenerator.ChannelGenerator.GetAndAssignProducerDMAChannel` | runtime/src/iree-amd-aie/aie_runtime/Utils/ChannelGenerator.cpp:25-65 | The producer side makes the specified step and the consumer side does not change. |
| `ChannelGenerator.ChannelGenerator.GetAndAssignConsumerDMAChannel` | runtime/src/iree-amd-aie/aie_runtime/Utils/ChannelGenerator.cpp:67-107 | The consumer side makes the specified step and the producer side does not change. |
| `ChannelGenerator.ChannelGenerator.AssignProducerDMAChannel` | runtime/src/iree-amd-aie/aie_runtime/Utils/ChannelGenerator.cpp:109-127 | A new channel is appended to those of its kind; round robin puts the channel at the end of the packet channels and leaves the order of the others; the other kind and the other side do not change. |
| `ChannelGenerator.ChannelGenerator.AssignConsumerDMAChannel` | runtime/src/iree-amd-aie/aie_runtime/Utils/ChannelGenerator.cpp:129-147 | A new channel is appended to those of its kind; round robin puts the channel at the end of the packet channels and leaves the order of the others; the other kind and the other side do not change. |
| `BdIdGenerator.PickFindsFree` | runtime/src/iree-amd-aie/aie_runtime/Utils/ChannelBdIdGenerator.cpp:11-47 | In both modes an id is found if and only if one is available, and it is a free one of the channel. |
| `BdIdGenerator.CountsEntries` | runtime/src/iree-amd-aie/aie_runtime/Utils/ChannelBdIdGenerator.h:53-64 | The counting loop gives the number of places of the list whose ids are free. |
| `BdIdGenerator.PickIsLeast` | runtime/src/iree-amd-aie/aie_runtime/Utils/ChannelBdIdGenerator.cpp:18-40 | On a list in order the answer is the smallest free id or, for Incremental, the smallest one above the last used if there is one. |
| `BdIdGenerator.LeastNeedsOrder` | runtime/src/iree-amd-aie/aie_runtime/Utils/ChannelBdIdGenerator.cpp:18-40 | For every list and both modes: the answers are these whatever is assigned and was last used, if and only if no id is listed before a smaller one that was not listed even earlier. |
| `BdIdGenerator.InOrderIsAscending` | runtime/src/iree-amd-aie/aie_runtime/Utils/ChannelBdIdGenerator.cpp:18-40 | For a list without duplicates this is that it is ascending. |
| `BdIdGenerator.IncrementalGoesRound` | runtime/src/iree-amd-aie/aie_runtime/Utils/ChannelBdIdGenerator.cpp:26-40 | On an ascending list of free ids, with request and release as steps of the run: incremental request k is answered entry k modulo the length, and what is assigned does not change. |
| `BdIdGenerator.SmallestNeedsOrder` | runtime/src/iree-amd-aie/aie_runtime/Utils/ChannelBdIdGenerator.cpp:18-25 | Counterexample to the name of the mode: on the list 5, 3 Smallest answers 5. |
| `BdIdGenerator.ChannelBdIdGenerator.GetAndAssignBdId` | runtime/src/iree-amd-aie/aie_runtime/Utils/ChannelBdIdGenerator.cpp:11-47 | The id returned belongs to the channel, was free and is now assigned and the last used one; without an id nothing changes. |
| `BdIdGenerator.ChannelBdIdGenerator.GetNumAvailableBdIds` | runtime/src/iree-amd-aie/aie_runtime/Utils/ChannelBdIdGenerator.h:53-64 | The number of places in the list of the channel whose ids are free; 0 if and only if all of them are assigned, or the channel is not known. |
| `BdIdGenerator.ChannelBdIdGenerator.AssignBdId` | runtime/src/iree-amd-aie/aie_runtime/Utils/ChannelBdIdGenerator.h:36-39 | The id is assigned and the last used one. |
| `BdIdGenerator.ChannelBdIdGenerator.ReleaseBdId` | runtime/src/iree-amd-aie/aie_runtime/Utils/ChannelBdIdGenerator.h:49-51 | The id is free again, and the last used id stays. |
| `Headers.SetOddParityBit` | runtime/src/iree-amd-aie/aie_runtime/iree_aie_runtime.cc:308-319 | The lower 31 bits stay and the number of ones becomes odd. |
| `Headers.OddParityIsUnique` | runtime/src/iree-amd-aie/aie_runtime/iree_aie_runtime.cc:308-319 | There is exactly one such word. |
| `Headers.GetPacketHeader` | runtime/src/iree-amd-aie/aie_runtime/iree_aie_runtime.cc:321-344 | Exactly the inputs out of range are refused; otherwise the word has the OR of the shifted fields in its lower 31 bits and odd parity, and when the limits fit the fields these stand side by side. |
| `Headers.PacketRoundTrip` | runtime/src/iree-amd-aie/aie_runtime/iree_aie_runtime.h:419-438 | Decoding a packet header by its documented fields gives back all inputs, reserved bits are 0, and the number of ones is odd. |
| `Headers.ControlBounds` | runtime/src/iree-amd-aie/aie_runtime/iree_aie_runtime.cc:375-390 | The bounds are the largest address, length and opcode that fit into the fields. |
| `Headers.GetControlHeader` | runtime/src/iree-amd-aie/aie_runtime/iree_aie_runtime.cc:346-373 | Exactly the inputs out of range are refused, a length of 0 among them; otherwise the word has the OR of the shifted fields, the length less one, in its lower 31 bits and odd parity, and when the limits fit the fields these stand side by side. |
| `Headers.ControlRoundTrip` | runtime/src/iree-amd-aie/aie_runtime/iree_aie_runtime.h:440-455 | Decoding a control header by its documented fields gives back all inputs, reserved bits are 0, and the number of ones is odd. |

## Left out

- FirstMatchMeaning: after a rule has been narrowed, an id that it lost may by chance be caught by a later rule with the same destinations; `MeaningInGeneral` covers this, but in terms of the emitted rules.
- ShortestUnlessMissed: whether a relaxation will be passed over is only known from the run; conditions known before it are given for equal demands.
- FindPaths: destinations are assumed to be reachable, as the code assumes when it follows the predecessors; when a solution is found is stated for a single flow only (`SingleFlowFits`), because with several it depends on the history of the demands.
- CloseBetween: that a channel is within its capacity implies the use stated, but for later groups not the reverse, because a row or column claimed by another group makes packet flows count like circuits.
- ExistsPathToDest: has a bound on the number of links, as the code does not end on settings that lead around in a circle, and answers no for a link that leads out of the array, where a build with assertions stops.
- `Router::initialize` and `emitConnections`: look-ups in device tables; the model starts from any well-formed graph.
- The total path length of `findPaths`, which is computed for debug output only.
- The drop-header flag and the device writes of `configureSwitchPacketMasters`, and the number of packet-rule slots of a switchbox.
- Floating-point rounding of demands and distances.
- HAL drivers, aie-rt calls, CDO generation, ELF loading and device tables.
- `LockIdGenerator`: a single search for a free id.
- Stringification, debug output, tracing, Python tests and build scripts.
