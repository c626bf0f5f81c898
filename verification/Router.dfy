/** The router: flows, fixed connections, shortest paths and the congestion-aware search for routes. */
module Router {
  import opened StreamSwitch
  import opened PortOrder
  import opened SwitchFabric
  import opened Heap
  import opened ShortestPaths
  import opened ShortestTrees
  import opened PathSearch
  import opened TraceBack
  import opened Flows
  import opened FlowSettings
  import opened Capacity
  import opened FlowCharges
  import opened Solutions
  import opened FixedConnections
  import opened Rounds

  /** Every cached list is the neighbour list recomputed from the graph. */
  ghost predicate CacheAgrees(channels: map<PhysPort, seq<PhysPort>>, g: Fabric) {
    forall u :: u in channels ==> channels[u] == NextList(g, u)
  }

  lemma SameCache(channels: map<PhysPort, seq<PhysPort>>, g: Fabric, h: Fabric)
    requires CacheAgrees(channels, g) && SameConnections(g, h)
    ensures CacheAgrees(channels, h)
  {
    hide Next;
    forall u | u in channels ensures channels[u] == NextList(h, u) { SameNext(g, h, u); }
  }

  class Router {
    var flows: seq<Flow>
    var graph: Fabric
    var channels: map<PhysPort, seq<PhysPort>>

    const maxCol: int
    const maxRow: int

    constructor (maxCol: int, maxRow: int, graph: Fabric)
      ensures this.graph == graph && flows == [] && channels == map[] && this.maxCol == maxCol && this.maxRow == maxRow
      ensures FlowsOk(flows) && CacheAgrees(channels, graph)
    {
      this.maxCol := maxCol;
      this.maxRow := maxRow;
      this.graph := graph;
      flows := [];
      channels := map[];
    }

    // ---------- Requests ----------

    method AddFlow(srcCoords: TileLoc, srcPort: Port, dstCoords: TileLoc, dstPort: Port, isPacketFlow: bool)
      requires FlowsOk(flows)
      modifies this`flows
      ensures FlowsOk(flows)
      ensures IsAdded(old(flows), flows, PhysPort(srcCoords, srcPort, Src), PhysPort(dstCoords, dstPort, Dst), isPacketFlow)
      ensures forall s, d :: Requests(flows, s, d) <==>
                Requests(old(flows), s, d) || (s == PhysPort(srcCoords, srcPort, Src) && d == PhysPort(dstCoords, dstPort, Dst))
    {
      AddedRequests(flows, srcCoords, srcPort, dstCoords, dstPort, isPacketFlow);
      AddedIs(flows, srcCoords, srcPort, dstCoords, dstPort, isPacketFlow);
      hide FlowsOk, Requests, NewGroup, IsAdded;
      var dstPhysPort := PhysPort(dstCoords, dstPort, Dst);
      for i := 0 to |flows|
        invariant flows == old(flows)
        invariant FindSource(flows, srcCoords, srcPort, 0) == FindSource(flows, srcCoords, srcPort, i)
      {
        if SamePlace(flows[i].src, srcCoords, srcPort) {
          flows := flows[i := flows[i].(dsts := flows[i].dsts + [dstPhysPort])];
          return;
        }
      }
      var packetGroupId := -1;
      if isPacketFlow { packetGroupId := GroupForDestination(dstCoords, dstPort); }
      flows := flows + [Flow(packetGroupId, PhysPort(srcCoords, srcPort, Src), [dstPhysPort])];
    }

    /** The group of a new packet flow; that no flow has its source has been checked before. */
    method GroupForDestination(dstCoords: TileLoc, dstPort: Port) returns (packetGroupId: int)
      ensures packetGroupId == NewGroup(flows, dstCoords, dstPort)
    {
      var found := false;
      packetGroupId := -1;
      for n := 0 to |flows|
        invariant packetGroupId == Candidate(flows, dstCoords, dstPort, n)
        invariant found <==> Overlaps(flows, dstCoords, dstPort, n)
      {
        var existingId, dsts := flows[n].packetGroupId, flows[n].dsts;
        var k := 0;
        while k < |dsts| && !SamePlace(dsts[k], dstCoords, dstPort)
          invariant k <= |dsts| && forall i :: 0 <= i < k ==> !SamePlace(dsts[i], dstCoords, dstPort)
        {
          k := k + 1;
        }
        if k < |dsts| {
          packetGroupId := existingId;
          found := true;
        }
        packetGroupId := Max(packetGroupId, existingId);
      }
      if !found { packetGroupId := packetGroupId + 1; }
    }

    /** Takes the connections of fixed circuits, up to the first that is not free. */
    method AddFixedCircuitConnection(col: int, row: int, connects: seq<(Port, Port)>) returns (ok: bool)
      modifies this`graph
      ensures ok <==> AllFree(old(graph), TileLoc(col, row), connects)
      ensures ok ==> TakenFrom(old(graph), graph, TileLoc(col, row), connects)
      ensures !ok ==> exists n :: 0 <= n < |connects| && !AllFree(old(graph), TileLoc(col, row), connects[..n + 1])
                                  && AllFree(old(graph), TileLoc(col, row), connects[..n])
                                  && TakenFrom(old(graph), graph, TileLoc(col, row), connects[..n])
      ensures graph == TakeAll(old(graph), TileLoc(col, row), connects)
    {
      hide AllFree, TakenFrom;
      var tileLoc := TileLoc(col, row);
      CanTakeIsFree(graph, tileLoc, connects);
      if AllFree(graph, tileLoc, connects) {
        TakenAll(graph, tileLoc, connects);
      } else {
        ghost var n := TakenPrefix(graph, tileLoc, connects);
      }
      for n := 0 to |connects|
        invariant CanTakeAll(old(graph), tileLoc, connects) <==> CanTakeAll(graph, tileLoc, connects[n..])
        invariant TakeAll(old(graph), tileLoc, connects) == TakeAll(graph, tileLoc, connects[n..])
      {
        var c := ChannelIn(tileLoc, connects[n]);
        assert connects[n..][0] == connects[n] && connects[n..][1..] == connects[n + 1..];
        if c in graph && graph[c].available {
          graph := graph[c := graph[c].(available := false)];
        } else {
          return false;
        }
      }
      assert connects[|connects|..] == [];
      return true;
    }

    /** Counts a packet flow that is already routed, on its connection and on the links this connection uses. */
    method AddFixedPacketConnection(src: PhysPort, dst: PhysPort) returns (ok: bool)
      modifies this`graph
      ensures ok <==> forall c :: CountsFor(src, dst, maxCol, maxRow, c) ==> c in old(graph)
      ensures graph.Keys == old(graph.Keys)
      ensures ok ==> forall c :: c in graph ==>
                graph[c] == if CountsFor(src, dst, maxCol, maxRow, c)
                            then old(graph)[c].(fixedPacketFlowCount := old(graph)[c].fixedPacketFlowCount + 1) else old(graph)[c]
      ensures !ok ==> forall c :: c in graph ==>
                graph[c] == old(graph)[c] ||
                (CountsFor(src, dst, maxCol, maxRow, c)
                 && graph[c] == old(graph)[c].(fixedPacketFlowCount := old(graph)[c].fixedPacketFlowCount + 1))
    {
      hide FixedChannels, CountsFor, CountFixed;
      CountedFor(graph, src, dst, maxCol, maxRow);
      ghost var some;
      ok, some := CountChannels(src, dst);
      CountedSome(old(graph), some, src, dst, maxCol, maxRow);
    }

    /** The loop over the directions; `some` are the channels that have been counted. */
    method CountChannels(src: PhysPort, dst: PhysPort) returns (ok: bool, ghost some: set<Channel>)
      modifies this`graph
      ensures ok <==> FixedChannels(src, dst, maxCol, maxRow) <= old(graph.Keys)
      ensures some <= FixedChannels(src, dst, maxCol, maxRow) && graph == CountFixed(old(graph), some)
      ensures ok ==> some == FixedChannels(src, dst, maxCol, maxRow)
      decreases if src.tileLoc == dst.tileLoc then 1 else 0
    {
      hide CountFixed, Links, LinksAt;
      var c := ChannelOf(src, dst);
      some := {};
      NothingCounted(graph);
      LinksWithin(src, dst, 0, maxCol, maxRow);
      if c !in graph { return false, some; }
      CountOneMore(old(graph), {}, c);
      graph := graph[c := CountedOnce(graph[c])];
      some := {c};
      assert {} + {c} == {c};
      NoLinks(src, dst, 0, maxCol, maxRow);
      if src.tileLoc == dst.tileLoc {
        for n := 0 to |DIRECTIONS|
          invariant some == {c} + Links(src, dst, n, maxCol, maxRow) && some <= old(graph.Keys)
          invariant graph == CountFixed(old(graph), some)
        {
          var d := DIRECTIONS[n];
          LinksAreNew(src, dst, n, maxCol, maxRow);
          LinksWithin(src, dst, n + 1, maxCol, maxRow);
          LinksGrow(src, dst, n, maxCol, maxRow);
          if InArray(Neighbour(src.tileLoc, d), maxCol, maxRow) {
            if src.port.bundle == d.first {
              var link := CountLink(LinkInto(src, d), old(graph), some);
              if !link { return false, some; }
              some := some + {LinkInto(src, d)};
            }
            if dst.port.bundle == d.first {
              var link := CountLink(LinkFrom(dst, d), old(graph), some);
              if !link { return false, some; }
              some := some + {LinkFrom(dst, d)};
            }
          }
        }
      } else {
        NoLinks(src, dst, |DIRECTIONS|, maxCol, maxRow);
        assert FixedChannels(src, dst, maxCol, maxRow) == {c};
      }
      return true, some;
    }

    /** `addFixedPacketConnection` between different tiles, which has nothing to propagate. */
    method CountLink(c: Channel, ghost start: Fabric, ghost counted: set<Channel>) returns (ok: bool)
      requires graph == CountFixed(start, counted) && c !in counted
      modifies this`graph
      ensures ok <==> c in start
      ensures graph == CountFixed(start, if ok then counted + {c} else counted)
    {
      if c !in graph { return false; }
      CountOneMore(start, counted, c);
      graph := graph[c := CountedOnce(graph[c])];
      return true;
    }

    // ---------- Shortest paths ----------

    /** The neighbours of `u`, from the cache or entered into it. */
    method Neighbours(u: PhysPort) returns (list: seq<PhysPort>)
      requires CacheAgrees(channels, graph)
      modifies this`channels
      ensures list == NextList(graph, u) && CacheAgrees(channels, graph)
      ensures Ascending(list) && forall v :: v in list <==> IsNeighbour(graph, u, v)
      ensures channels == if u in old(channels) then old(channels) else old(channels)[u := list]
    {
      hide NextList, IsNeighbour, Ascending;
      ListsNeighbours(graph, u);
      if u !in channels {
        list := ListNeighbours(graph, u);
        channels := channels[u := list];
      } else {
        list := channels[u];
      }
    }

    /** The search returns the predecessors of the specified search; the cache stays right. */
    method DijkstraShortestPaths(source: PhysPort) returns (preds: map<PhysPort, PhysPort>)
      requires Searchable(graph, source) && CacheAgrees(channels, graph)
      modifies this`channels
      ensures preds == Result(graph, source).preds
      ensures forall v :: v in preds ==> IsNeighbour(graph, preds[v], v) && (preds[v] == source || preds[v] in preds)
      ensures forall u, v :: (u == source || u in preds) && IsNeighbour(graph, u, v) ==> v in preds
      ensures CacheAgrees(channels, graph) && forall u :: u in old(channels) ==> u in channels && channels[u] == old(channels)[u]
    {
      hide Searchable, Inv, Turn, NextList, IsNeighbour, VisitAll, Ends, CacheAgrees, PopFirst, Run, Mirrors;
      PredsAreNeighbours(graph, source);
      preds := map[];
      var colors: map<PhysPort, Color> := map[];
      var distance, q := StartQueue(source);
      ghost var k := 0;
      RunStarts(graph, source);
      while true
        invariant fresh(distance) && fresh(q)
        invariant CacheAgrees(channels, graph) && forall u :: u in old(channels) ==> u in channels && channels[u] == old(channels)[u]
        invariant Mirrors(Run(graph, source, k), distance, q, preds, colors)
        invariant k <= |Ends(graph)| + 1
        decreases |Ends(graph)| + 1 - k
      {
        ghost var s := Run(graph, source, k);
        MirrorsQueue(s, distance, q, preds, colors);
        if q.data == [] { break; }
        RunKeeps(graph, source, k);
        StillToPop(graph, s, source);
        PopKeeps(graph, s, source);
        var src := PopNearest(distance, q, preds, colors, s);
        var list := Neighbours(src);
        preds, colors := VisitNeighbours(src, list, distance, q, preds, colors, PopFirst(s), source);
        MirrorsBlack(VisitAll(graph, PopFirst(s), src, list, |list|), distance, q, preds, colors, src);
        colors := colors[src := Black];
        TurnIs(graph, source, k, list);
        k := k + 1;
      }
      MirrorsQueue(Run(graph, source, k), distance, q, preds, colors);
      RunIsOver(graph, source, k, |Ends(graph)| + 1);
    }

    /** The look at all neighbours of the current node. */
    method VisitNeighbours(src: PhysPort, list: seq<PhysPort>, distance: DistanceMap<PhysPort>, q: DAryHeap<PhysPort>,
                           preds0: map<PhysPort, PhysPort>, colors0: map<PhysPort, Color>, ghost t: Search, ghost source: PhysPort)
        returns (preds: map<PhysPort, PhysPort>, colors: map<PhysPort, Color>)
      requires Searchable(graph, source) && Inv(graph, t, source, Some(src), {}) && list == NextList(graph, src)
      requires Mirrors(t, distance, q, preds0, colors0)
      modifies distance, q
      ensures Mirrors(VisitAll(graph, t, src, list, |list|), distance, q, preds, colors)
    {
      hide Searchable, Inv, Visit, Next, Shape, Finites, Colored, Mirrors;
      preds, colors := preds0, colors0;
      for n := 0 to |list|
        invariant Mirrors(VisitAll(graph, t, src, list, n), distance, q, preds, colors)
      {
        VisitAllKeeps(graph, t, source, src, list, n);
        assert list[n] in PortSet(list);
        InvParts(graph, VisitAll(graph, t, src, list, n), source, src, PortSet(list[..n]));
        preds, colors := RelaxNeighbour(graph, src, list[n], distance, q, preds, colors, VisitAll(graph, t, src, list, n), source);
      }
    }

    // ---------- Updates of all channels ----------

    /** Two nested loops over all matrices, with the same update of every entry. */
    method ForEachChannel(f: Cell -> Cell)
      modifies this`graph
      ensures graph.Keys == old(graph.Keys) && forall c :: c in graph ==> graph[c] == f(old(graph)[c])
    {
      var todo := graph.Keys;
      while todo != {}
        invariant todo <= graph.Keys == old(graph.Keys)
        invariant forall c :: c in graph ==> graph[c] == if c in todo then old(graph)[c] else f(old(graph)[c])
        decreases todo
      {
        var c :| c in todo;
        graph := graph[c := f(graph[c])];
        todo := todo - {c};
      }
    }

    /** Charges one channel to a flow of the group. */
    method Charge(c: Channel, group: int)
      requires c in graph
      modifies this`graph
      ensures graph == ChargeChannel(old(graph), c, group)
    {
      hide SameRowOrColumn, Bumped;
      if group >= 0 && (graph[c].packetGroupId == -1 || graph[c].packetGroupId == group) {
        MarkRowAndColumn(c, group);
        graph := graph[c := graph[c].(packetFlowCount := graph[c].packetFlowCount + 1)];
        if graph[c].packetFlowCount >= MAX_PACKET_STREAM_CAPACITY {
          graph := graph[c := graph[c].(packetFlowCount := 0, usedCapacity := graph[c].usedCapacity + 1)];
        }
      } else {
        graph := graph[c := graph[c].(usedCapacity := graph[c].usedCapacity + 1)];
      }
      graph := graph[c := Bumped(graph[c])];
    }

    /** The channels from the same source port and those to the same destination port are for this group. */
    method MarkRowAndColumn(c: Channel, group: int)
      requires c in graph
      modifies this`graph
      ensures graph.Keys == old(graph.Keys) && graph[c] == old(graph)[c].(packetGroupId := group)
      ensures forall k :: k in graph ==>
                graph[k] == if SameRowOrColumn(k, c) then old(graph)[k].(packetGroupId := group) else old(graph)[k]
    {
      var todo := graph.Keys;
      while todo != {}
        invariant todo <= graph.Keys == old(graph.Keys)
        invariant forall k :: k in graph ==>
                    graph[k] == if k !in todo && SameRowOrColumn(k, c) then old(graph)[k].(packetGroupId := group) else old(graph)[k]
        decreases todo
      {
        var k :| k in todo;
        if SameRowOrColumn(k, c) { graph := graph[k := graph[k].(packetGroupId := group)]; }
        todo := todo - {k};
      }
    }

    // ---------- One flow ----------

    /** From one destination back to the nodes that have been processed. */
    method WalkBack(preds: map<PhysPort, PhysPort>, endPoint: PhysPort, processed0: set<PhysPort>, settings0: SwitchSettings,
                    group: int, ghost s: Search, ghost source: PhysPort)
        returns (processed: set<PhysPort>, settings: SwitchSettings)
      requires IsTree(s, source) && preds == s.preds && source in processed0 && (endPoint == source || endPoint in preds)
      requires forall v :: v in preds ==> Into(s, v) in graph
      modifies this`graph
      ensures var w := Walk(s, processed0, endPoint);
              && processed == processed0 + PortSet(w)
              && settings == RecordedAll(settings0, s, w, |w|)
              && graph == ChargeAll(old(graph), s, w, |w|, group)
    {
      hide IsTree, Walk, RecordedAll, ChargeAll, ChargeChannel, Into;
      processed, settings := processed0, settings0;
      var curr := endPoint;
      ghost var done: seq<PhysPort> := [];
      WalkStarts(old(graph), s, settings0, group);
      while curr !in processed
        invariant curr == source || curr in preds
        invariant source in processed
        invariant Walk(s, processed0, endPoint) == done + Walk(s, processed, curr)
        invariant processed == processed0 + PortSet(done)
        invariant settings == RecordedAll(settings0, s, done, |done|)
        invariant graph == ChargeAll(old(graph), s, done, |done|, group) && graph.Keys == old(graph.Keys)
        decreases if curr in s.rank then s.rank[curr] else 0
      {
        TreeStep(s, source, curr);
        WalkGoesOn(s, source, processed, curr);
        var pred := preds[curr];
        IntoIs(s, curr);
        ChargeOneMore(old(graph), s, done, curr, group);
        ChargeKeeps(graph, ChannelOf(pred, curr), group);
        Charge(ChannelOf(pred, curr), group);
        RecordOneMore(settings0, s, done, curr);
        if pred.tileLoc == curr.tileLoc {
          settings := PushSrc(settings, pred.tileLoc, pred.port);
          settings := PushDst(settings, curr.tileLoc, curr.port);
        }
        processed := processed + {curr};
        done := done + [curr];
        curr := pred;
      }
      WalkIsOver(s, processed, curr);
      assert done + [] == done;
    }

    /** Searches paths from the source, and charges and records the tree paths to all destinations. */
    method RouteFlow(flow: Flow) returns (settings: SwitchSettings, ghost s: Search, ghost nodes: seq<PhysPort>)
      requires Searchable(graph, flow.src) && CacheAgrees(channels, graph)
      requires forall i :: 0 <= i < |flow.dsts| ==> flow.dsts[i] == flow.src || Reachable(graph, flow.src, flow.dsts[i])
      modifies this`graph, this`channels
      ensures CacheAgrees(channels, graph) && s == Result(old(graph), flow.src)
      ensures Ended(old(graph), s, flow.src) && IsTree(s, flow.src) && Found(s, flow.src, flow.dsts)
      ensures nodes == Traced(s, flow.src, flow.dsts, |flow.dsts|)
      ensures settings == SettingsOf(s, flow.src, flow.dsts, |flow.dsts|)
      ensures graph == ChargeAll(old(graph), s, nodes, |nodes|, flow.packetGroupId)
      ensures RaisedBy(old(graph), graph, Route(s, PortSet(nodes)), flow.packetGroupId)
    {
      hide IsTree, Walk, RecordedAll, ChargeAll, Into, Searchable, Ended, Run, Reachable, CacheAgrees, PortSet, RaisedBy, Route, NoRepeats;
      var src, dsts, group := flow.src, flow.dsts, flow.packetGroupId;
      var preds := DijkstraShortestPaths(src);
      s := Result(graph, src);
      FlowIsFound(graph, s, flow);
      settings := map[];
      var processed := {src};
      nodes := [];
      TraceStarts(graph, s, src, group);
      for n := 0 to |dsts|
        invariant CacheAgrees(channels, old(graph))
        invariant nodes == Traced(s, src, dsts, n)
        invariant processed == PortSet(nodes) + {src}
        invariant settings == SettingsOf(s, src, dsts, n)
        invariant graph == ChargeAll(old(graph), s, nodes, |nodes|, group) && graph.Keys == old(graph.Keys)
      {
        var endPoint := dsts[n];
        ghost var w := Walk(s, processed, endPoint);
        if endPoint == src {
          settings := PushSrc(settings, src.tileLoc, src.port);
          settings := PushDst(settings, src.tileLoc, src.port);
        }
        MoreTraced(old(graph), s, nodes, w, group);
        processed, settings := WalkBack(preds, endPoint, processed, settings, group, s, src);
        nodes := nodes + w;
      }
      ChargeAllKeeps(old(graph), s, nodes, |nodes|, group);
      SameCache(channels, old(graph), graph);
      RouteRaises(old(graph), s, flow, nodes);
    }

    // ---------- All flows ----------

    /** The flows of one group, one after the other, and then the capacity their packets take up. */
    method RouteGroup(group: int, groupFlows: seq<Flow>, solution0: map<PhysPort, SwitchSettings>, ghost g: Fabric, ghost log0: seq<Routed>,
                      ghost closed: bool, ghost first: int, ghost begin: Fabric)
        returns (solution: map<PhysPort, SwitchSettings>, ghost log: seq<Routed>)
      requires Ready(g, graph, channels) && AllSolved(g, log0, solution0) && AccountsBetween(graph, log0, closed)
      requires CanRoute(g, groupFlows, group) && forall f :: f in groupFlows ==> f.src !in solution0
      requires FixedWithFirst(graph, log0, first) && (!closed ==> group == first)
      requires InTurn(begin, log0) && ReachedBy(begin, log0, graph, true)
      requires groupFlows != [] && forall i :: 0 <= i < |log0| ==> log0[i].flow.packetGroupId != group
      modifies this`graph, this`channels
      ensures Ready(g, graph, channels) && AllSolved(g, log, solution) && AccountsBetween(graph, log, true)
      ensures FlowsIn(log) == FlowsIn(log0) + groupFlows && SameHistory(old(graph), graph)
      ensures FixedWithFirst(graph, log, first) && (!closed ==> ExactAccounts(graph, log))
      ensures InTurn(begin, log) && ReachedBy(begin, log, graph, true)
      ensures |log| == |log0| + |groupFlows| && log[..|log0|] == log0
    {
      hide InTurn, ReachedBy, RaisedBy, ClosedFrom, FixedWithFirst, ExactAccounts, SameHistory, Searchable,
        GroupAccounts, AccountsBetween, Solved, AllSolved, ChargeAll, Traced, Route, Into, SettingsOf, Found,
        Ended, Run, Ready, Prepared, IsTree, PortSet;
      ghost var start := graph;
      GroupStarts(graph, log0, group);
      HistoryStarts(graph);
      solution, log := solution0, log0;
      for n := 0 to |groupFlows|
        invariant Ready(g, graph, channels) && AllSolved(g, log, solution)
        invariant GroupAccounts(graph, start, log0, log, group)
        invariant FlowsIn(log) == FlowsIn(log0) + groupFlows[..n] && SameHistory(start, graph)
        invariant forall i :: n <= i < |groupFlows| ==> groupFlows[i].src !in solution
        invariant InTurn(begin, log) && ReachedBy(begin, log, graph, n == 0)
        invariant |log| == |log0| + n && log[..|log0|] == log0
        invariant n > 0 ==> log[|log| - 1].flow.packetGroupId == group
      {
        var flow := groupFlows[n];
        ghost var h := graph;
        CanRouteOne(g, h, channels, groupFlows, group, n);
        var settings: SwitchSettings;
        ghost var s, nodes;
        settings, s, nodes := RouteFlow(flow);
        ReadyTracedIsSolved(g, h, flow, s, nodes, settings);
        ReadyAfter(g, h, graph, channels, s, nodes, group);
        FlowRouted(h, start, log0, log, flow, s, nodes);
        ChargesKeepHistory(start, h, s, nodes, group);
        ghost var r := Routed(flow, h, s, Route(s, PortSet(nodes)));
        OneMoreSolved(g, log, solution, r, settings);
        OneMoreTurn(begin, log, r, graph, n > 0);
        FlowsInGrows(log, r, FlowsIn(log0), groupFlows, n);
        solution := solution[flow.src := settings];
        log := log + [r];
      }
      assert groupFlows[..|groupFlows|] == groupFlows;
      ghost var h := graph;
      ForEachChannel(Closed);
      CloseRaises(h, graph);
      GroupEnds(begin, log, h, graph);
      GroupRouted(h, graph, start, log0, log, group, closed);
      FixedGroupRouted(h, graph, start, log0, log, group, closed, first);
      if !closed { FirstGroupRouted(h, graph, start, log0, log, group); }
      ReadyUpdated(g, h, graph, channels);
      ClosingKeepsHistory(start, h, graph);
    }

    /** All groups in ascending order; the circuits, group -1, come first. */
    method RouteAllGroups(groupedFlows: map<int, seq<Flow>>, ghost g: Fabric, ghost all: seq<Flow>)
        returns (solution: map<PhysPort, SwitchSettings>, ghost log: seq<Routed>, ghost closed: bool, ghost first: int)
      requires Ready(g, graph, channels) && AccountsBetween(graph, [], false)
      requires IsGrouping(groupedFlows, all, |all|) && DistinctSources(all) && forall f :: f in all ==> Routable(g, f)
      modifies this`graph, this`channels
      ensures Ready(g, graph, channels) && AllSolved(g, log, solution) && AccountsBetween(graph, log, closed)
      ensures DistinctSources(FlowsIn(log)) && forall f :: f in FlowsIn(log) <==> f in all
      ensures SameHistory(old(graph), graph) && FixedWithFirst(graph, log, first)
      ensures forall f :: f in all ==> first <= f.packetGroupId
      ensures OneGroup(all) ==> ExactAccounts(graph, log)
      ensures InTurn(old(graph), log) && ReachedBy(old(graph), log, graph, true) && InOrderOf(all, log)
    {
      hide InTurn, ReachedBy, InOrderOf, FixedWithFirst, ExactAccounts, SameHistory, Ready, AccountsBetween,
        AllSolved, CanRoute, Routable, DistinctSources, OfGroup, FlowsIn, IsGrouping, RoutedSoFar, IsLeastGroup,
        Kept, OneGroup, GroupsBelow;
      solution, log, closed, first := map[], [], false, 0;
      var todo := groupedFlows.Keys;
      ghost var done: set<int> := {};
      NothingSolved(g);
      NothingRouted(all);
      ghost var start := graph;
      if todo != {} { first := LeastGroup(todo); }
      KeptAtStart(graph, first);
      NothingInTurn(graph);
      NothingInOrder(all);
      while todo != {}
        invariant done !! todo && done + todo == groupedFlows.Keys
        invariant Ready(g, graph, channels) && AllSolved(g, log, solution) && AccountsBetween(graph, log, closed)
        invariant RoutedSoFar(log, all, done) && Kept(start, graph, log, first, done)
        invariant closed <==> done != {}
        invariant groupedFlows.Keys != {} ==> IsLeastGroup(groupedFlows.Keys, first)
        invariant InTurn(start, log) && ReachedBy(start, log, graph, true) && InOrderOf(all, log) && GroupsBelow(log, todo)
        decreases todo
      {
        SolvedSources(g, log, solution);
        ghost var least := LeastGroup(todo);
        var group :| group in todo && IsLeastGroup(todo, group);
        LeastComesFirst(groupedFlows.Keys, todo, done, group, first);
        GroupCanRoute(g, groupedFlows, all, group, done, log, solution);
        KeptHas(start, graph, log, first, done);
        ghost var before, h := log, graph;
        GroupIsAbove(groupedFlows, all, log, todo, group);
        solution, log := RouteGroup(group, groupedFlows[group], solution, g, log, closed, first, start);
        GroupWasInOrder(before, log, all, groupedFlows, todo, group);
        GroupIsRouted(before, log, all, groupedFlows, group, done);
        KeptByGroup(start, h, graph, log, first, done, group);
        closed := true;
        todo := todo - {group};
        done := done + {group};
      }
      assert done == groupedFlows.Keys;
      KeptHas(start, graph, log, first, done);
      if OneGroup(all) { OneGroupOnly(groupedFlows, all, first); }
      AllAreRouted(log, all, groupedFlows);
      LeastOfAll(groupedFlows, all, first);
    }

    method CheckChannel(c: Channel) returns (illegal: bool)
      requires c in graph
      modifies this`graph
      ensures graph == old(graph)[c := Checked(old(graph)[c])]
      ensures illegal <==> old(graph)[c].usedCapacity > MAX_CIRCUIT_STREAM_CAPACITY
    {
      illegal := graph[c].usedCapacity > MAX_CIRCUIT_STREAM_CAPACITY;
      if illegal {
        graph := graph[c := graph[c].(overCapacity := graph[c].overCapacity + 1)];
      } else {
        assert graph == graph[c := graph[c]];
      }
    }

    /** Counts the channels that are over capacity and enters them into their histories. */
    method CheckCapacity() returns (illegalEdges: nat)
      modifies this`graph
      ensures graph.Keys == old(graph.Keys) && forall c :: c in graph ==> graph[c] == Checked(old(graph)[c])
      ensures illegalEdges == |Illegal(old(graph), old(graph.Keys))|
    {
      hide Illegal, Checked;
      illegalEdges := 0;
      ghost var g := graph;
      var todo := graph.Keys;
      ghost var done: set<Channel> := {};
      NothingIllegal(g);
      while todo != {}
        invariant done !! todo && done + todo == g.Keys == graph.Keys
        invariant forall c :: c in todo ==> graph[c] == g[c]
        invariant forall c :: c in done ==> graph[c] == Checked(g[c])
        invariant illegalEdges == |Illegal(g, done)|
        decreases todo
      {
        var c :| c in todo;
        OneMoreIllegal(g, done, c);
        var illegal := CheckChannel(c);
        if illegal { illegalEdges := illegalEdges + 1; }
        todo := todo - {c};
        done := done + {c};
      }
      assert done == g.Keys;
    }

    /**
     * Routes all flows over and over until no channel is over capacity. What it returns are settings
     * for every flow, exactly those of the tree paths from its source to its destinations, and a use of
     * every channel that is legal or one packet flow beside 32 or more fixed ones; a channel with fixed
     * packet flows is left to the least group. It gives up after `maxIterations` rounds. `rounds` holds
     * what happened in every round, the last one included, and `over` the channels that were over capacity
     * in each of the rounds that failed: the history of a channel counts the rounds in which it was over,
     * and when all flows are in one group, a channel was over exactly when it was used illegally.
     */
    method FindPaths(maxIterations: int)
        returns (r: Option<map<PhysPort, SwitchSettings>>, ghost log: seq<Routed>, ghost over: seq<set<Channel>>,
                 ghost rounds: seq<Round>)
      requires WellFormed(graph) && CacheAgrees(channels, graph)
      requires DistinctSources(flows) && forall f :: f in flows ==> Routable(graph, f)
      modifies this`graph, this`channels
      ensures Alike(old(graph), graph) && CacheAgrees(channels, graph)
      ensures r.Some? ==> AllSolved(old(graph), log, r.value) && AllLegalOrOverlooked(old(graph), log)
      ensures r.Some? ==> DistinctSources(FlowsIn(log)) && forall f :: f in FlowsIn(log) <==> f in flows
      ensures r.Some? ==> FixedForLeast(old(graph), log)
      ensures r.Some? ==> |over| < maxIterations && |rounds| == |over| + 1 && log == rounds[|over|].log
      ensures r.None? ==> |over| == |rounds| == if maxIterations > 0 then maxIterations else 0
      ensures HistoryIs(graph, over)
      ensures AreRounds(old(graph), flows, rounds, over)
      ensures forall k :: 0 <= k < |over| ==> FailedRound(old(graph), flows, rounds[k].log, over[k])
    {
      hide Routable, DistinctSources, IsGrouping, FlowsIn, AllSolved, AllLegalOrOverlooked, AccountsBetween, CacheAgrees, Alike,
        HistoryIs, SameHistory, Ready, Illegal, WithDemand, RippedUp, Cleared, Checked, WellFormed, FailedRound, FixedForLeast,
        FixedWithFirst, ExactAccounts, InTurn, ReachedBy, InOrderOf, AreRounds, IsRound, StartsRound, UsedIs, OverCapacity, OneGroup;
      ghost var g := graph;
      log, over, rounds := [], [], [];
      AlikeStarts(g);
      NoRounds(g, flows);
      ForEachChannel(Cleared);
      AlikeCleared(g, graph, channels);
      NoRoundsYet(g, graph);
      var groupedFlows := GroupFlows(flows);
      var iterationCount := -1;
      while true
        invariant Alike(g, graph) && CacheAgrees(channels, graph)
        invariant HistoryIs(graph, over) && |over| == iterationCount + 1 == |rounds|
        invariant |over| <= if maxIterations > 0 then maxIterations else 0
        invariant AreRounds(g, flows, rounds, over) && UsedIs(graph, EndBefore(rounds, |rounds|))
        invariant forall k :: 0 <= k < |over| ==> FailedRound(g, flows, rounds[k].log, over[k])
        decreases maxIterations - iterationCount
      {
        iterationCount := iterationCount + 1;
        if iterationCount >= maxIterations { return None, [], over, rounds; }
        label Start:
        ForEachChannel(WithDemand);
        label Demands:
        ForEachChannel(RippedUp);
        label Ripped:
        RippedUpIsReady(g, old@Start(graph), old@Demands(graph), graph, channels);
        RoundBegins(g, old@Start(graph), old@Demands(graph), graph, over, EndBefore(rounds, |rounds|));
        var solution: map<PhysPort, SwitchSettings>;
        ghost var closed, first;
        solution, log, closed, first := RouteAllGroups(groupedFlows, g, flows);
        label Routed:
        ghost var round := Round(old@Ripped(graph), log, graph);
        RoundIs(g, flows, round, over, EndBefore(rounds, |rounds|));
        OneMoreRoundIs(g, flows, rounds, over, round);
        RoundHasFailed(g, graph, channels, flows, log, solution);
        var illegalEdges := CheckCapacity();
        CheckedIsAlike(g, old@Routed(graph), graph, channels);
        CheckedIsUsed(old@Routed(graph), graph);
        OneMoreRound(old@Start(graph), old@Demands(graph), old@Ripped(graph), old@Routed(graph), graph, over);
        IllegalIsOver(old@Routed(graph));
        rounds := rounds + [round];
        if illegalEdges == 0 {
          WithinCapacityEverywhere(g, old@Routed(graph), log, closed, channels);
          FirstIsLeast(g, old@Routed(graph), channels, flows, log, first);
          return Some(solution), log, over, rounds;
        }
        over := over + [OverCapacity(round.end)];
      }
    }
  }

  // ---------- Histories ----------

  ghost predicate SameHistory(g: Fabric, h: Fabric) {
    g.Keys == h.Keys && forall c :: c in g ==> h[c].overCapacity == g[c].overCapacity
  }

  /** In every round some channels were over capacity, and all histories count these rounds. */
  ghost predicate HistoryIs(g: Fabric, over: seq<set<Channel>>) {
    && (forall i :: 0 <= i < |over| ==> over[i] != {} && over[i] <= g.Keys)
    && (forall c :: c in g ==> g[c].overCapacity == RoundsOver(over, c))
  }

  lemma HistoryStarts(g: Fabric)
    ensures SameHistory(g, g)
  {
  }

  /** After these groups: the histories are those of the start, and the accounts of the first group and of fixed packet flows. */
  ghost predicate Kept(start: Fabric, g: Fabric, log: seq<Routed>, first: int, done: set<int>) {
    SameHistory(start, g) && FixedWithFirst(g, log, first) && (done <= {first} ==> ExactAccounts(g, log))
  }

  lemma KeptAtStart(g: Fabric, first: int)
    requires AccountsBetween(g, [], false)
    ensures Kept(g, g, [], first, {})
  {
    hide ExactAccounts, FixedWithFirst, AccountsBetween;
    HistoryStarts(g);
    NothingIsExact(g);
    NothingWithFixed(g, first);
  }

  lemma KeptHas(start: Fabric, g: Fabric, log: seq<Routed>, first: int, done: set<int>)
    requires Kept(start, g, log, first, done)
    ensures SameHistory(start, g) && FixedWithFirst(g, log, first) && (done <= {first} ==> ExactAccounts(g, log))
  {
  }

  lemma KeptByGroup(start: Fabric, h: Fabric, g: Fabric, log: seq<Routed>, first: int, done: set<int>, group: int)
    requires SameHistory(start, h) && SameHistory(h, g) && FixedWithFirst(g, log, first)
    requires group !in done && (done == {} ==> ExactAccounts(g, log))
    ensures Kept(start, g, log, first, done + {group})
  {
    hide ExactAccounts, FixedWithFirst;
    HistoryGoesOn(start, h, g);
    if done + {group} <= {first} {
      assert group == first;
      assert forall x :: x in done ==> x in done + {group} && x == first;
      assert done == {};
    }
  }

  lemma HistoryGoesOn(g: Fabric, h: Fabric, h2: Fabric)
    requires SameHistory(g, h) && SameHistory(h, h2)
    ensures SameHistory(g, h2)
  {
  }

  lemma ChargesKeepHistory(g: Fabric, h: Fabric, s: Search, nodes: seq<PhysPort>, group: int)
    requires SameHistory(g, h)
    ensures SameHistory(g, ChargeAll(h, s, nodes, |nodes|, group))
  {
    hide ChargeAll;
    ChargeAllKeeps(h, s, nodes, |nodes|, group);
  }

  lemma ClosingKeepsHistory(g: Fabric, h: Fabric, h2: Fabric)
    requires SameHistory(g, h) && h2.Keys == h.Keys && forall c :: c in h2 ==> h2[c] == Closed(h[c])
    ensures SameHistory(g, h2)
  {
  }

  /** The use of every channel is still that of the round before. */
  ghost predicate UsedIs(h: Fabric, prev: Option<Fabric>) {
    forall c :: c in h ==> h[c].usedCapacity == UsedBefore(prev, c)
  }

  lemma RoundBegins(g: Fabric, h0: Fabric, h1: Fabric, h2: Fabric, over: seq<set<Channel>>, prev: Option<Fabric>)
    requires Alike(g, h0) && HistoryIs(h0, over) && UsedIs(h0, prev)
    requires h1.Keys == h0.Keys && forall c :: c in h1 ==> h1[c] == WithDemand(h0[c])
    requires h2.Keys == h1.Keys && forall c :: c in h2 ==> h2[c] == RippedUp(h1[c])
    ensures StartsRound(g, h2, over, prev)
  {
    hide WithDemand, RoundsOver, UsedBefore;
    forall c | c in g
      ensures h2[c].available == g[c].available
      ensures h2[c].fixedPacketFlowCount == g[c].fixedPacketFlowCount == h2[c].packetFlowCount
      ensures h2[c].usedCapacity == 0 && h2[c].packetGroupId == -1
      ensures 100.0 * h2[c].demand == (10 + RoundsOver(over, c)) as real * (10 + UsedBefore(prev, c)) as real
    {
      DemandIs(h0[c]);
    }
  }

  lemma RoundIs(g: Fabric, flows: seq<Flow>, r: Round, over: seq<set<Channel>>, prev: Option<Fabric>)
    requires StartsRound(g, r.start, over, prev) && InTurn(r.start, r.log) && ReachedBy(r.start, r.log, r.end, true)
    requires InOrderOf(flows, r.log)
    ensures IsRound(g, flows, r, over, prev)
  {
  }

  lemma CheckedIsUsed(h: Fabric, h2: Fabric)
    requires h2.Keys == h.Keys && forall c :: c in h2 ==> h2[c] == Checked(h[c])
    ensures UsedIs(h2, Some(h))
  {
  }

  lemma IllegalIsOver(h: Fabric)
    ensures Illegal(h, h.Keys) == OverCapacity(h) && (|Illegal(h, h.Keys)| == 0 <==> OverCapacity(h) == {})
  {
  }

  lemma NoRoundsYet(g: Fabric, h: Fabric)
    requires g.Keys == h.Keys && forall c :: c in h ==> h[c] == Cleared(g[c])
    ensures HistoryIs(h, []) && UsedIs(h, None)
  {
    forall c: Channel ensures RoundsOver([], c) == 0 { NoRoundsOver(c); }
  }

  /** What a round that found some channels over capacity, or none, does to the histories. */
  lemma OneMoreRound(h0: Fabric, h1: Fabric, h2: Fabric, h3: Fabric, h4: Fabric, over: seq<set<Channel>>)
    requires HistoryIs(h0, over)
    requires h1.Keys == h0.Keys && forall c :: c in h1 ==> h1[c] == WithDemand(h0[c])
    requires h2.Keys == h1.Keys && forall c :: c in h2 ==> h2[c] == RippedUp(h1[c])
    requires SameHistory(h2, h3) && h4.Keys == h3.Keys && forall c :: c in h4 ==> h4[c] == Checked(h3[c])
    ensures if |Illegal(h3, h3.Keys)| == 0 then HistoryIs(h4, over) else HistoryIs(h4, over + [Illegal(h3, h3.Keys)])
  {
    hide RoundsOver, WithDemand;
    var more := over + [Illegal(h3, h3.Keys)];
    forall c | c in h4
      ensures h4[c].overCapacity == RoundsOver(over, c) + if c in Illegal(h3, h3.Keys) then 1 else 0
      ensures RoundsOver(more, c) == RoundsOver(over, c) + if c in Illegal(h3, h3.Keys) then 1 else 0
    {
      DemandOnly(h0[c]);
      assert h3[c].overCapacity == h0[c].overCapacity;
      LastRound(over, Illegal(h3, h3.Keys), c);
    }
  }

  lemma LastRound(over: seq<set<Channel>>, last: set<Channel>, c: Channel)
    ensures RoundsOver(over + [last], c) == RoundsOver(over, c) + if c in last then 1 else 0
  {
    var more := over + [last];
    var before, after := set k: nat | k < |over| && c in over[k], set k: nat | k < |more| && c in more[k];
    assert after == before + if c in last then {|over|} else {};
    assert |over| !in before;
  }

  /** The same connections and fixed packet flows. */
  ghost predicate Alike(g: Fabric, h: Fabric) {
    SameConnections(g, h) && forall c :: c in g ==> h[c].fixedPacketFlowCount == g[c].fixedPacketFlowCount
  }

  lemma AlikeStarts(g: Fabric)
    ensures Alike(g, g)
  {
  }

  lemma AlikeCleared(g: Fabric, h: Fabric, channels: map<PhysPort, seq<PhysPort>>)
    requires g.Keys == h.Keys && (forall c :: c in h ==> h[c] == Cleared(g[c])) && CacheAgrees(channels, g)
    ensures Alike(g, h) && CacheAgrees(channels, h)
  {
    hide CacheAgrees;
    SameCache(channels, g, h);
  }

  lemma RippedUpIsReady(g: Fabric, h0: Fabric, h1: Fabric, h2: Fabric, channels: map<PhysPort, seq<PhysPort>>)
    requires WellFormed(g) && Alike(g, h0) && CacheAgrees(channels, h0)
    requires h1.Keys == h0.Keys && forall c :: c in h1 ==> h1[c] == WithDemand(h0[c])
    requires h2.Keys == h1.Keys && forall c :: c in h2 ==> h2[c] == RippedUp(h1[c])
    ensures Ready(g, h2, channels) && AccountsBetween(h2, [], false)
  {
    hide CacheAgrees, Between, WithDemand, WellFormed;
    forall c | c in h2
      ensures h2[c].available == h0[c].available && h2[c].fixedPacketFlowCount == h0[c].fixedPacketFlowCount && h2[c].demand >= 1.0
      ensures Between(h2[c], [], false)
    {
      DemandStaysAtLeastOne(h0[c]);
      DemandOnly(h0[c]);
      RippedUpIsBetween(h1[c]);
    }
    SameCache(channels, h0, h2);
  }

  lemma DemandOnly(cell: Cell)
    ensures WithDemand(cell) == cell.(demand := WithDemand(cell).demand)
  {
  }

  lemma CheckedIsAlike(g: Fabric, h: Fabric, h2: Fabric, channels: map<PhysPort, seq<PhysPort>>)
    requires Ready(g, h, channels) && h2.Keys == h.Keys && forall c :: c in h2 ==> h2[c] == Checked(h[c])
    ensures Alike(g, h2) && CacheAgrees(channels, h2)
  {
    hide CacheAgrees;
    SameCache(channels, h, h2);
  }

  lemma WithinCapacityEverywhere(g: Fabric, h: Fabric, log: seq<Routed>, closed: bool, channels: map<PhysPort, seq<PhysPort>>)
    requires Ready(g, h, channels) && |Illegal(h, h.Keys)| == 0 && AccountsBetween(h, log, closed)
    ensures AllLegalOrOverlooked(g, log)
  {
    NothingIllegal(h);
    WithinCapacityIsLegal(h, log, closed);
    hide Legal, Overlooked, GroupsOn;
  }

  lemma NothingCounted(g: Fabric)
    ensures CountFixed(g, {}) == g
  {
  }

  lemma LinksWithin(src: PhysPort, dst: PhysPort, n: nat, maxCol: int, maxRow: int)
    requires n <= |DIRECTIONS|
    ensures Links(src, dst, n, maxCol, maxRow) <= Links(src, dst, |DIRECTIONS|, maxCol, maxRow)
    decreases |DIRECTIONS| - n
  {
    if n < |DIRECTIONS| { LinksWithin(src, dst, n + 1, maxCol, maxRow); }
  }

  lemma LinksGrow(src: PhysPort, dst: PhysPort, n: nat, maxCol: int, maxRow: int)
    requires n < |DIRECTIONS| && src.tileLoc == dst.tileLoc
    ensures Links(src, dst, 0, maxCol, maxRow) == {}
    ensures var d := DIRECTIONS[n];
            Links(src, dst, n + 1, maxCol, maxRow) == Links(src, dst, n, maxCol, maxRow)
              + (if InArray(Neighbour(src.tileLoc, d), maxCol, maxRow) && src.port.bundle == d.first then {LinkInto(src, d)} else {})
              + (if InArray(Neighbour(src.tileLoc, d), maxCol, maxRow) && dst.port.bundle == d.first then {LinkFrom(dst, d)} else {})
  {
  }

  lemma {:induction false} NoLinks(src: PhysPort, dst: PhysPort, n: nat, maxCol: int, maxRow: int)
    requires n <= |DIRECTIONS| && (src.tileLoc != dst.tileLoc || n == 0)
    ensures Links(src, dst, n, maxCol, maxRow) == {}
  {
    if n > 0 { NoLinks(src, dst, n - 1, maxCol, maxRow); }
  }

  /** The cache still agrees after fixed circuits were added exactly when no cached port starts one of them. */
  lemma WhenCacheAgrees(channels: map<PhysPort, seq<PhysPort>>, g: Fabric, tile: TileLoc, connects: seq<(Port, Port)>)
    requires CacheAgrees(channels, g) && CanTakeAll(g, tile, connects)
    ensures CacheAgrees(channels, TakeAll(g, tile, connects)) <==>
            forall u, i :: u in channels && 0 <= i < |connects| ==> !StartsAt(ChannelIn(tile, connects[i]), u)
  {
    hide Next, CanTakeAll, TakeAll;
    var h := TakeAll(g, tile, connects);
    forall u | u in channels
      ensures channels[u] == NextList(h, u) <==> forall i :: 0 <= i < |connects| ==> !StartsAt(ChannelIn(tile, connects[i]), u) {
      TakeAllChangesNext(g, tile, connects, u);
      assert channels[u] == NextList(g, u);
      assert NextList(g, u) == NextList(h, u) ==> PortSet(NextList(g, u)) == PortSet(NextList(h, u));
    }
  }

  /** The log has exactly the flows of these groups, from different source ports. */
  ghost predicate RoutedSoFar(log: seq<Routed>, all: seq<Flow>, done: set<int>) {
    DistinctSources(FlowsIn(log)) && forall f :: f in FlowsIn(log) <==> f in all && f.packetGroupId in done
  }

  lemma NothingRouted(all: seq<Flow>)
    ensures RoutedSoFar([], all, {})
  {
  }

  lemma EmptyHasNone(s: set<int>)
    ensures (forall i :: i !in s) ==> s == {}
  {
    if forall i :: i !in s { assert s == {}; }
  }

  predicate IsLeastGroup(s: set<int>, least: int) {
    least in s && forall other :: other in s ==> least <= other
  }

  /** The least group is routed first. */
  lemma LeastComesFirst(all: set<int>, todo: set<int>, done: set<int>, group: int, first: int)
    requires done !! todo && done + todo == all && IsLeastGroup(todo, group) && IsLeastGroup(all, first)
    ensures group !in done && (done == {} ==> group == first)
  {
  }

  lemma {:induction false} LeastGroup(s: set<int>) returns (least: int)
    requires s != {}
    ensures least in s && IsLeastGroup(s, least)
  {
    EmptyHasNone(s);
    var x: int :| x in s;
    least := x;
    if s != {x} {
      assert s == {x} + (s - {x});
      var y := LeastGroup(s - {x});
      least := if x < y then x else y;
      assert forall other :: other in s ==> other == x || other in s - {x};
    }
  }

  lemma LeastOfAll(grouped: map<int, seq<Flow>>, all: seq<Flow>, first: int)
    requires IsGrouping(grouped, all, |all|)
    requires grouped.Keys != {} ==> IsLeastGroup(grouped.Keys, first)
    ensures forall f :: f in all ==> first <= f.packetGroupId
  {
    hide OfGroup;
    forall f | f in all ensures f.packetGroupId in grouped {
      var i :| 0 <= i < |all| && all[i] == f;
    }
  }

  /** All flows are in one group, or are all circuits. */
  ghost predicate OneGroup(flows: seq<Flow>) {
    forall e, f :: e in flows && f in flows ==> e.packetGroupId == f.packetGroupId
  }

  lemma OneGroupOnly(grouped: map<int, seq<Flow>>, all: seq<Flow>, first: int)
    requires IsGrouping(grouped, all, |all|) && OneGroup(all)
    requires grouped.Keys != {} ==> IsLeastGroup(grouped.Keys, first)
    ensures grouped.Keys <= {first}
  {
    hide OfGroup;
    if grouped.Keys != {} {
      var i :| 0 <= i < |all| && all[i].packetGroupId == first;
      forall other | other in grouped ensures other == first {
        var j :| 0 <= j < |all| && all[j].packetGroupId == other;
        assert all[i] in all && all[j] in all;
      }
    }
  }

  /**
   * A round that failed: all flows were routed, and if they are in one group, the channels over capacity
   * are exactly those that were used in a way that is neither legal nor overlooked.
   */
  ghost predicate FailedRound(g: Fabric, flows: seq<Flow>, log: seq<Routed>, over: set<Channel>) {
    && (exists solution :: AllSolved(g, log, solution))
    && DistinctSources(FlowsIn(log)) && (forall f :: f in FlowsIn(log) <==> f in flows)
    && (OneGroup(flows) ==>
          forall c :: c in over <==>
            c in g && !Legal(GroupsOn(log, c), g[c].fixedPacketFlowCount) && !Overlooked(GroupsOn(log, c), g[c].fixedPacketFlowCount))
  }

  lemma RoundHasFailed(g: Fabric, h: Fabric, channels: map<PhysPort, seq<PhysPort>>, flows: seq<Flow>, log: seq<Routed>,
                       solution: map<PhysPort, SwitchSettings>)
    requires Ready(g, h, channels) && AllSolved(g, log, solution)
    requires DistinctSources(FlowsIn(log)) && forall f :: f in FlowsIn(log) <==> f in flows
    requires OneGroup(flows) ==> ExactAccounts(h, log)
    ensures FailedRound(g, flows, log, Illegal(h, h.Keys))
  {
    hide AllSolved, FlowsIn, DistinctSources, Legal, Overlooked, GroupsOn, CacheAgrees, WellFormed, OneGroup;
  }

  lemma OneSource(flow: Flow)
    ensures DistinctSources([flow])
  {
  }

  lemma FirstTwoDiffer(log: seq<Routed>)
    requires DistinctSources(FlowsIn(log)) && |log| > 1
    ensures log[0].flow.src != log[1].flow.src
  {
    assert FlowsIn(log)[0] == log[0].flow && FlowsIn(log)[1] == log[1].flow;
  }

  lemma OnlyFlow(log: seq<Routed>, flow: Flow)
    requires DistinctSources(FlowsIn(log)) && forall f :: f in FlowsIn(log) <==> f in [flow]
    ensures |log| == 1 && log[0].flow == flow
  {
    hide DistinctSources;
    assert flow in FlowsIn(log);
    forall i | 0 <= i < |log| ensures log[i].flow == flow { assert FlowsIn(log)[i] in FlowsIn(log); }
    if |log| > 1 { FirstTwoDiffer(log); }
  }

  /** No round fails for a single packet flow, whatever is fixed, nor for a single circuit where no packet flows are fixed. */
  lemma SingleFlowFits(g: Fabric, flow: Flow, log: seq<Routed>, over: set<Channel>)
    requires FailedRound(g, [flow], log, over)
    requires flow.packetGroupId >= 0 || forall k :: k in g ==> g[k].fixedPacketFlowCount == 0
    ensures over == {}
  {
    hide AllSolved, GroupsOn, DistinctSources, FlowsIn;
    OnlyFlow(log, flow);
    forall k | k in g ensures k !in over { GroupsOfOne(log, k); }
  }

  lemma GroupsOfOne(log: seq<Routed>, k: Channel)
    requires |log| == 1
    ensures GroupsOn(log, k) == if k in log[0].route then [log[0].flow.packetGroupId] else []
  {
    assert log[..0] == [] && GroupsOn([], k) == [];
  }

  /** A channel with fixed packet flows is only used by flows of the least group. */
  ghost predicate FixedForLeast(g: Fabric, log: seq<Routed>) {
    forall k, i, j :: k in g && g[k].fixedPacketFlowCount > 0 && 0 <= i < |log| && 0 <= j < |log| && k in log[i].route ==>
      log[i].flow.packetGroupId <= log[j].flow.packetGroupId
  }

  lemma FirstIsLeast(g: Fabric, h: Fabric, channels: map<PhysPort, seq<PhysPort>>, flows: seq<Flow>, log: seq<Routed>, first: int)
    requires Ready(g, h, channels) && |Illegal(h, h.Keys)| == 0 && FixedWithFirst(h, log, first)
    requires (forall f :: f in FlowsIn(log) <==> f in flows) && forall f :: f in flows ==> first <= f.packetGroupId
    ensures FixedForLeast(g, log)
  {
    NothingIllegal(h);
    hide CacheAgrees, WellFormed, GroupsOn, Illegal;
    forall k, i, j | k in g && g[k].fixedPacketFlowCount > 0 && 0 <= i < |log| && 0 <= j < |log| && k in log[i].route
      ensures log[i].flow.packetGroupId <= log[j].flow.packetGroupId
    {
      GroupsOnHas(log, k);
      assert FlowsIn(log)[j] == log[j].flow;
    }
  }

  /** All groups that are still to be routed are larger than those in the log. */
  ghost predicate GroupsBelow(log: seq<Routed>, todo: set<int>) {
    forall i, group :: 0 <= i < |log| && group in todo ==> log[i].flow.packetGroupId < group
  }

  lemma NothingInOrder(flows: seq<Flow>)
    ensures InOrderOf(flows, []) && forall todo :: GroupsBelow([], todo)
  {
  }

  lemma GroupIsAbove(grouped: map<int, seq<Flow>>, all: seq<Flow>, log: seq<Routed>, todo: set<int>, group: int)
    requires IsGrouping(grouped, all, |all|) && GroupsBelow(log, todo) && group in todo && group in grouped
    ensures grouped[group] != [] && forall i :: 0 <= i < |log| ==> log[i].flow.packetGroupId < group
  {
    hide OfGroup;
    var i :| 0 <= i < |all| && all[i].packetGroupId == group;
    OfGroupHas(all, |all|, group, all[i]);
    assert all[..|all|] == all && all[i] in all;
  }

  lemma GroupWasInOrder(before: seq<Routed>, log: seq<Routed>, all: seq<Flow>, grouped: map<int, seq<Flow>>, todo: set<int>, group: int)
    requires InOrderOf(all, before) && GroupsBelow(before, todo) && IsLeastGroup(todo, group) && group in grouped
    requires IsGrouping(grouped, all, |all|) && |log| == |before| + |grouped[group]| && log[..|before|] == before
    requires FlowsIn(log) == FlowsIn(before) + grouped[group]
    ensures InOrderOf(all, log) && GroupsBelow(log, todo - {group})
  {
    hide InOrderOf, OfGroup;
    forall i | 0 <= i < |grouped[group]| ensures log[|before| + i].flow == grouped[group][i] {
      assert FlowsIn(log)[|before| + i] == log[|before| + i].flow;
    }
    GroupInOrder(all, before, log, group);
  }

  lemma SolvedSources(g: Fabric, log: seq<Routed>, solution: map<PhysPort, SwitchSettings>)
    requires AllSolved(g, log, solution)
    ensures solution.Keys == Sources(log)
  {
  }

  lemma SameSourceSameFlow(all: seq<Flow>, e: Flow, f: Flow)
    requires DistinctSources(all) && e in all && f in all && e.src == f.src
    ensures e == f
  {
  }

  lemma GroupCanRoute(g: Fabric, grouped: map<int, seq<Flow>>, all: seq<Flow>, group: int, done: set<int>, log: seq<Routed>,
                      solution: map<PhysPort, SwitchSettings>)
    requires IsGrouping(grouped, all, |all|) && DistinctSources(all) && (forall f :: f in all ==> Routable(g, f))
    requires group in grouped && group !in done && RoutedSoFar(log, all, done) && solution.Keys == Sources(log)
    ensures CanRoute(g, grouped[group], group) && forall f :: f in grouped[group] ==> f.src !in solution
  {
    hide Routable, OfGroup, DistinctSources;
    OfGroupDistinct(all, |all|, group);
    assert all[..|all|] == all;
    forall f | f in grouped[group] ensures f in all && f.packetGroupId == group && f.src !in solution {
      OfGroupHas(all, |all|, group, f);
      if f.src in solution {
        var i :| 0 <= i < |log| && log[i].flow.src == f.src;
        assert FlowsIn(log)[i] == log[i].flow;
        SameSourceSameFlow(all, log[i].flow, f);
      }
    }
  }

  lemma GroupIsRouted(before: seq<Routed>, log: seq<Routed>, all: seq<Flow>, grouped: map<int, seq<Flow>>, group: int, done: set<int>)
    requires RoutedSoFar(before, all, done) && IsGrouping(grouped, all, |all|) && group in grouped && DistinctSources(all) && group !in done
    requires FlowsIn(log) == FlowsIn(before) + grouped[group]
    ensures RoutedSoFar(log, all, done + {group})
  {
    hide OfGroup, FlowsIn;
    assert all[..|all|] == all;
    forall f ensures f in grouped[group] <==> f in all && f.packetGroupId == group {
      OfGroupHas(all, |all|, group, f);
    }
    OfGroupDistinct(all, |all|, group);
    forall e, f | e in FlowsIn(before) && f in grouped[group] ensures e.src != f.src {
      if e.src == f.src { SameSourceSameFlow(all, e, f); }
    }
    JoinedDistinct(FlowsIn(before), grouped[group]);
  }

  lemma JoinedDistinct(a: seq<Flow>, b: seq<Flow>)
    requires DistinctSources(a) && DistinctSources(b) && forall e, f :: e in a && f in b ==> e.src != f.src
    ensures DistinctSources(a + b)
  {
  }

  lemma AllAreRouted(log: seq<Routed>, all: seq<Flow>, grouped: map<int, seq<Flow>>)
    requires RoutedSoFar(log, all, grouped.Keys) && IsGrouping(grouped, all, |all|)
    ensures DistinctSources(FlowsIn(log)) && forall f :: f in FlowsIn(log) <==> f in all
  {
    hide FlowsIn, OfGroup;
    forall f | f in all ensures f.packetGroupId in grouped {
      var i :| 0 <= i < |all| && all[i] == f;
    }
  }

  ghost function Illegal(g: Fabric, cs: set<Channel>): set<Channel>
    requires cs <= g.Keys
  {
    set c | c in cs && g[c].usedCapacity > MAX_CIRCUIT_STREAM_CAPACITY
  }

  lemma OneMoreIllegal(g: Fabric, cs: set<Channel>, c: Channel)
    requires cs <= g.Keys && c in g && c !in cs
    ensures |Illegal(g, cs + {c})| == |Illegal(g, cs)| + if g[c].usedCapacity > MAX_CIRCUIT_STREAM_CAPACITY then 1 else 0
  {
    if g[c].usedCapacity > MAX_CIRCUIT_STREAM_CAPACITY {
      assert Illegal(g, cs + {c}) == Illegal(g, cs) + {c};
    } else {
      assert Illegal(g, cs + {c}) == Illegal(g, cs);
    }
  }

  lemma NothingIllegal(g: Fabric)
    ensures Illegal(g, {}) == {}
    ensures Illegal(g, g.Keys) == {} <==> forall c :: c in g ==> g[c].usedCapacity <= MAX_CIRCUIT_STREAM_CAPACITY
  {
    assert forall c :: c in g && g[c].usedCapacity > MAX_CIRCUIT_STREAM_CAPACITY ==> c in Illegal(g, g.Keys);
  }

  /** The graph has the connections and the fixed packet flows of `g`, and demands of at least 1. */
  ghost predicate Prepared(g: Fabric, h: Fabric) {
    && SameConnections(g, h) && WellFormed(g) && DemandAtLeastOne(h)
    && forall c :: c in g ==> h[c].fixedPacketFlowCount == g[c].fixedPacketFlowCount
  }

  ghost predicate Ready(g: Fabric, h: Fabric, channels: map<PhysPort, seq<PhysPort>>) {
    Prepared(g, h) && CacheAgrees(channels, h)
  }

  /** The flows are of this group, from different source ports, and have destinations that can be reached. */
  ghost predicate CanRoute(g: Fabric, flows: seq<Flow>, group: int) {
    && DistinctSources(flows)
    && forall i :: 0 <= i < |flows| ==> flows[i].packetGroupId == group && Routable(g, flows[i])
  }

  ghost predicate Routable(g: Fabric, f: Flow) {
    f.src.direction == Src && forall k :: 0 <= k < |f.dsts| ==> f.dsts[k] == f.src || Reachable(g, f.src, f.dsts[k])
  }

  function FlowsIn(log: seq<Routed>): seq<Flow> {
    seq(|log|, i requires 0 <= i < |log| => log[i].flow)
  }

  lemma FlowsInGrows(log: seq<Routed>, r: Routed, before: seq<Flow>, flows: seq<Flow>, n: nat)
    requires n < |flows| && r.flow == flows[n] && FlowsIn(log) == before + flows[..n]
    ensures FlowsIn(log + [r]) == before + flows[..n + 1]
  {
    assert FlowsIn(log + [r]) == FlowsIn(log) + [flows[n]];
  }

  lemma CanRouteOne(g: Fabric, h: Fabric, channels: map<PhysPort, seq<PhysPort>>, flows: seq<Flow>, group: int, n: nat)
    requires Ready(g, h, channels) && CanRoute(g, flows, group) && n < |flows|
    ensures Prepared(g, h) && Searchable(h, flows[n].src) && CacheAgrees(channels, h) && flows[n].packetGroupId == group
    ensures forall i :: 0 <= i < |flows[n].dsts| ==> flows[n].dsts[i] == flows[n].src || Reachable(h, flows[n].src, flows[n].dsts[i])
    ensures forall i :: n < i < |flows| ==> flows[i].src != flows[n].src
  {
    hide Reachable;
    var f := flows[n];
    SameWellFormed(g, h);
    assert Routable(g, f);
    forall i | 0 <= i < |f.dsts| && f.dsts[i] != f.src ensures Reachable(h, f.src, f.dsts[i]) {
      SameReachable(g, h, f.src, f.dsts[i]);
    }
  }

  lemma ReadyTracedIsSolved(g: Fabric, h: Fabric, flow: Flow, s: Search, nodes: seq<PhysPort>, settings: SwitchSettings)
    requires Prepared(g, h) && Searchable(h, flow.src) && s == Result(h, flow.src) && Found(s, flow.src, flow.dsts)
    requires nodes == Traced(s, flow.src, flow.dsts, |flow.dsts|)
    requires settings == SettingsOf(s, flow.src, flow.dsts, |flow.dsts|)
    ensures Solved(g, Routed(flow, h, s, Route(s, PortSet(nodes))), settings)
    ensures NoRepeats(nodes) && forall v :: v in nodes ==> v in s.preds && v.direction == Dst && Into(s, v) in h
  {
    hide Run, Traced, SettingsOf, Ended, WellFormed, NoReturn;
    SameWellFormed(g, h);
    ResultEnds(h, flow.src);
    ResultHasNoReturn(h, flow.src);
    TracedIsSolved(g, h, flow, s, nodes, settings);
  }

  lemma ReadyAfter(g: Fabric, h: Fabric, h2: Fabric, channels: map<PhysPort, seq<PhysPort>>, s: Search, nodes: seq<PhysPort>, group: int)
    requires Prepared(g, h)
    requires h2 == ChargeAll(h, s, nodes, |nodes|, group) && CacheAgrees(channels, h2)
    ensures Ready(g, h2, channels)
  {
    hide ChargeAll, CacheAgrees;
    ChargeAllKeeps(h, s, nodes, |nodes|, group);
  }

  /** Updates that only concern capacities, or raise demands, keep the graph ready. */
  lemma ReadyUpdated(g: Fabric, h: Fabric, h2: Fabric, channels: map<PhysPort, seq<PhysPort>>)
    requires Ready(g, h, channels) && h2.Keys == h.Keys && forall c :: c in h ==> h2[c] == Closed(h[c])
    ensures Ready(g, h2, channels)
  {
    forall c | c in h ensures h2[c].available == h[c].available && h2[c].demand >= 1.0 && h2[c].fixedPacketFlowCount == h[c].fixedPacketFlowCount {
      DemandStaysAtLeastOne(h[c]);
    }
    SameCache(channels, h, h2);
  }

  lemma WalkStarts(g: Fabric, s: Search, settings: SwitchSettings, group: int)
    ensures RecordedAll(settings, s, [], 0) == settings && ChargeAll(g, s, [], 0, group) == g
  {
  }

  lemma TraceStarts(g: Fabric, s: Search, source: PhysPort, group: int)
    ensures ChargeAll(g, s, [], 0, group) == g && PortSet([]) == {}
  {
  }

  lemma TwoPortSets(a: seq<PhysPort>, b: seq<PhysPort>)
    ensures PortSet(a + b) == PortSet(a) + PortSet(b)
  {
  }

  lemma {:induction false} MoreTraced(g: Fabric, s: Search, nodes: seq<PhysPort>, w: seq<PhysPort>, group: int)
    ensures PortSet(nodes + w) == PortSet(nodes) + PortSet(w)
    ensures ChargeAll(ChargeAll(g, s, nodes, |nodes|, group), s, w, |w|, group) == ChargeAll(g, s, nodes + w, |nodes + w|, group)
    ensures ChargeAll(g, s, nodes + w, |nodes + w|, group).Keys == g.Keys
  {
    hide ChargeAll, Into, PortSet;
    TwoPortSets(nodes, w);
    ChargeAllKeeps(g, s, nodes + w, |nodes + w|, group);
    ChargeBoth(g, s, nodes, w, |w|, group);
  }

  lemma IntoIs(s: Search, v: PhysPort)
    requires v in s.preds
    ensures Into(s, v) == ChannelOf(s.preds[v], v)
  {
  }

  lemma WalkGoesOn(s: Search, source: PhysPort, processed: set<PhysPort>, v: PhysPort)
    requires IsTree(s, source) && v !in processed && v in s.preds
    ensures Walk(s, processed, v) == [v] + Walk(s, processed + {v}, s.preds[v])
  {
    TreeStep(s, source, v);
  }

  lemma WalkIsOver(s: Search, processed: set<PhysPort>, v: PhysPort)
    requires v in processed
    ensures Walk(s, processed, v) == []
  {
  }

  /** The search finds every reachable destination, over channels of the graph. */
  lemma FlowIsFound(g: Fabric, s: Search, flow: Flow)
    requires Searchable(g, flow.src) && s == Result(g, flow.src)
    requires forall i :: 0 <= i < |flow.dsts| ==> flow.dsts[i] == flow.src || Reachable(g, flow.src, flow.dsts[i])
    ensures Ended(g, s, flow.src) && IsTree(s, flow.src) && Found(s, flow.src, flow.dsts)
    ensures forall v :: v in s.preds ==> Into(s, v) in g && v.direction == Dst && v in Next(g, s.preds[v])
  {
    hide Ended, Next, Run, Reachable, IsTree;
    ResultEnds(g, flow.src);
    EndedIsTree(g, s, flow.src);
    forall v | v in s.preds ensures Into(s, v) in g && v.direction == Dst {
      NextHasChannel(g, s.preds[v], v);
    }
    forall i | 0 <= i < |flow.dsts| && flow.dsts[i] != flow.src ensures flow.dsts[i] in s.preds {
      PredsAreReachable(g, flow.src, flow.dsts[i]);
    }
  }

  lemma RouteRaises(g: Fabric, s: Search, flow: Flow, nodes: seq<PhysPort>)
    requires IsTree(s, flow.src) && Found(s, flow.src, flow.dsts) && nodes == Traced(s, flow.src, flow.dsts, |flow.dsts|)
    requires forall v :: v in s.preds ==> Into(s, v) in g && v.direction == Dst
    ensures RaisedBy(g, ChargeAll(g, s, nodes, |nodes|, flow.packetGroupId), Route(s, PortSet(nodes)), flow.packetGroupId)
  {
    hide IsTree, Into, ChargeAll, RaisedBy, Route, OnPaths, ClosedUnderChain, Traced;
    TracedIsOnPaths(s, flow.src, flow.dsts, |flow.dsts|);
    DemandCharged(g, s, nodes, |nodes|, flow.packetGroupId);
    assert nodes[..|nodes|] == nodes;
  }

  lemma InvParts(g: Fabric, s: Search, source: PhysPort, u: PhysPort, done: set<PhysPort>)
    requires Inv(g, s, source, Some(u), done)
    ensures Shape(s, source) && Finites(s, source) && Colored(s, source, Some(u))
  {
  }

  lemma RunStarts(g: Fabric, source: PhysPort)
    ensures Run(g, source, 0) == Start(source)
  {
  }

  lemma MirrorsQueue(s: Search, distance: DistanceMap<PhysPort>, q: DAryHeap<PhysPort>, preds: map<PhysPort, PhysPort>,
                     colors: map<PhysPort, Color>)
    requires Mirrors(s, distance, q, preds, colors)
    ensures q.data == s.queue && preds == s.preds
  {
  }

  lemma MirrorsBlack(s: Search, distance: DistanceMap<PhysPort>, q: DAryHeap<PhysPort>, preds: map<PhysPort, PhysPort>,
                     colors: map<PhysPort, Color>, u: PhysPort)
    requires Mirrors(s, distance, q, preds, colors)
    ensures Mirrors(s.(colors := s.colors[u := Black]), distance, q, preds, colors[u := Black])
  {
  }

  lemma StillToPop(g: Fabric, s: Search, source: PhysPort)
    requires Inv(g, s, source, None, {}) && s.queue != []
    ensures |s.rank| <= |Ends(g)| && Keyed(s.queue, s.dist)
  {
    FewerPopped(g, s, source);
    QueueHasKeys(s, source);
  }

  lemma TurnIs(g: Fabric, source: PhysPort, k: nat, list: seq<PhysPort>)
    requires Run(g, source, k).queue != [] && list == NextList(g, Run(g, source, k).queue[0])
    ensures var s := Run(g, source, k);
            var w := VisitAll(g, PopFirst(s), s.queue[0], list, |list|);
            Run(g, source, k + 1) == w.(colors := w.colors[s.queue[0] := Black])
  {
    hide VisitAll, PopFirst, NextList;
  }
}
