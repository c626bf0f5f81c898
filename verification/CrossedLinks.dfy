/** Two paths that each take two channels of one switchbox in a row, and whose packets get to each other's destination. */
module CrossedLinks {
  import opened StreamSwitch
  import opened Wiring
  import opened SwitchFabric
  import opened ShortestPaths
  import opened ShortestTrees
  import opened TraceBack
  import opened Flows
  import opened FlowSettings
  import opened FlowCharges
  import opened Solutions
  import opened Delivery
  import opened Rounds
  import opened Router

  const A := TileLoc(0, 2)
  const B := TileLoc(0, 3)
  const S := PhysPort(A, Port(Dma, 0), Src)
  const NORTH0 := PhysPort(A, Port(North, 0), Dst)
  const NORTH1 := PhysPort(A, Port(North, 1), Dst)
  const SOUTH0 := PhysPort(B, Port(South, 0), Dst)
  const SOUTH1 := PhysPort(B, Port(South, 1), Dst)
  const D0 := PhysPort(A, Port(Core, 0), Dst)
  const D1 := PhysPort(B, Port(Core, 0), Dst)
  const FREE := Cell(true, 1.0, 0, 0, 0, 0, -1)
  const CIRCUIT := Flow(-1, S, [D0, D1])

  /** One link, and in each switchbox a way through a port of the other link to the destination. */
  const FABRIC: Fabric :=
    map[ChannelOf(S, NORTH0) := FREE, ChannelOf(NORTH0, D0) := FREE, ChannelOf(S, NORTH1) := FREE,
        ChannelOf(NORTH1, SOUTH1) := FREE, ChannelOf(SOUTH1, SOUTH0) := FREE, ChannelOf(SOUTH0, D1) := FREE]

  /** The channels that end in the port. */
  lemma OnlyChannels(u: PhysPort, v: PhysPort)
    requires ChannelOf(u, v) in FABRIC && v.direction == Dst
    ensures v in {NORTH0, NORTH1, SOUTH0, SOUTH1, D0, D1}
    ensures v == NORTH0 || v == NORTH1 ==> SamePort(u, S)
    ensures v == D0 ==> SamePort(u, NORTH0)
    ensures v == SOUTH1 ==> SamePort(u, NORTH1)
    ensures v == SOUTH0 ==> SamePort(u, SOUTH1)
    ensures v == D1 ==> SamePort(u, SOUTH0)
  {
  }

  lemma Entered(s: Search, v: PhysPort, u: PhysPort)
    requires TreeOver(FABRIC, s, S) && v in s.preds && SamePort(s.preds[v], u)
    ensures SamePort(u, S) ==> s.preds[v] == S
    ensures !SamePort(u, S) && u.direction == Dst ==> s.preds[v] == u && u in s.preds
  {
    hide Next;
    assert s.preds[v] != Twin(S);
  }

  /** Every node is entered over the one channel that ends in it. */
  ghost predicate InTree(s: Search) {
    && {NORTH0, NORTH1, SOUTH0, SOUTH1, D0, D1} <= s.preds.Keys
    && s.preds[D0] == NORTH0 && s.preds[NORTH0] == S
    && s.preds[D1] == SOUTH0 && s.preds[SOUTH0] == SOUTH1 && s.preds[SOUTH1] == NORTH1 && s.preds[NORTH1] == S
  }

  /** There is only one tree over the graph. */
  lemma OnlyTree(s: Search)
    requires TreeOver(FABRIC, s, S) && D0 in s.preds && D1 in s.preds
    ensures InTree(s)
  {
    hide TreeOver;
    EnteredFrom(s, D0, NORTH0);
    EnteredFrom(s, NORTH0, S);
    EnteredFrom(s, D1, SOUTH0);
    EnteredFrom(s, SOUTH0, SOUTH1);
    EnteredFrom(s, SOUTH1, NORTH1);
    EnteredFrom(s, NORTH1, S);
  }

  lemma EnteredFrom(s: Search, v: PhysPort, u: PhysPort)
    requires TreeOver(FABRIC, s, S) && v in s.preds && ChannelOf(u, v) in FABRIC
    requires u in {S, NORTH0, NORTH1, SOUTH0, SOUTH1} && v in {NORTH0, NORTH1, SOUTH0, SOUTH1, D0, D1}
    ensures s.preds[v] == u && (u != S ==> u in s.preds)
  {
    hide Next;
    OnlyChannels(s.preds[v], v);
    OnlyChannels(u, v);
    Entered(s, v, u);
  }

  lemma AllOnPaths(r: Routed, settings: SwitchSettings)
    requires Solved(FABRIC, r, settings) && r.flow == CIRCUIT
    ensures InTree(r.tree) && {NORTH0, NORTH1, SOUTH0, SOUTH1, D0, D1} <= Nodes(r)
  {
    hide Next, SettingsOf, OnPaths, TreeOver;
    assert r.flow.dsts[0] == D0 && r.flow.dsts[1] == D1;
    DestinationIsNode(FABRIC, r, settings, 0);
    DestinationIsNode(FABRIC, r, settings, 1);
    OnlyTree(r.tree);
    hide Solved, Nodes, FABRIC;
    PredOnPath(FABRIC, r, settings, D0);
    PredOnPath(FABRIC, r, settings, D1);
    PredOnPath(FABRIC, r, settings, SOUTH0);
    PredOnPath(FABRIC, r, settings, SOUTH1);
  }

  lemma PairsOf(r: Routed, settings: SwitchSettings)
    requires Solved(FABRIC, r, settings) && r.flow == CIRCUIT
    ensures HasPair(settings, A, S.port, NORTH0.port) && HasPair(settings, A, S.port, NORTH1.port)
    ensures HasPair(settings, A, NORTH0.port, D0.port)
    ensures HasPair(settings, B, SOUTH1.port, SOUTH0.port) && HasPair(settings, B, SOUTH0.port, D1.port)
  {
    AllOnPaths(r, settings);
    hide Solved, Nodes, FABRIC, HasPair;
    PairIsHop(FABRIC, r, settings, A, S.port, NORTH0.port);
    PairIsHop(FABRIC, r, settings, A, S.port, NORTH1.port);
    PairIsHop(FABRIC, r, settings, A, NORTH0.port, D0.port);
    PairIsHop(FABRIC, r, settings, B, SOUTH1.port, SOUTH0.port);
    PairIsHop(FABRIC, r, settings, B, SOUTH0.port, D1.port);
  }

  lemma BothDriven(settings: SwitchSettings)
    requires HasPair(settings, A, S.port, NORTH0.port) && HasPair(settings, A, S.port, NORTH1.port)
    requires HasPair(settings, A, NORTH0.port, D0.port)
    requires HasPair(settings, B, SOUTH1.port, SOUTH0.port) && HasPair(settings, B, SOUTH0.port, D1.port)
    ensures Driven(settings, S, D0) && Driven(settings, S, D1)
  {
    hide HasPair, ExistsPathToDest;
    AtEnd(settings, NORTH0);
    GoesOn(settings, NORTH0, NORTH0, D1, 0);
    AtEnd(settings, NORTH1);
    GoesOn(settings, NORTH1, NORTH1, SOUTH0, 0);
    GoesOn(settings, NORTH1, SOUTH0, D0, 1);
  }

  lemma NothingElseDriven(r: Routed, settings: SwitchSettings, v: PhysPort)
    requires Solved(FABRIC, r, settings) && r.flow == CIRCUIT && v.direction == Dst && !OnLink(v) && Driven(settings, S, v)
    ensures v == D0 || v == D1
  {
    hide Driven, HasPair, Next, SettingsOf, OnPaths;
    var p := DrivenIsSet(settings, S, v);
    PairIsHop(FABRIC, r, settings, v.tileLoc, p, v.port);
    assert v == PhysPort(v.tileLoc, v.port, Dst);
    OnlyChannels(r.tree.preds[v], v);
  }

  /** In every solution both paths go twice inside a switchbox, and still both destinations, and no others, get the packets. */
  lemma DeliveredByAccident(r: Routed, settings: SwitchSettings)
    requires Solved(FABRIC, r, settings) && r.flow == CIRCUIT
    ensures TwiceInside(Chain(r.tree, D0)) && TwiceInside(Chain(r.tree, D1))
    ensures Crossed(r) && DeliversExactly(r, settings)
  {
    hide HasPair, Driven, Chain, TwiceInside, Next;
    AllOnPaths(r, settings);
    PairsOf(r, settings);
    BothDriven(settings);
    forall v: PhysPort | v.direction == Dst && !OnLink(v) && Driven(settings, S, v) ensures v == D0 || v == D1 {
      NothingElseDriven(r, settings, v);
    }
    hide Solved, Nodes, FABRIC;
    assert CrossedAt(r, NORTH0);
    ChainHasEnd(r.tree, D0);
    ChainHasEnd(r.tree, D1);
    TwiceOnTheWay(FABRIC, r, settings, D0, D0);
    TwiceOnTheWay(FABRIC, r, settings, D1, D1);
  }

  // ---------- The router returns it ----------

  lemma LinkIsWellFormed()
    ensures WellFormed(FABRIC)
  {
    forall u, d | d in DIRECTIONS && IsTied(FABRIC, u, d) ensures ChannelOf(u, TiedPort(u, d)) in FABRIC {
      var c :| c in FABRIC && c.srcTile == u.tileLoc && c.dstTile == TiedPort(u, d).tileLoc && c.dstPort == TiedPort(u, d).port;
      assert c == ChannelOf(NORTH1, SOUTH1);
    }
  }

  lemma Steps()
    ensures NORTH0 in Next(FABRIC, S) && D0 in Next(FABRIC, NORTH0) && NORTH1 in Next(FABRIC, S)
    ensures SOUTH1 in Next(FABRIC, NORTH1) && SOUTH0 in Next(FABRIC, SOUTH1) && D1 in Next(FABRIC, SOUTH0)
  {
    hide Next;
    StepInside(FABRIC, S, NORTH0);
    StepInside(FABRIC, NORTH0, D0);
    StepInside(FABRIC, S, NORTH1);
    StepOver(FABRIC, NORTH1, Tie(North, South, 0, 1));
    StepInside(FABRIC, SOUTH1, SOUTH0);
    StepInside(FABRIC, SOUTH0, D1);
  }

  lemma CanBeRouted()
    ensures Routable(FABRIC, CIRCUIT)
  {
    hide Next, Reachable, FABRIC;
    Steps();
    OneStepReaches(FABRIC, S, NORTH0);
    OneMoreReaches(FABRIC, S, NORTH0, D0);
    OneStepReaches(FABRIC, S, NORTH1);
    OneMoreReaches(FABRIC, S, NORTH1, SOUTH1);
    OneMoreReaches(FABRIC, S, SOUTH1, SOUTH0);
    OneMoreReaches(FABRIC, S, SOUTH0, D1);
    assert forall k :: 0 <= k < |CIRCUIT.dsts| ==> CIRCUIT.dsts[k] == D0 || CIRCUIT.dsts[k] == D1;
  }

  lemma SecondRequest()
    ensures Added([Flow(-1, S, [D0])], S.tileLoc, S.port, D1.tileLoc, D1.port, false) == [CIRCUIT]
  {
    var flows := [Flow(-1, S, [D0])];
    assert FindSource(flows, S.tileLoc, S.port, 0) == Some(0);
    assert flows[0].dsts + [D1] == CIRCUIT.dsts;
    assert flows[0 := CIRCUIT] == [CIRCUIT];
  }

  method AddRequests(router: Router)
    requires router.flows == []
    modifies router`flows
    ensures router.flows == [CIRCUIT]
  {
    router.AddFlow(S.tileLoc, S.port, D0.tileLoc, D0.port, false);
    assert router.flows == [Flow(-1, S, [D0])];
    SecondRequest();
    router.AddFlow(S.tileLoc, S.port, D1.tileLoc, D1.port, false);
  }

  lemma NoRoundFails(log: seq<Routed>, over: set<Channel>)
    requires FailedRound(FABRIC, [CIRCUIT], log, over)
    ensures over == {}
  {
    hide FailedRound;
    SingleFlowFits(FABRIC, CIRCUIT, log, over);
  }

  lemma Delivered(log: seq<Routed>, solution: map<PhysPort, SwitchSettings>)
    requires AllSolved(FABRIC, log, solution) && DistinctSources(FlowsIn(log)) && forall f :: f in FlowsIn(log) <==> f in [CIRCUIT]
    ensures S in solution && Driven(solution[S], S, D0) && Driven(solution[S], S, D1)
  {
    hide FABRIC, DistinctSources, FlowsIn, Driven, Solved;
    OnlyFlow(log, CIRCUIT);
    DeliveredByAccident(log[0], solution[S]);
    assert D0 in CIRCUIT.dsts && D1 in CIRCUIT.dsts;
  }

  /** The router accepts both requests, with settings that deliver the packets. */
  method RouteCrossed(maxIterations: int) returns (r: Option<map<PhysPort, SwitchSettings>>)
    requires maxIterations > 0
    ensures r.Some? && S in r.value && Driven(r.value[S], S, D0) && Driven(r.value[S], S, D1)
  {
    hide FABRIC, CIRCUIT, WellFormed, Routable, DistinctSources, FlowsIn, FailedRound, CacheAgrees, Driven, Solved, AllSolved;
    hide AreRounds, AllLegalOrOverlooked, FixedForLeast, Alike;
    var router := new Router(1, 3, FABRIC);
    AddRequests(router);
    LinkIsWellFormed();
    CanBeRouted();
    OneSource(CIRCUIT);
    ghost var log, over, rounds;
    r, log, over, rounds := router.FindPaths(maxIterations);
    if r.None? {
      assert over[0] != {} && FailedRound(FABRIC, [CIRCUIT], rounds[0].log, over[0]);
      NoRoundFails(rounds[0].log, over[0]);
    } else {
      Delivered(log, r.value);
    }
  }
}
