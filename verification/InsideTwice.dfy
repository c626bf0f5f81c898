/** A route that takes two channels of one switchbox in a row: its settings do not lead to the destination. */
module InsideTwice {
  import opened StreamSwitch
  import opened Wiring
  import opened SwitchFabric
  import opened ShortestPaths
  import opened ShortestTrees
  import opened TraceBack
  import opened Flows
  import opened FlowSettings
  import opened FlowCharges
  import opened Solutions
  import opened Delivery
  import opened Rounds
  import opened Router

  const TILE := TileLoc(0, 2)
  const S := PhysPort(TILE, Port(Dma, 0), Src)
  const M := PhysPort(TILE, Port(South, 0), Dst)
  const D := PhysPort(TILE, Port(Core, 0), Dst)
  const FREE := Cell(true, 1.0, 0, 0, 0, 0, -1)
  const CIRCUIT := Flow(-1, S, [D])

  /** One switchbox with a connection to a port towards the south and one from it. */
  const FABRIC: Fabric := map[ChannelOf(S, M) := FREE, ChannelOf(M, D) := FREE]

  lemma OnlyChannels(c: Channel)
    requires c in FABRIC
    ensures c == ChannelOf(S, M) || c == ChannelOf(M, D)
  {
  }

  /** The tree enters the destination over the port towards the south. */
  lemma OverTheLink(s: Search)
    requires TreeOver(FABRIC, s, S) && D in s.preds
    ensures s.preds[D] == M && M in s.preds && s.preds[M] == S
  {
    hide Next;
    OnlyChannels(Into(s, D));
    OnlyChannels(Into(s, M));
    assert s.preds[M] != Twin(S);
  }

  lemma NeverCrossed(r: Routed, settings: SwitchSettings)
    requires Solved(FABRIC, r, settings)
    ensures !Crossed(r)
  {
    hide Next, SettingsOf, OnPaths;
    forall x ensures !CrossedAt(r, x) {
      if CrossedAt(r, x) {
        OnlyChannels(Into(r.tree, x));
        OnlyChannels(Into(r.tree, Wired(x)));
      }
    }
  }

  /** Every solution sets both connections, and nothing gets to the destination. */
  lemma NotDelivered(r: Routed, settings: SwitchSettings)
    requires Solved(FABRIC, r, settings) && r.flow == CIRCUIT
    ensures HasPair(settings, TILE, S.port, M.port) && HasPair(settings, TILE, M.port, D.port)
    ensures !Driven(settings, S, D)
  {
    hide Next, SettingsOf, OnPaths, Chain, HasPair, Driven, Crossed, IsTree, NoReturn, TwiceInside, Alternates;
    assert r.flow.dsts[0] == D;
    DestinationIsNode(FABRIC, r, settings, 0);
    OverTheLink(r.tree);
    hide Solved, Nodes;
    PredOnPath(FABRIC, r, settings, D);
    PairIsHop(FABRIC, r, settings, TILE, S.port, M.port);
    PairIsHop(FABRIC, r, settings, TILE, M.port, D.port);
    NeverCrossed(r, settings);
    ChainHasEnd(r.tree, D);
    TwiceOnTheWay(FABRIC, r, settings, D, D);
    AlternatesUnlessTwice(FABRIC, r, settings, D);
    DrivenIffAlternates(FABRIC, r, settings, D);
  }

  // ---------- The router returns it ----------

  lemma CanBeRouted()
    ensures WellFormed(FABRIC) && Routable(FABRIC, CIRCUIT)
  {
    OneTileIsWellFormed(FABRIC, TILE);
    hide WellFormed;
    StepInside(FABRIC, S, M);
    StepInside(FABRIC, M, D);
    OneStepReaches(FABRIC, S, M);
    OneMoreReaches(FABRIC, S, M, D);
    hide Next, Reachable;
    assert forall k :: 0 <= k < |CIRCUIT.dsts| ==> CIRCUIT.dsts[k] == D;
  }

  lemma NoRoundFails(log: seq<Routed>, over: set<Channel>)
    requires FailedRound(FABRIC, [CIRCUIT], log, over)
    ensures over == {}
  {
    hide FailedRound;
    SingleFlowFits(FABRIC, CIRCUIT, log, over);
  }

  lemma NothingArrives(log: seq<Routed>, solution: map<PhysPort, SwitchSettings>)
    requires AllSolved(FABRIC, log, solution) && DistinctSources(FlowsIn(log)) && forall f :: f in FlowsIn(log) <==> f in [CIRCUIT]
    ensures S in solution && !Driven(solution[S], S, D)
  {
    hide FABRIC, DistinctSources, FlowsIn, Driven, Solved;
    OnlyFlow(log, CIRCUIT);
    NotDelivered(log[0], solution[S]);
  }

  method AddRequest(router: Router)
    requires router.flows == []
    modifies router`flows
    ensures router.flows == [CIRCUIT]
  {
    router.AddFlow(S.tileLoc, S.port, D.tileLoc, D.port, false);
    assert router.flows == [CIRCUIT];
  }

  /** The router accepts the request, with settings that do not deliver its packets. */
  method RouteTwice(maxIterations: int) returns (r: Option<map<PhysPort, SwitchSettings>>)
    requires maxIterations > 0
    ensures r.Some? && S in r.value && !Driven(r.value[S], S, D)
  {
    hide FABRIC, CIRCUIT, WellFormed, Routable, DistinctSources, FlowsIn, FailedRound, CacheAgrees, Driven, Solved, AllSolved;
    hide AreRounds, AllLegalOrOverlooked, FixedForLeast, Alike;
    var router := new Router(1, 3, FABRIC);
    AddRequest(router);
    CanBeRouted();
    OneSource(CIRCUIT);
    ghost var log, over, rounds;
    r, log, over, rounds := router.FindPaths(maxIterations);
    if r.None? {
      assert over[0] != {} && FailedRound(FABRIC, [CIRCUIT], rounds[0].log, over[0]);
      NoRoundFails(rounds[0].log, over[0]);
    } else {
      NothingArrives(log, r.value);
    }
  }
}
