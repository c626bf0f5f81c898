/** Two circuits to one destination: every solution, and so the router, drives the destination port from both sources. */
module SharedDestination {
  import opened StreamSwitch
  import opened SwitchFabric
  import opened ShortestPaths
  import opened ShortestTrees
  import opened TraceBack
  import opened Flows
  import opened FlowSettings
  import opened Capacity
  import opened FlowCharges
  import opened Solutions
  import opened Rounds
  import opened Router

  const TILE := TileLoc(0, 2)
  const S0 := PhysPort(TILE, Port(Dma, 0), Src)
  const S1 := PhysPort(TILE, Port(Dma, 1), Src)
  const D := PhysPort(TILE, Port(Core, 0), Dst)
  const FREE := Cell(true, 1.0, 0, 0, 0, 0, -1)

  /** One switchbox in which both sources can be connected to the destination. */
  const FABRIC: Fabric := map[ChannelOf(S0, D) := FREE, ChannelOf(S1, D) := FREE]

  function Circuit(src: PhysPort): Flow {
    Flow(-1, src, [D])
  }

  lemma OnlyChannels(c: Channel)
    requires c in FABRIC
    ensures c == ChannelOf(S0, D) || c == ChannelOf(S1, D)
  {
  }

  /** In any tree over the graph the destination comes right after the source. */
  lemma EnteredFromSource(s: Search, src: PhysPort)
    requires TreeOver(FABRIC, s, src) && D in s.preds && (src == S0 || src == S1)
    ensures s.preds[D] == src
  {
    hide Next;
    var u := s.preds[D];
    OnlyChannels(Into(s, D));
    if u != src {
      assert u in s.preds && Into(s, u) in FABRIC;
      OnlyChannels(Into(s, u));
      assert false;
    }
  }

  lemma CircuitEnters(r: Routed, settings: SwitchSettings, src: PhysPort)
    requires Solved(FABRIC, r, settings) && r.flow == Circuit(src) && (src == S0 || src == S1)
    ensures Enters(r, D) && Into(r.tree, D) == ChannelOf(src, D) && HasPair(settings, TILE, src.port, D.port)
  {
    hide Next, SettingsOf, Chain, HasPair, Balanced, DrivenOnce;
    assert r.flow.dsts[0] == D;
    EnteredFromSource(r.tree, src);
    ChainOnPaths(r.tree, src, r.flow.dsts, 1, 0);
    ChainHasEnd(r.tree, D);
    SolvedSettings(FABRIC, r, settings, TILE, src.port, D.port);
  }

  /** Every solution of the two circuits, legal or not, connects both sources to the one destination port. */
  lemma BothDriveOnePort(log: seq<Routed>, solution: map<PhysPort, SwitchSettings>, i: nat, j: nat)
    requires AllSolved(FABRIC, log, solution) && i < |log| && j < |log|
    requires log[i].flow == Circuit(S0) && log[j].flow == Circuit(S1)
    ensures Enters(log[i], D) && Enters(log[j], D) && Into(log[i].tree, D) != Into(log[j].tree, D)
    ensures HasPair(solution[S0], TILE, S0.port, D.port) && HasPair(solution[S1], TILE, S1.port, D.port)
  {
    hide Solved, HasPair, Enters;
    CircuitEnters(log[i], solution[S0], S0);
    CircuitEnters(log[j], solution[S1], S1);
  }

  // ---------- The router accepts it ----------

  /** Any route of such a circuit is the one channel from its source to the destination. */
  lemma CircuitRoute(r: Routed, settings: SwitchSettings, src: PhysPort)
    requires Solved(FABRIC, r, settings) && r.flow == Circuit(src) && (src == S0 || src == S1)
    ensures r.route == {ChannelOf(src, D)}
  {
    hide Next, SettingsOf, Chain, OnPaths, HasPair;
    CircuitEnters(r, settings, src);
    EntersAndLeaves(FABRIC, r, settings, D);
    forall v | v in r.tree.preds ensures Into(r.tree, v) == ChannelOf(src, D) {
      OnlyChannels(Into(r.tree, v));
      EnteredFromSource(r.tree, src);
    }
  }

  /** The log has both circuits, each once. */
  ghost predicate BothRouted(log: seq<Routed>) {
    DistinctSources(FlowsIn(log)) && forall f :: f in FlowsIn(log) <==> f in [Circuit(S0), Circuit(S1)]
  }

  lemma RoutedAt(log: seq<Routed>, f: Flow) returns (i: nat)
    requires f in FlowsIn(log)
    ensures i < |log| && log[i].flow == f
  {
    i :| i < |log| && FlowsIn(log)[i] == f;
  }

  lemma RoutedIsCircuit(log: seq<Routed>, i: nat)
    requires BothRouted(log) && i < |log|
    ensures log[i].flow == Circuit(S0) || log[i].flow == Circuit(S1)
    ensures forall j :: i < j < |log| ==> log[j].flow.src != log[i].flow.src
  {
    assert FlowsIn(log)[i] == log[i].flow && log[i].flow in FlowsIn(log);
    assert forall j :: i < j < |log| ==> FlowsIn(log)[j] == log[j].flow;
  }

  /** Every solution of the two circuits uses every channel legally. */
  lemma AlwaysLegal(log: seq<Routed>, solution: map<PhysPort, SwitchSettings>, k: Channel)
    requires AllSolved(FABRIC, log, solution) && BothRouted(log)
    ensures Legal(GroupsOn(log, k), 0)
  {
    hide Solved, Legal, GroupsOn, BothRouted;
    forall i, j | 0 <= i < j < |log| ensures !(k in log[i].route && k in log[j].route) {
      RoutedIsCircuit(log, i);
      RoutedIsCircuit(log, j);
      CircuitRoute(log[i], solution[log[i].flow.src], log[i].flow.src);
      CircuitRoute(log[j], solution[log[j].flow.src], log[j].flow.src);
    }
    SingleUserIsLegal(log, k);
  }

  /** So no round can fail. */
  lemma NoRoundFails(log: seq<Routed>, over: set<Channel>)
    requires FailedRound(FABRIC, [Circuit(S0), Circuit(S1)], log, over)
    ensures over == {}
  {
    hide AllSolved, Legal, GroupsOn, DistinctSources, FlowsIn;
    var solution :| AllSolved(FABRIC, log, solution);
    forall k | k in FABRIC ensures k !in over {
      AlwaysLegal(log, solution, k);
      assert FABRIC[k] == FREE;
    }
  }

  lemma BothRoutable()
    ensures WellFormed(FABRIC) && Routable(FABRIC, Circuit(S0)) && Routable(FABRIC, Circuit(S1))
  {
    OneTileIsWellFormed(FABRIC, TILE);
    hide WellFormed;
    StepInside(FABRIC, S0, D);
    StepInside(FABRIC, S1, D);
    OneStepReaches(FABRIC, S0, D);
    OneStepReaches(FABRIC, S1, D);
    hide Next, Reachable;
    assert forall k :: 0 <= k < |Circuit(S0).dsts| ==> Circuit(S0).dsts[k] == D;
    assert forall k :: 0 <= k < |Circuit(S1).dsts| ==> Circuit(S1).dsts[k] == D;
  }

  method AddBoth(router: Router)
    requires router.flows == []
    modifies router`flows
    ensures router.flows == [Circuit(S0), Circuit(S1)]
  {
    router.AddFlow(S0.tileLoc, S0.port, D.tileLoc, D.port, false);
    assert router.flows == [Circuit(S0)];
    router.AddFlow(S1.tileLoc, S1.port, D.tileLoc, D.port, false);
  }

  /** The router takes both requests, and its first round is a solution that drives the port twice. */
  method RouteBoth(maxIterations: int) returns (r: Option<map<PhysPort, SwitchSettings>>)
    requires maxIterations > 0
    ensures r.Some? && S0 in r.value && S1 in r.value
    ensures HasPair(r.value[S0], TILE, S0.port, D.port) && HasPair(r.value[S1], TILE, S1.port, D.port)
  {
    hide FABRIC, HasPair, AllSolved, WellFormed, Routable, DistinctSources, FlowsIn, FailedRound, CacheAgrees;
    hide AreRounds, AllLegalOrOverlooked, FixedForLeast, Alike;
    var router := new Router(1, 3, FABRIC);
    AddBoth(router);
    BothRoutable();
    BothDistinct();
    ghost var log, over, rounds;
    r, log, over, rounds := router.FindPaths(maxIterations);
    if r.None? {
      assert over[0] != {} && FailedRound(FABRIC, [Circuit(S0), Circuit(S1)], rounds[0].log, over[0]);
      NoRoundFails(rounds[0].log, over[0]);
    }
    var i := RoutedAt(log, Circuit(S0));
    var j := RoutedAt(log, Circuit(S1));
    SolvedBoth(log, r.value, i, j);
    BothDriveOnePort(log, r.value, i, j);
  }

  lemma BothDistinct()
    ensures DistinctSources([Circuit(S0), Circuit(S1)])
  {
  }

  lemma SolvedBoth(log: seq<Routed>, solution: map<PhysPort, SwitchSettings>, i: nat, j: nat)
    requires AllSolved(FABRIC, log, solution) && i < |log| && j < |log| && log[i].flow == Circuit(S0) && log[j].flow == Circuit(S1)
    ensures S0 in solution && S1 in solution
  {
    hide Solved;
  }
}
