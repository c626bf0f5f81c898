/** Two circuits between two switchboxes with two links: the raised demand of the first makes the second take the other link. */
module ParallelLinks {
  import opened StreamSwitch
  import opened Wiring
  import opened SwitchFabric
  import opened PortOrder
  import opened HeapOrder
  import opened ShortestPaths
  import opened ShortestTrees
  import opened TraceBack
  import opened Flows
  import opened FlowSettings
  import opened Capacity
  import opened FlowCharges
  import opened Solutions
  import opened Rounds
  import opened Router

  const A := TileLoc(0, 0)
  const B := TileLoc(1, 0)
  const FREE := Cell(true, 1.0, 0, 0, 0, 0, -1)

  /** The source of circuit `k`, its destination, and the two ends of link `j`. */
  function S(k: nat): PhysPort { PhysPort(A, Port(Dma, k), Src) }
  function D(k: nat): PhysPort { PhysPort(B, Port(Dma, k), Dst) }
  function E(j: nat): PhysPort { PhysPort(A, Port(East, j), Dst) }
  function W(j: nat): PhysPort { PhysPort(B, Port(West, j), Dst) }

  function Circuit(k: nat): Flow {
    Flow(-1, S(k), [D(k)])
  }

  const FABRIC: Fabric :=
    map[ChannelOf(S(0), E(0)) := FREE, ChannelOf(S(0), E(1)) := FREE, ChannelOf(S(1), E(0)) := FREE, ChannelOf(S(1), E(1)) := FREE,
        ChannelOf(E(0), W(0)) := FREE, ChannelOf(E(1), W(1)) := FREE,
        ChannelOf(W(0), D(0)) := FREE, ChannelOf(W(0), D(1)) := FREE, ChannelOf(W(1), D(0)) := FREE, ChannelOf(W(1), D(1)) := FREE]

  /** The way of circuit `k` over link `j`. */
  function Way(k: nat, j: nat): set<Channel> {
    {ChannelOf(S(k), E(j)), ChannelOf(E(j), W(j)), ChannelOf(W(j), D(k))}
  }

  // ---------- The channels ----------

  /** Where the channels that end in a port come from. */
  lemma OnlyChannels(u: PhysPort, v: PhysPort)
    requires ChannelOf(u, v) in FABRIC && v.direction == Dst
    ensures v in {E(0), E(1)} ==> SamePort(u, S(0)) || SamePort(u, S(1))
    ensures v == W(0) ==> SamePort(u, E(0))
    ensures v == W(1) ==> SamePort(u, E(1))
    ensures v in {D(0), D(1)} ==> SamePort(u, W(0)) || SamePort(u, W(1))
    ensures v in {E(0), E(1), W(0), W(1), D(0), D(1)}
  {
  }

  lemma HasChannels(k: nat, j: nat)
    requires k < 2 && j < 2
    ensures Way(k, j) <= FABRIC.Keys
    ensures forall c :: c in FABRIC ==> FABRIC[c] == FREE
  {
  }

  lemma WaysDiffer()
    ensures Way(0, 0) !! Way(1, 1) && Way(0, 1) !! Way(1, 0)
  {
  }

  lemma LinksAreWellFormed()
    ensures WellFormed(FABRIC)
  {
    forall u, d | d in DIRECTIONS && IsTied(FABRIC, u, d) ensures ChannelOf(u, TiedPort(u, d)) in FABRIC {
      var c :| c in FABRIC && c.srcTile == u.tileLoc && c.dstTile == TiedPort(u, d).tileLoc && c.dstPort == TiedPort(u, d).port;
      assert c == ChannelOf(u, TiedPort(u, d));
    }
  }

  lemma Steps(g: Fabric, k: nat, j: nat)
    requires SameConnections(FABRIC, g) && k < 2 && j < 2
    ensures E(j) in Next(g, S(k)) && W(j) in Next(g, E(j)) && D(k) in Next(g, W(j))
  {
    hide Next;
    HasChannels(k, j);
    StepInside(g, S(k), E(j));
    StepOver(g, E(j), Tie(East, West, 1, 0));
    StepInside(g, W(j), D(k));
  }

  lemma CanBeRouted(k: nat)
    requires k < 2
    ensures Routable(FABRIC, Circuit(k))
  {
    hide Next, Reachable, FABRIC;
    Steps(FABRIC, k, 0);
    OneStepReaches(FABRIC, S(k), E(0));
    OneMoreReaches(FABRIC, S(k), E(0), W(0));
    OneMoreReaches(FABRIC, S(k), W(0), D(k));
    assert forall i :: 0 <= i < |Circuit(k).dsts| ==> Circuit(k).dsts[i] == D(k);
  }

  // ---------- Every route takes one of the links ----------

  /** The tree of a circuit leads to a port as the only channel, or one of the two, does. */
  lemma TreeStepIs(s: Search, k: nat, v: PhysPort)
    requires TreeOver(FABRIC, s, S(k)) && k < 2 && v in s.preds
    ensures v in {E(0), E(1)} ==> s.preds[v] == S(k)
    ensures v == W(0) ==> s.preds[v] == E(0) && E(0) in s.preds
    ensures v == W(1) ==> s.preds[v] == E(1) && E(1) in s.preds
    ensures v in {D(0), D(1)} ==> (s.preds[v] == W(0) && W(0) in s.preds) || (s.preds[v] == W(1) && W(1) in s.preds)
  {
    hide Next, FABRIC;
    var u := s.preds[v];
    OnlyChannels(u, v);
    if u in s.preds { OnlyChannels(s.preds[u], u); }
  }

  lemma RouteIsWay(r: Routed, settings: SwitchSettings, k: nat) returns (j: nat)
    requires Solved(FABRIC, r, settings) && k < 2 && r.flow == Circuit(k)
    ensures j < 2 && D(k) in r.tree.preds && r.tree.preds[D(k)] == W(j) && r.route == Way(k, j)
  {
    hide Next, SettingsOf, Chain, FABRIC, OnPaths, IsTree, NoReturn;
    var s := r.tree;
    assert r.flow.dsts[0] == D(k);
    EntersDestination(FABRIC, r, settings, D(k));
    TreeStepIs(s, k, D(k));
    j := if s.preds[D(k)] == W(0) then 0 else 1;
    TreeStepIs(s, k, W(j));
    TreeStepIs(s, k, E(j));
    ChainIs(s, k, j);
    forall c | c in r.route ensures c in Way(k, j) {
      var v :| v in OnPaths(s, S(k), r.flow.dsts, 1) && v in s.preds && Into(s, v) == c;
      OnPathsOnly(s, S(k), r.flow.dsts, 1, v);
    }
    ChainOnPaths(s, S(k), r.flow.dsts, 1, 0);
    assert Into(s, E(j)) in r.route && Into(s, W(j)) in r.route && Into(s, D(k)) in r.route;
  }

  lemma ChainIs(s: Search, k: nat, j: nat)
    requires k < 2 && j < 2 && TreeOver(FABRIC, s, S(k)) && {E(j), W(j), D(k)} <= s.preds.Keys
    requires s.preds[D(k)] == W(j) && s.preds[W(j)] == E(j) && s.preds[E(j)] == S(k)
    ensures PortSet(Chain(s, D(k))) == {S(k), E(j), W(j), D(k)}
  {
    hide Next, FABRIC;
    ChainOf(s, S(k), D(k));
    ChainOf(s, S(k), W(j));
    ChainOf(s, S(k), E(j));
    ChainOf(s, S(k), S(k));
    hide Chain;
  }

  // ---------- The search for the second circuit ----------

  /** The way of the first circuit over link `j` is half as dear again, all other channels cost 1. */
  ghost predicate Raised(h: Fabric, j: nat) {
    SameConnections(FABRIC, h) && forall c :: c in h ==> h[c].demand == if c in Way(0, j) then 1.5 else 1.0
  }

  /** What is so in every state of the search, whatever is visited. */
  ghost predicate During(h: Fabric, s: Search) {
    Shape(s, S(1)) && Finites(s, S(1)) && Tree(h, s) && Known(h, s, S(1))
  }

  lemma NodeIs(h: Fabric, j: nat, s: Search, x: PhysPort)
    requires Raised(h, j) && During(h, s) && x in s.dist
    ensures x == S(1) || (x.direction == Dst && x in {E(0), E(1), W(0), W(1), D(0), D(1)})
  {
    hide FABRIC, Shape, Ranked, Finites, Colored, Tree, Explored, MissedSomewhere, InOrder, QueueOrdered;
    if x != S(1) {
      var c :| c in h && EndOf(c) == x;
      OnlyChannels(PhysPort(c.srcTile, c.srcPort, Dst), x) by { assert ChannelOf(PhysPort(c.srcTile, c.srcPort, Dst), x) == c; }
    }
  }

  /** How a found node was found, and what the last step costs. */
  lemma StepOf(h: Fabric, j: nat, s: Search, v: PhysPort)
    requires Raised(h, j) && WellFormed(h) && During(h, s) && v in s.preds
    ensures var b := s.preds[v];
            && b in s.dist && b in s.rank && ChannelOf(b, v) in FABRIC && v.direction == Dst && s.dist[b].Finite?
            && s.dist[v] == Finite(s.dist[b].value + if ChannelOf(b, v) in Way(0, j) then 1.5 else 1.0)
  {
    hide Next, FABRIC, Explored, MissedSomewhere, InOrder, QueueOrdered, WellFormed, NoRepeats;
    assert Justified(h, s, v);
    NextHasChannel(h, s.preds[v], v);
  }

  lemma LinkDistances(h: Fabric, j: nat, s: Search, i: nat)
    requires Raised(h, j) && WellFormed(h) && During(h, s) && i < 2 && j < 2
    ensures E(i) in s.preds ==> s.preds[E(i)] == S(1) && s.dist[E(i)] == Finite(1.0)
    ensures W(i) in s.preds ==> s.preds[W(i)] == E(i) && s.dist[W(i)] == Finite(if i == j then 2.5 else 2.0)
  {
    hide FABRIC, Raised, During;
    if E(i) in s.preds { OuterDistance(h, j, s, i); }
    if W(i) in s.preds {
      StepOf(h, j, s, W(i));
      var b := s.preds[W(i)];
      OnlyChannels(b, W(i));
      NodeIs(h, j, s, b);
      assert b == E(i);
      FoundHasPred(h, s, b);
      OuterDistance(h, j, s, i);
    }
  }

  lemma OuterDistance(h: Fabric, j: nat, s: Search, i: nat)
    requires Raised(h, j) && WellFormed(h) && During(h, s) && i < 2 && j < 2 && E(i) in s.preds
    ensures s.preds[E(i)] == S(1) && s.dist[E(i)] == Finite(1.0)
  {
    hide FABRIC, Raised;
    StepOf(h, j, s, E(i));
    OnlyChannels(s.preds[E(i)], E(i));
    NodeIs(h, j, s, s.preds[E(i)]);
    SourceIsNear(h, s);
    hide During;
  }

  lemma SourceIsNear(h: Fabric, s: Search)
    requires During(h, s)
    ensures S(1) in s.dist && s.dist[S(1)] == Finite(0.0)
  {
  }

  lemma FoundHasPred(h: Fabric, s: Search, x: PhysPort)
    requires During(h, s) && x in s.dist && x != S(1)
    ensures x in s.preds
  {
  }

  lemma LeastFirst(h: Fabric, s: Search, u: PhysPort, done: set<PhysPort>, b: PhysPort)
    requires Inv(h, s, S(1), Some(u), done) && s.least && b in s.rank
    ensures During(h, s) && u in s.dist && !Less(Key(s.dist, u), Key(s.dist, b))
  {
  }

  /** A destination port that is queued is not nearer over the link that is dearer. */
  lemma NotNearer(h: Fabric, j: nat, s: Search, u: PhysPort, v: PhysPort, done: set<PhysPort>)
    requires Raised(h, j) && j < 2 && WellFormed(h) && Inv(h, s, S(1), Some(u), done) && s.least && v in Next(h, u) && v in s.queue
    ensures !Less(Over(h, s.dist, u, v), Key(s.dist, v))
  {
    hide Next, FABRIC, WellFormed, Over;
    NextHasChannel(h, u, v);
    QueuedIsFound(h, s, S(1), u, v, done);
    var b := s.preds[v];
    LeastFirst(h, s, u, done, b);
    hide Inv;
    StepOf(h, j, s, v);
    NodeIs(h, j, s, v);
    NodeIs(h, j, s, u);
    NodeIs(h, j, s, b);
    OnlyChannels(u, v);
    OnlyChannels(b, v);
    if u == b {
      SameOver(h, s, v, u);
    } else {
      hide During;
      TwoLinks(h, j, s, u, v, b);
    }
  }

  lemma SameOver(h: Fabric, s: Search, v: PhysPort, u: PhysPort)
    requires Justified(h, s, v) && s.preds[v] == u
    ensures !Less(Over(h, s.dist, u, v), Key(s.dist, v))
  {
  }

  lemma TwoLinks(h: Fabric, j: nat, s: Search, u: PhysPort, v: PhysPort, b: PhysPort)
    requires Raised(h, j) && j < 2 && WellFormed(h) && During(h, s) && v in s.preds && b == s.preds[v] && u != b
    requires v in {D(0), D(1)} && u in {W(0), W(1)} && b in {W(0), W(1)} && ChannelOf(u, v) in h
    requires u in s.dist && !Less(Key(s.dist, u), Key(s.dist, b))
    ensures !Less(Over(h, s.dist, u, v), Key(s.dist, v))
  {
    hide FABRIC, Next;
    StepOf(h, j, s, v);
    FoundHasPred(h, s, u);
    FoundHasPred(h, s, b);
    LinkDistances(h, j, s, 0);
    LinkDistances(h, j, s, 1);
    assert h[ChannelOf(u, v)].demand >= 1.0;
    hide During, WellFormed;
  }

  lemma SearchNeverLowers(h: Fabric, j: nat)
    requires Raised(h, j) && j < 2 && WellFormed(h)
    ensures NeverNearer(h, S(1))
  {
    hide Inv, Next, Raised, WellFormed;
    forall s, u, v, done | Inv(h, s, S(1), Some(u), done) && s.least && v in Next(h, u) && v in s.queue
      ensures !Less(Over(h, s.dist, u, v), Key(s.dist, v))
    {
      NotNearer(h, j, s, u, v, done);
    }
  }

  lemma WayCosts(h: Fabric, j: nat, i: nat)
    requires Raised(h, j) && WellFormed(h) && i < 2 && j < 2 && i != j
    ensures var p := [S(1), E(i), W(i), D(1)];
            PathTo(h, S(1), p, D(1)) && Cost(h, p) == 3.0
  {
    hide Next;
    Steps(h, 1, i);
    var p := [S(1), E(i), W(i), D(1)];
    NextHasChannel(h, S(1), E(i));
    NextHasChannel(h, E(i), W(i));
    NextHasChannel(h, W(i), D(1));
    assert p[..3] == [S(1), E(i), W(i)] && p[..3][..2] == [S(1), E(i)] && [S(1), E(i)][..1] == [S(1)];
    hide FABRIC;
    assert Cost(h, [S(1)]) == 0.0;
    assert Cost(h, [S(1), E(i)]) == 1.0;
    assert Cost(h, [S(1), E(i), W(i)]) == 2.0;
  }

  /** The second circuit does not take the link of the first. */
  lemma SecondTakesOther(h: Fabric, j: nat, i: nat)
    requires Raised(h, j) && j < 2 && i < 2 && Searchable(h, S(1))
    requires D(1) in Result(h, S(1)).preds && Result(h, S(1)).preds[D(1)] == W(i)
    ensures i != j
  {
    hide Run, Next, FABRIC, Raised, WellFormed, NoNegativeDemand;
    var s := Result(h, S(1));
    SearchNeverLowers(h, j);
    NeverNearerFindsShortest(h, S(1), D(1));
    WayCosts(h, j, 1 - j);
    ResultEnds(h, S(1));
    EndIsDuring(h, s);
    StepOf(h, j, s, D(1));
    FoundHasPred(h, s, W(i));
    LinkDistances(h, j, s, i);
    hide During, PathTo, Cost, Ended;
  }

  lemma EndIsDuring(h: Fabric, s: Search)
    requires Ended(h, s, S(1))
    ensures During(h, s)
  {
  }

  // ---------- The first round ----------

  /** Both circuits are routed, the first one first. */
  lemma BothInOrder(log: seq<Routed>)
    requires DistinctSources(FlowsIn(log)) && (forall f :: f in FlowsIn(log) <==> f in [Circuit(0), Circuit(1)])
    requires InOrderOf([Circuit(0), Circuit(1)], log)
    ensures |log| == 2 && log[0].flow == Circuit(0) && log[1].flow == Circuit(1)
  {
    var a := RoutedAt(log, Circuit(0));
    var b := RoutedAt(log, Circuit(1));
    assert !ListedBefore([Circuit(0), Circuit(1)], Circuit(1), Circuit(0));
    assert a < b;
    hide DistinctSources, InOrderOf;
    if |log| > 2 {
      IndexIs(log, a, b, 0);
      IndexIs(log, a, b, 1);
      IndexIs(log, a, b, 2);
    }
  }

  lemma IndexIs(log: seq<Routed>, a: nat, b: nat, i: nat)
    requires DistinctSources(FlowsIn(log)) && (forall f :: f in FlowsIn(log) <==> f in [Circuit(0), Circuit(1)])
    requires a < |log| && b < |log| && i < |log| && log[a].flow == Circuit(0) && log[b].flow == Circuit(1)
    ensures i == a || i == b
  {
    assert FlowsIn(log)[i] in FlowsIn(log);
    assert FlowsIn(log)[a] == log[a].flow && FlowsIn(log)[b] == log[b].flow && FlowsIn(log)[i] == log[i].flow;
  }

  lemma RoutedAt(log: seq<Routed>, f: Flow) returns (i: nat)
    requires f in FlowsIn(log)
    ensures i < |log| && log[i].flow == f
  {
    i :| i < |log| && FlowsIn(log)[i] == f;
  }

  /** The second circuit finds the demands that the first has left. */
  lemma SecondFinds(start: Fabric, log: seq<Routed>, j: nat)
    requires StartsRound(FABRIC, start, [], None) && InTurn(start, log) && |log| == 2 && j < 2
    requires log[0].flow == Circuit(0) && log[1].flow == Circuit(1) && log[0].route == Way(0, j)
    ensures Raised(log[1].before, j) && Searchable(log[1].before, S(1)) && log[1].tree == Result(log[1].before, S(1))
  {
    hide Run, FABRIC, Way;
    FirstStart(FABRIC, start);
    var h := log[1].before;
    assert NextFrom(log[0], log[1].flow.packetGroupId, h);
    assert RaisedBy(start, h, Way(0, j), -1);
    LinksAreWellFormed();
    SameWellFormed(FABRIC, h);
    hide WellFormed;
  }

  /** So the first round succeeds: the circuits share no channel. */
  lemma FirstRoundFits(r: Round, solution: map<PhysPort, SwitchSettings>, k: Channel)
    requires IsRound(FABRIC, [Circuit(0), Circuit(1)], r, [], None) && AllSolved(FABRIC, r.log, solution)
    requires DistinctSources(FlowsIn(r.log)) && forall f :: f in FlowsIn(r.log) <==> f in [Circuit(0), Circuit(1)]
    ensures Legal(GroupsOn(r.log, k), 0)
  {
    hide FABRIC, Solved, FlowsIn, DistinctSources, Legal, GroupsOn, StartsRound, InTurn, InOrderOf, Way, Raised, Searchable, Run;
    BothInOrder(r.log);
    var i := RouteIsWay(r.log[0], solution[S(0)], 0);
    var j := RouteIsWay(r.log[1], solution[S(1)], 1);
    SecondFinds(r.start, r.log, i);
    SecondTakesOther(r.log[1].before, i, j);
    WaysDiffer();
    SingleUserIsLegal(r.log, k);
  }

  lemma NoFailure(r: Round, over: set<Channel>)
    requires IsRound(FABRIC, [Circuit(0), Circuit(1)], r, [], None)
    requires FailedRound(FABRIC, [Circuit(0), Circuit(1)], r.log, over)
    ensures over == {}
  {
    hide IsRound, AllSolved, FlowsIn, DistinctSources, Legal, GroupsOn;
    var solution :| AllSolved(FABRIC, r.log, solution);
    forall k | k in FABRIC ensures k !in over {
      FirstRoundFits(r, solution, k);
      assert FABRIC[k] == FREE by { HasChannels(0, 0); }
    }
  }

  method AddBoth(router: Router)
    requires router.flows == []
    modifies router`flows
    ensures router.flows == [Circuit(0), Circuit(1)]
  {
    router.AddFlow(A, Port(Dma, 0), B, Port(Dma, 0), false);
    assert router.flows == [Circuit(0)];
    router.AddFlow(A, Port(Dma, 1), B, Port(Dma, 1), false);
  }

  lemma Different()
    ensures DistinctSources([Circuit(0), Circuit(1)])
  {
  }

  /** The router finds both routes, even when it is given one round only. */
  method RouteInParallel(maxIterations: int) returns (r: Option<map<PhysPort, SwitchSettings>>)
    requires maxIterations > 0
    ensures r.Some?
  {
    hide FABRIC, WellFormed, Routable, DistinctSources, FlowsIn, FailedRound, CacheAgrees, IsRound, FixedForLeast, Alike;
    var router := new Router(1, 0, FABRIC);
    AddBoth(router);
    LinksAreWellFormed();
    CanBeRouted(0);
    CanBeRouted(1);
    Different();
    ghost var log, over, rounds;
    r, log, over, rounds := router.FindPaths(maxIterations);
    if r.None? {
      assert over[0] != {} && FailedRound(FABRIC, [Circuit(0), Circuit(1)], rounds[0].log, over[0]);
      assert over[..0] == [] && IsRound(FABRIC, [Circuit(0), Circuit(1)], rounds[0], over[..0], None);
      NoFailure(rounds[0], over[0]);
    }
  }
}
