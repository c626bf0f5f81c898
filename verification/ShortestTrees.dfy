/** What the search has found when it ends: a tree of all reachable nodes, and when it is a shortest one. */
module ShortestTrees {
  import opened StreamSwitch
  import opened PortOrder
  import opened SwitchFabric
  import opened HeapOrder
  import opened ShortestPaths

  /** The chain of predecessors from the source to `v`. */
  ghost function Chain(s: Search, v: PhysPort): seq<PhysPort>
    decreases if v in s.rank then s.rank[v] else 0
  {
    if v in s.preds && v in s.rank && s.preds[v] in s.rank && s.rank[s.preds[v]] < s.rank[v]
    then Chain(s, s.preds[v]) + [v]
    else [v]
  }

  ghost predicate Ended(g: Fabric, s: Search, source: PhysPort) {
    Inv(g, s, source, None, {}) && s.queue == []
  }

  lemma ResultEnds(g: Fabric, source: PhysPort)
    requires Searchable(g, source)
    ensures Ended(g, Result(g, source), source)
  {
    hide Run;
    hide Inv;
    RunKeeps(g, source, |Ends(g)| + 1);
    SearchEnds(g, source);
  }

  /** At the end all nodes have been popped. */
  lemma AllPopped(g: Fabric, s: Search, source: PhysPort)
    requires Ended(g, s, source)
    ensures s.rank.Keys == s.dist.Keys && source in s.rank && s.preds.Keys == s.dist.Keys - {source}
    ensures forall v :: v in s.preds ==> Justified(g, s, v) && s.rank[s.preds[v]] < s.rank[v]
    ensures s.dist[source] == Finite(0.0) && forall v :: v in s.dist ==> s.dist[v].Finite?
  {
    assert PortSet(s.queue) == {};
    hide Explored, MissedSomewhere, InOrder, QueueOrdered, Known, Colored, Ranked;
    assert Shape(s, source);
  }

  // ---------- The tree ----------

  lemma PathGrows(g: Fabric, source: PhysPort, p: seq<PhysPort>, u: PhysPort, v: PhysPort)
    requires PathTo(g, source, p, u) && v in Next(g, u)
    ensures PathTo(g, source, p + [v], v)
    ensures Cost(g, p + [v]) == Cost(g, p) + Weight(g, u, v)
  {
    hide Next;
    hide Weight;
    var q := p + [v];
    assert q[..|q| - 1] == p;
    forall i | 0 < i < |q| ensures q[i] in Next(g, q[i - 1]) {
      if i < |p| { assert p[i] in Next(g, p[i - 1]); }
    }
  }

  /** The chain is a path in the fabric, and the distance is its cost. */
  lemma {:induction false} ChainIsPath(g: Fabric, s: Search, source: PhysPort, v: PhysPort)
    requires Ended(g, s, source) && v in s.dist
    ensures PathTo(g, source, Chain(s, v), v)
    ensures s.dist[v] == Finite(Cost(g, Chain(s, v)))
    ensures v != source ==> |Chain(s, v)| > 1
    decreases s.rank[v]
  {
    hide Next, Weight, Ended, Chain, PathTo, Cost;
    if v == source {
      ChainStarts(g, s, source);
    } else {
      var u := ChainLastStep(g, s, source, v);
      ChainIsPath(g, s, source, u);
      PathGrows(g, source, Chain(s, u), u, v);
    }
  }

  lemma ChainStarts(g: Fabric, s: Search, source: PhysPort)
    requires Ended(g, s, source)
    ensures PathTo(g, source, Chain(s, source), source)
    ensures source in s.dist && s.dist[source] == Finite(Cost(g, Chain(s, source)))
  {
    hide Next, Weight;
    AllPopped(g, s, source);
  }

  /** The last step of the chain to a node. */
  lemma ChainLastStep(g: Fabric, s: Search, source: PhysPort, v: PhysPort) returns (u: PhysPort)
    requires Ended(g, s, source) && v in s.dist && v != source
    ensures u in s.dist && u in s.rank && v in s.rank && s.rank[u] < s.rank[v]
    ensures v in Next(g, u) && s.dist[v] == Extend(s.dist[u], Weight(g, u, v))
    ensures Chain(s, v) == Chain(s, u) + [v] && Chain(s, u) != []
  {
    hide Next, Weight;
    AllPopped(g, s, source);
    assert Justified(g, s, v);
    u := s.preds[v];
    hide Ended;
  }

  /** At the end every connection of a found node has been looked at. */
  lemma AllExplored(g: Fabric, s: Search, source: PhysPort, u: PhysPort, v: PhysPort)
    requires Ended(g, s, source) && u in s.dist && v in Next(g, u)
    ensures v in s.dist && (Settled(g, s, u, v) || s.missed)
  {
    hide Next;
    AllPopped(g, s, source);
    hide Shape, Ranked, Finites, Colored, Tree, MissedSomewhere, InOrder, QueueOrdered, Known;
    assert Seen(g, s, None, {}, u, v);
  }

  /** No path leads out of the nodes that have been found. */
  lemma {:induction false} PathsStayInside(g: Fabric, s: Search, source: PhysPort, p: seq<PhysPort>, v: PhysPort)
    requires Ended(g, s, source) && PathTo(g, source, p, v)
    ensures v in s.dist
    decreases |p|
  {
    hide Next;
    AllPopped(g, s, source);
    hide Ended;
    if |p| > 1 {
      var q, u := p[..|p| - 1], p[|p| - 2];
      assert PathTo(g, source, q, u);
      PathsStayInside(g, s, source, q, u);
      assert p[|p| - 1] in Next(g, p[|p| - 2]);
      AllExplored(g, s, source, u, v);
    }
  }

  /** `preds` holds exactly the nodes that can be reached by at least one connection. */
  lemma PredsAreReachable(g: Fabric, source: PhysPort, v: PhysPort)
    requires Searchable(g, source)
    ensures v in Result(g, source).preds <==> Reachable(g, source, v)
  {
    hide Next;
    var s := Result(g, source);
    ResultEnds(g, source);
    AllPopped(g, s, source);
    if v in s.preds {
      ChainIsPath(g, s, source, v);
    }
    if Reachable(g, source, v) {
      var p :| |p| > 1 && PathTo(g, source, p, v);
      PathsStayInside(g, s, source, p, v);
      NextHasChannel(g, p[|p| - 2], v);
    }
  }

  /**
   * The predecessors form a tree: every node is popped once, after its predecessor, is connected to
   * it, and its distance is the cost of the chain of predecessors.
   */
  lemma PredsAreTree(g: Fabric, source: PhysPort, v: PhysPort)
    requires Searchable(g, source) && v in Result(g, source).preds
    ensures var s := Result(g, source);
            && v != source && v in s.rank && s.preds[v] in s.rank && s.rank[s.preds[v]] < s.rank[v]
            && (s.preds[v] == source || s.preds[v] in s.preds)
            && v in Next(g, s.preds[v])
            && PathTo(g, source, Chain(s, v), v)
            && v in s.dist && s.dist[v] == Finite(Cost(g, Chain(s, v)))
  {
    hide Next;
    hide Weight;
    var s := Result(g, source);
    ResultEnds(g, source);
    AllPopped(g, s, source);
    ChainIsPath(g, s, source, v);
    assert Justified(g, s, v);
  }

  /**
   * The predecessor of a node is a neighbour and has one itself or is the source, and every neighbour of
   * the source or of a node with a predecessor has one.
   */
  lemma PredsAreNeighbours(g: Fabric, source: PhysPort)
    requires Searchable(g, source)
    ensures var preds := Result(g, source).preds;
            && (forall v :: v in preds ==> IsNeighbour(g, preds[v], v) && (preds[v] == source || preds[v] in preds))
            && (forall u, v :: (u == source || u in preds) && IsNeighbour(g, u, v) ==> v in preds)
  {
    hide Next, IsNeighbour, Run, Inv;
    var s := Result(g, source);
    ResultEnds(g, source);
    AllPopped(g, s, source);
    forall v | v in s.preds ensures IsNeighbour(g, s.preds[v], v) && (s.preds[v] == source || s.preds[v] in s.preds) {
      assert Justified(g, s, v);
      NextIsNeighbour(g, s.preds[v], v);
    }
    forall u, v | (u == source || u in s.preds) && IsNeighbour(g, u, v) ensures v in s.preds {
      NextIsNeighbour(g, u, v);
      AllExplored(g, s, source, u, v);
      NextHasChannel(g, u, v);
    }
  }

  // ---------- Shortest paths ----------

  /** No path to `v` costs less than its distance. */
  ghost predicate Shortest(g: Fabric, s: Search, source: PhysPort, v: PhysPort) {
    forall p :: PathTo(g, source, p, v) ==> v in s.dist && !Less(Finite(Cost(g, p)), s.dist[v])
  }

  lemma {:induction false} SettledIsShortest(g: Fabric, s: Search, source: PhysPort, p: seq<PhysPort>, v: PhysPort)
    requires Ended(g, s, source) && !s.missed && PathTo(g, source, p, v)
    ensures v in s.dist && !Less(Finite(Cost(g, p)), s.dist[v])
    decreases |p|
  {
    hide Next;
    hide Weight;
    AllPopped(g, s, source);
    hide Ended;
    if |p| > 1 {
      var q, u := p[..|p| - 1], p[|p| - 2];
      assert PathTo(g, source, q, u);
      SettledIsShortest(g, s, source, q, u);
      assert p[|p| - 1] in Next(g, p[|p| - 2]);
      AllExplored(g, s, source, u, v);
    }
  }

  lemma UnsettledIsNotShortest(g: Fabric, s: Search, source: PhysPort)
    requires Ended(g, s, source) && s.missed
    ensures exists v :: !Shortest(g, s, source, v)
  {
    hide Next;
    hide Weight;
    var u, v :| Unsettled(g, s, u, v);
    AllPopped(g, s, source);
    hide Ended;
    ShorterChain(g, s, source, u, v);
    assert !Shortest(g, s, source, v);
  }

  /** The chain to `u`, continued to `v`, costs less than the distance of `v`. */
  lemma ShorterChain(g: Fabric, s: Search, source: PhysPort, u: PhysPort, v: PhysPort)
    requires Ended(g, s, source) && Unsettled(g, s, u, v)
    ensures PathTo(g, source, Chain(s, u) + [v], v)
    ensures v in s.dist && Less(Finite(Cost(g, Chain(s, u) + [v])), s.dist[v])
  {
    hide Next;
    hide Weight;
    AllPopped(g, s, source);
    hide Ended;
    ChainIsPath(g, s, source, u);
    PathGrows(g, source, Chain(s, u), u, v);
  }

  /** All distances are shortest if and only if no relaxation of a black node was passed over. */
  lemma ShortestUnlessMissed(g: Fabric, source: PhysPort)
    requires Searchable(g, source)
    ensures (forall v :: Shortest(g, Result(g, source), source, v)) <==> !Result(g, source).missed
  {
    var s := Result(g, source);
    ResultEnds(g, source);
    if s.missed {
      UnsettledIsNotShortest(g, s, source);
    } else {
      forall v ensures Shortest(g, s, source, v) {
        forall p | PathTo(g, source, p, v) ensures v in s.dist && !Less(Finite(Cost(g, p)), s.dist[v]) {
          SettledIsShortest(g, s, source, p, v);
        }
      }
    }
  }

  /** In every run in which each popped node is a least queued one, all distances are shortest. */
  lemma LeastPopsFindShortest(g: Fabric, source: PhysPort, v: PhysPort)
    requires Searchable(g, source) && Result(g, source).least
    ensures Shortest(g, Result(g, source), source, v)
  {
    hide Shortest;
    ResultEnds(g, source);
    assert !Result(g, source).missed;
    ShortestUnlessMissed(g, source);
  }

  // ---------- When only least nodes are popped ----------

  /** As long as the distance of no queued node is lowered, the queue is a heap and only least nodes are popped. */
  lemma HeapPopsLeast(g: Fabric, source: PhysPort, k: nat)
    requires Searchable(g, source)
    ensures var s := Run(g, source, k);
            !s.lowered ==> HeapOrdered(s.queue, s.dist, ARITY) && s.least
  {
    hide Run;
    hide HeapOrdered;
    RunKeeps(g, source, k);
  }

  /** In every state of the search in which only least nodes have been popped, a queued node is not nearer over the current one. */
  ghost predicate NeverNearer(g: Fabric, source: PhysPort) {
    forall s, u, v, done :: Inv(g, s, source, Some(u), done) && s.least && v in Next(g, u) && v in s.queue ==>
      !Less(Over(g, s.dist, u, v), Key(s.dist, v))
  }

  lemma VisitNeverLowers(g: Fabric, s: Search, source: PhysPort, u: PhysPort, v: PhysPort, done: set<PhysPort>)
    requires Searchable(g, source) && NeverNearer(g, source) && Inv(g, s, source, Some(u), done) && v in Next(g, u)
    ensures !s.lowered ==> !Visit(g, s, u, v).lowered
  {
    hide Next;
    VisitCases(g, s, source, u, v);
    if !s.lowered && v in s.queue {
      assert v in s.dist by { assert v in PortSet(s.queue); }
      assert !Less(Over(g, s.dist, u, v), Key(s.dist, v));
    }
  }

  lemma {:induction false} VisitAllNeverLowers(g: Fabric, s: Search, source: PhysPort, u: PhysPort, list: seq<PhysPort>, n: nat)
    requires Searchable(g, source) && NeverNearer(g, source) && Inv(g, s, source, Some(u), {})
    requires n <= |list| && PortSet(list) <= Next(g, u)
    ensures !s.lowered ==> !VisitAll(g, s, u, list, n).lowered
  {
    hide Inv, Next, Visit, Searchable, NeverNearer;
    if n > 0 {
      VisitAllNeverLowers(g, s, source, u, list, n - 1);
      VisitAllKeeps(g, s, source, u, list, n - 1);
      assert list[n - 1] in PortSet(list);
      VisitNeverLowers(g, VisitAll(g, s, u, list, n - 1), source, u, list[n - 1], PortSet(list[..n - 1]));
    }
  }

  lemma TurnNeverLowers(g: Fabric, s: Search, source: PhysPort)
    requires Searchable(g, source) && NeverNearer(g, source) && Inv(g, s, source, None, {}) && s.queue != [] && !s.lowered
    ensures !Turn(g, s).lowered
  {
    hide Inv, Next, VisitAll, Searchable, Popped, IsLeast, NeverNearer;
    PopKeeps(g, s, source);
    var list := NextList(g, s.queue[0]);
    VisitAllNeverLowers(g, PopFirst(s), source, s.queue[0], list, |list|);
  }

  lemma {:induction false} RunNeverLowers(g: Fabric, source: PhysPort, k: nat)
    requires Searchable(g, source) && NeverNearer(g, source)
    ensures !Run(g, source, k).lowered
  {
    hide Inv, Searchable, Turn, NeverNearer;
    if k > 0 {
      RunNeverLowers(g, source, k - 1);
      if Run(g, source, k - 1).queue != [] {
        RunKeeps(g, source, k - 1);
        TurnNeverLowers(g, Run(g, source, k - 1), source);
      }
    }
  }

  /** Then all distances are shortest. */
  lemma NeverNearerFindsShortest(g: Fabric, source: PhysPort, v: PhysPort)
    requires Searchable(g, source) && NeverNearer(g, source)
    ensures Shortest(g, Result(g, source), source, v)
  {
    hide Run, NeverNearer, Shortest;
    RunNeverLowers(g, source, |Ends(g)| + 1);
    HeapPopsLeast(g, source, |Ends(g)| + 1);
    LeastPopsFindShortest(g, source, v);
  }

  ghost predicate SameDemand(g: Fabric, w: real) {
    forall c :: c in g ==> g[c].demand == w
  }

  /** With the same demand everywhere a queued node is never nearer over a node that is popped later. */
  lemma SameDemandNeverNearer(g: Fabric, source: PhysPort, w: real)
    requires Searchable(g, source) && SameDemand(g, w)
    ensures NeverNearer(g, source)
  {
    hide Next;
    forall s, u, v, done | Inv(g, s, source, Some(u), done) && s.least && v in Next(g, u) && v in s.queue
      ensures !Less(Over(g, s.dist, u, v), Key(s.dist, v))
    {
      NextHasChannel(g, u, v);
      QueuedIsFound(g, s, source, u, v, done);
      NextHasChannel(g, s.preds[v], v);
      NearerOver(g, s, source, u, v, done, w);
    }
  }

  lemma QueuedIsFound(g: Fabric, s: Search, source: PhysPort, u: PhysPort, v: PhysPort, done: set<PhysPort>)
    requires Inv(g, s, source, Some(u), done) && v in s.queue && v != source
    ensures v in s.dist && v in s.preds && Justified(g, s, v)
  {
    assert v in PortSet(s.queue);
  }

  lemma NearerOver(g: Fabric, s: Search, source: PhysPort, u: PhysPort, v: PhysPort, done: set<PhysPort>, w: real)
    requires Inv(g, s, source, Some(u), done) && s.least && v in s.preds && SameDemand(g, w)
    requires ChannelOf(u, v) in g && ChannelOf(s.preds[v], v) in g && v in s.dist
    ensures !Less(Over(g, s.dist, u, v), s.dist[v])
  {
    var b := s.preds[v];
    assert Justified(g, s, v);
    assert !Less(Key(s.dist, u), Key(s.dist, b));
  }

  /** With the same demand everywhere, as before the first flow is routed, all distances are shortest. */
  lemma SameDemandFindsShortest(g: Fabric, source: PhysPort, w: real, v: PhysPort)
    requires Searchable(g, source) && SameDemand(g, w)
    ensures Shortest(g, Result(g, source), source, v)
  {
    SameDemandNeverNearer(g, source, w);
    NeverNearerFindsShortest(g, source, v);
  }

  // ---------- The neighbours of the source ----------

  /** All neighbours of the source have been found at distances that are not more than their demands. */
  ghost predicate NearSource(g: Fabric, s: Search, source: PhysPort) {
    forall v :: v in Next(g, source) ==> v in s.dist && Settled(g, s, source, v)
  }

  /** No known distance has become larger. */
  ghost predicate NoFarther(s: Search, t: Search) {
    && s.dist.Keys <= t.dist.Keys && (t.least <==> s.least)
    && forall v :: v in s.dist ==> !Less(s.dist[v], t.dist[v])
  }

  lemma VisitNoFarther(g: Fabric, s: Search, source: PhysPort, u: PhysPort, v: PhysPort, done: set<PhysPort>)
    requires Searchable(g, source) && Inv(g, s, source, Some(u), done) && v in Next(g, u)
    ensures NoFarther(s, Visit(g, s, u, v))
  {
    hide Next, Weight, Pushed, Visit, NoRepeats, Tree, Explored, MissedSomewhere, InOrder, QueueOrdered, Known, Ranked;
    VisitCases(g, s, source, u, v);
    hide Shape, Colored, Searchable;
  }

  lemma {:induction false} VisitAllNoFarther(g: Fabric, s: Search, source: PhysPort, u: PhysPort, list: seq<PhysPort>, n: nat)
    requires Searchable(g, source) && Inv(g, s, source, Some(u), {}) && n <= |list| && PortSet(list) <= Next(g, u)
    ensures NoFarther(s, VisitAll(g, s, u, list, n))
  {
    hide Inv, Next, Visit, Searchable;
    if n > 0 {
      VisitAllNoFarther(g, s, source, u, list, n - 1);
      VisitAllKeeps(g, s, source, u, list, n - 1);
      assert list[n - 1] in PortSet(list);
      VisitNoFarther(g, VisitAll(g, s, u, list, n - 1), source, u, list[n - 1], PortSet(list[..n - 1]));
    }
  }

  lemma TurnNoFarther(g: Fabric, s: Search, source: PhysPort)
    requires Searchable(g, source) && Inv(g, s, source, None, {}) && s.queue != []
    ensures NoFarther(PopFirst(s), Turn(g, s)) && PopFirst(s).dist == s.dist
  {
    hide Inv, Next, VisitAll, Searchable, Popped, IsLeast;
    PopKeeps(g, s, source);
    var list := NextList(g, s.queue[0]);
    VisitAllNoFarther(g, PopFirst(s), source, s.queue[0], list, |list|);
  }

  lemma NearSourceStays(g: Fabric, s: Search, t: Search, source: PhysPort)
    requires NearSource(g, s, source) && Finites(s, source) && Finites(t, source) && source in s.dist && source in t.dist
    requires s.dist.Keys <= t.dist.Keys && forall v :: v in s.dist ==> !Less(s.dist[v], t.dist[v])
    ensures NearSource(g, t, source)
  {
    hide Next, Weight;
    forall v | v in Next(g, source) ensures v in t.dist && Settled(g, t, source, v) { assert Settled(g, s, source, v); }
  }

  /** The first turn finds all neighbours of the source. */
  lemma FirstTurn(g: Fabric, source: PhysPort)
    requires Searchable(g, source)
    ensures NearSource(g, Run(g, source, 1), source)
  {
    hide Inv, Turn, Next, Searchable, Settled, Popped;
    var s := Start(source);
    assert Run(g, source, 0) == s;
    RunKeeps(g, source, 0);
    RunKeeps(g, source, 1);
    TurnNoFarther(g, s, source);
    FirstPopIsLeast(s, source);
    SourceIsPopped(g, source);
    NothingMissed(g, Run(g, source, 1), source);
  }

  lemma FirstPopIsLeast(s: Search, source: PhysPort)
    requires s == Start(source)
    ensures PopFirst(s).least
  {
    hide Popped;
  }

  lemma SourceIsPopped(g: Fabric, source: PhysPort)
    requires Searchable(g, source)
    ensures Start(source).queue != [] && source in Turn(g, Start(source)).rank
  {
    hide Inv, Next, VisitAll, Searchable, Popped, IsLeast;
    var s := Start(source);
    StartKeeps(g, source);
    PopKeeps(g, s, source);
    var list := NextList(g, source);
    VisitAllKeeps(g, PopFirst(s), source, source, list, |list|);
  }

  lemma NothingMissed(g: Fabric, s: Search, source: PhysPort)
    requires Inv(g, s, source, None, {}) && s.least && source in s.rank
    ensures NearSource(g, s, source)
  {
    hide Next, Settled, Tree, Shape, Ranked, Finites, Colored, QueueOrdered, Known;
    forall v | v in Next(g, source) ensures v in s.dist && Settled(g, s, source, v) {
      assert Seen(g, s, None, {}, source, v);
    }
  }

  lemma {:induction false} StaysNearSource(g: Fabric, source: PhysPort, k: nat)
    requires Searchable(g, source) && k > 0
    ensures NearSource(g, Run(g, source, k), source)
  {
    hide Inv, Turn, Searchable, NearSource, NoFarther;
    if k == 1 {
      FirstTurn(g, source);
    } else {
      StaysNearSource(g, source, k - 1);
      var s := Run(g, source, k - 1);
      RunKeeps(g, source, k - 1);
      if s.queue != [] {
        TurnKeeps(g, s, source);
        TurnNoFarther(g, s, source);
        NearAfterTurn(g, s, Turn(g, s), source);
      }
    }
  }

  lemma NearAfterTurn(g: Fabric, s: Search, t: Search, source: PhysPort)
    requires NearSource(g, s, source) && Inv(g, s, source, None, {}) && Inv(g, t, source, None, {}) && s.queue != []
    requires NoFarther(PopFirst(s), t) && PopFirst(s).dist == s.dist
    ensures NearSource(g, t, source)
  {
    hide Next, NearSource, Tree, Ranked, Colored, Explored, MissedSomewhere, InOrder, QueueOrdered, Known, PopFirst, NoRepeats;
    NearSourceStays(g, s, t, source);
  }

  /** The node at the place of the source that a connection could enter. */
  function Twin(source: PhysPort): PhysPort {
    source.(direction := Dst)
  }

  /** Nothing is reached over the place of the source but from the source itself. */
  ghost predicate NoReturn(s: Search, source: PhysPort) {
    forall v :: v in s.preds ==> s.preds[v] != Twin(source)
  }

  lemma {:induction false} NotNearerThanSource(g: Fabric, s: Search, source: PhysPort, v: PhysPort)
    requires WellFormed(g) && DemandAtLeastOne(g) && Ended(g, s, source) && v in s.dist
    ensures s.dist[v].Finite? && s.dist[v].value >= if v == source then 0.0 else 1.0
    decreases if v in s.rank then s.rank[v] else 0
  {
    hide Next, Ended, WellFormed;
    AllPopped(g, s, source);
    if v != source {
      assert Justified(g, s, v);
      var u := s.preds[v];
      NotNearerThanSource(g, s, source, u);
      NextHasChannel(g, u, v);
    }
  }

  /** A path that came back to the place of the source would not be taken further: each step costs at least 1. */
  lemma ResultHasNoReturn(g: Fabric, source: PhysPort)
    requires Searchable(g, source) && DemandAtLeastOne(g)
    ensures NoReturn(Result(g, source), source)
  {
    hide Next, Run, Inv, WellFormed;
    var s := Result(g, source);
    ResultEnds(g, source);
    AllPopped(g, s, source);
    StaysNearSource(g, source, |Ends(g)| + 1);
    forall v | v in s.preds ensures s.preds[v] != Twin(source) {
      if s.preds[v] == Twin(source) {
        assert Justified(g, s, v);
        NotNearerThanSource(g, s, source, Twin(source));
        SamePlaceSameNext(g, source, v);
        assert false;
      }
    }
  }

  lemma SamePlaceSameNext(g: Fabric, source: PhysPort, v: PhysPort)
    ensures v in Next(g, Twin(source)) <==> v in Next(g, source)
    ensures Weight(g, Twin(source), v) == Weight(g, source, v)
  {
    var twin := Twin(source);
    assert forall c :: IsInside(g, twin, c) <==> IsInside(g, source, c);
    assert Inside(g, twin) == Inside(g, source);
    assert forall d :: d in DIRECTIONS ==> (IsTied(g, twin, d) <==> IsTied(g, source, d)) && TiedPort(twin, d) == TiedPort(source, d);
    assert Outside(g, twin) == Outside(g, source);
  }
}
