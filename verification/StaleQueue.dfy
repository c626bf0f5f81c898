/** A run in which a distance is lowered without an update of the queue, and a path that is not shortest is found. */
module StaleQueue {
  import opened StreamSwitch
  import opened PortOrder
  import opened SwitchFabric
  import opened HeapOrder
  import opened ShortestPaths
  import opened ShortestTrees
  import opened Capacity

  const TILE := TileLoc(0, 0)
  const S := PhysPort(TILE, Port(Dma, 0), Src)
  const A := PhysPort(TILE, Port(Dma, 1), Dst)
  const B := PhysPort(TILE, Port(Dma, 2), Dst)
  const D := PhysPort(TILE, Port(Dma, 3), Dst)

  /** A channel that carries nothing and was over capacity in so many rounds. */
  function Free(overCapacity: nat, demand: real): Cell {
    Cell(true, demand, overCapacity, 0, 0, 0, -1)
  }

  /**
   * One switchbox, in which two channels have a history: S to D costs 4 directly and 3 over A and B,
   * S to B costs 5 directly and 2 over A.
   */
  const FABRIC: Fabric := map[
    ChannelOf(S, A) := Free(0, 1.0), ChannelOf(S, B) := Free(40, 5.0), ChannelOf(S, D) := Free(30, 4.0),
    ChannelOf(A, B) := Free(0, 1.0), ChannelOf(B, D) := Free(0, 1.0)]

  /** The demands are those that the router computes from the histories. */
  lemma DemandsAreUpdated(c: Channel)
    requires c in FABRIC
    ensures WithDemand(FABRIC[c]) == FABRIC[c]
  {
    var cell := FABRIC[c];
    assert cell in {Free(0, 1.0), Free(40, 5.0), Free(30, 4.0)};
  }

  lemma FabricIsSearchable()
    ensures Searchable(FABRIC, S) && DemandAtLeastOne(FABRIC)
  {
    NoTies(S);
  }

  lemma NoTies(u: PhysPort)
    ensures Outside(FABRIC, u) == {}
    ensures WellFormed(FABRIC)
  {
    forall v: PhysPort, d | d in DIRECTIONS ensures !IsTied(FABRIC, v, d) {
      assert TiedPort(v, d).port.bundle != Dma;
    }
  }

  lemma Neighbours()
    ensures NextList(FABRIC, S) == [A, B, D]
    ensures NextList(FABRIC, A) == [B]
    ensures NextList(FABRIC, B) == [D]
    ensures NextList(FABRIC, D) == []
  {
    NextIs(S, [A, B, D]);
    NextIs(A, [B]);
    NextIs(B, [D]);
    NextIs(D, []);
  }

  lemma NextIs(u: PhysPort, list: seq<PhysPort>)
    requires Ascending(list)
    requires forall v :: v in list <==> v.direction == Dst && v.tileLoc == u.tileLoc && ChannelOf(u, v) in FABRIC
    ensures NextList(FABRIC, u) == list
  {
    NoTies(u);
    forall v ensures v in Inside(FABRIC, u) <==> v in list {
      if v in list { assert IsInside(FABRIC, u, ChannelOf(u, v)) && EndOf(ChannelOf(u, v)) == v; }
    }
    assert PortSet(list) == Next(FABRIC, u);
    ListingIs(list);
  }

  // ---------- The run ----------

  const AFTER_S := Search(
    map[S := Finite(0.0), A := Finite(1.0), B := Finite(5.0), D := Finite(4.0)], map[A := S, B := S, D := S],
    map[A := Gray, B := Gray, D := Gray, S := Black], [A, B, D], map[S := 0], false, false, true)

  const AFTER_A := Search(
    map[S := Finite(0.0), A := Finite(1.0), B := Finite(2.0), D := Finite(4.0)], map[A := S, B := A, D := S],
    map[A := Black, B := Gray, D := Gray, S := Black], [D, B], map[S := 0, A := 1], false, true, true)

  const AFTER_D := Search(
    map[S := Finite(0.0), A := Finite(1.0), B := Finite(2.0), D := Finite(4.0)], map[A := S, B := A, D := S],
    map[A := Black, B := Gray, D := Black, S := Black], [B], map[S := 0, A := 1, D := 2], false, true, false)

  const AFTER_B := Search(
    map[S := Finite(0.0), A := Finite(1.0), B := Finite(2.0), D := Finite(4.0)], map[A := S, B := A, D := S],
    map[A := Black, B := Black, D := Black, S := Black], [], map[S := 0, A := 1, D := 2, B := 3], true, true, false)

  lemma PushesNeedNoMove(dist: map<PhysPort, Distance>)
    requires Key(dist, A) == Finite(1.0)
    ensures Pushed([], dist, ARITY, A) == [A]
    ensures Key(dist, B) == Finite(5.0) ==> Pushed([A], dist, ARITY, B) == [A, B]
    ensures Key(dist, D) == Finite(4.0) ==> Pushed([A, B], dist, ARITY, D) == [A, B, D]
  {
    assert [A] + [B] == [A, B] && [A, B] + [D] == [A, B, D];
    assert Parent(1, ARITY) == 0 && Parent(2, ARITY) == 0;
  }

  lemma PopsNeedNoMove(dist: map<PhysPort, Distance>)
    requires Key(dist, D) == Finite(4.0)
    ensures Key(dist, B) == Finite(5.0) ==> Popped([A, B, D], dist, ARITY) == [D, B]
    ensures Popped([D, B], dist, ARITY) == [B]
  {
    assert [A, B, D][0 := D][..2] == [D, B];
    assert [D, B][0 := B][..1] == [B];
    assert Child(0, 0, ARITY) == 1;
  }

  lemma LastPop(v: PhysPort, dist: map<PhysPort, Distance>)
    ensures Popped([v], dist, ARITY) == []
  {
  }

  lemma Seen(u: PhysPort, t0: Search, t1: Search, t2: Search, t3: Search, a: PhysPort, b: PhysPort, c: PhysPort)
    requires t1 == Visit(FABRIC, t0, u, a) && t2 == Visit(FABRIC, t1, u, b) && t3 == Visit(FABRIC, t2, u, c)
    ensures VisitAll(FABRIC, t0, u, [a, b, c], 3) == t3
  {
    hide Visit;
    assert VisitAll(FABRIC, t0, u, [a, b, c], 0) == t0;
    assert VisitAll(FABRIC, t0, u, [a, b, c], 1) == t1;
    assert VisitAll(FABRIC, t0, u, [a, b, c], 2) == t2;
  }

  lemma SeenOne(u: PhysPort, t: Search, a: PhysPort)
    ensures VisitAll(FABRIC, t, u, [a], 1) == Visit(FABRIC, t, u, a)
    ensures VisitAll(FABRIC, t, u, [], 0) == t
  {
    hide Visit;
    assert VisitAll(FABRIC, t, u, [a], 0) == t;
  }

  /** Discovering a node at distance `d`. */
  lemma Discovery(s: Search, v: PhysPort, d: Distance)
    requires ChannelOf(S, v) in FABRIC && v !in s.dist && v !in s.colors && S in s.dist && v != S
    requires s.dist[S] == Finite(0.0) && d == Finite(Weight(FABRIC, S, v))
    ensures Visit(FABRIC, s, S, v) == Discover(s, S, v, d)
  {
    hide Pushed, Weight;
    assert s.dist[v := Infinite][v := d] == s.dist[v := d];
  }

  lemma RankSizes()
    ensures |AFTER_S.rank| == 1 && |AFTER_A.rank| == 2 && |AFTER_D.rank| == 3
    ensures AFTER_A.rank == AFTER_S.rank[A := 1] && AFTER_D.rank == AFTER_A.rank[D := 2] && AFTER_B.rank == AFTER_D.rank[B := 3]
  {
    MapGrows(map[], S, 0);
    MapGrows(AFTER_S.rank, A, 1);
    MapGrows(AFTER_A.rank, D, 2);
  }

  /** The pop of the third turn. */
  lemma ThirdPop()
    ensures PopFirst(AFTER_A) == AFTER_A.(queue := [B], rank := AFTER_D.rank, least := false)
  {
    hide Popped, IsLeast;
    PopsNeedNoMove(AFTER_A.dist);
    DIsNotLeast();
    RankSizes();
  }

  lemma FirstTurn()
    ensures Turn(FABRIC, Start(S)) == AFTER_S
  {
    hide Pushed, Popped, NextList, Visit, VisitAll, IsLeast;
    var dist0: map<PhysPort, Distance> := map[S := Finite(0.0)];
    var dist1 := dist0[A := Finite(1.0)];
    var dist2 := dist1[B := Finite(5.0)];
    var dist3 := dist2[D := Finite(4.0)];
    LastPop(S, dist0);
    PushesNeedNoMove(dist1);
    PushesNeedNoMove(dist2);
    PushesNeedNoMove(dist3);
    var t0 := PopFirst(Start(S));
    var t1 := Discover(t0, S, A, Finite(1.0));
    var t2 := Discover(t1, S, B, Finite(5.0));
    var t3 := Discover(t2, S, D, Finite(4.0));
    Discovery(t0, A, Finite(1.0));
    Discovery(t1, B, Finite(5.0));
    Discovery(t2, D, Finite(4.0));
    Seen(S, t0, t1, t2, t3, A, B, D);
    Neighbours();
    SIsLeast();
    hide Discover;
    assert t3.queue == [A, B, D];
  }

  lemma SIsLeast()
    ensures IsLeast(Start(S), S)
  {
  }

  lemma SecondTurn()
    ensures Turn(FABRIC, AFTER_S) == AFTER_A
  {
    hide Pushed, Popped, NextList;
    PopsNeedNoMove(AFTER_S.dist);
    Neighbours();
    SeenOne(A, PopFirst(AFTER_S), B);
    LoweredVisit(PopFirst(AFTER_S));
    hide Visit, VisitAll, IsLeast;
    assert IsLeast(AFTER_S, A) by { AIsLeast(); }
  }

  lemma AIsLeast()
    ensures IsLeast(AFTER_S, A)
  {
  }

  lemma LoweredVisit(s: Search)
    requires s.dist == AFTER_S.dist && s.colors == AFTER_S.colors
    ensures Visit(FABRIC, s, A, B) == Lower(s, A, B, Finite(2.0))
  {
    hide Pushed;
  }

  lemma ThirdTurn()
    ensures Turn(FABRIC, AFTER_A) == AFTER_D
  {
    hide NextList, Visit, VisitAll, PopFirst;
    ThirdPop();
    Neighbours();
    SeenOne(D, PopFirst(AFTER_A), D);
  }

  lemma DIsNotLeast()
    ensures !IsLeast(AFTER_A, D)
  {
    assert B in AFTER_A.queue;
  }

  lemma FourthTurn()
    ensures Turn(FABRIC, AFTER_D) == AFTER_B
  {
    hide Pushed, Popped, NextList;
    LastPop(B, AFTER_D.dist);
    Neighbours();
    SeenOne(B, PopFirst(AFTER_D), D);
    hide VisitAll, IsLeast;
  }

  lemma EndsAre()
    ensures Ends(FABRIC) == {A, B, D}
  {
    assert forall c :: c in FABRIC ==> EndOf(c) in {A, B, D};
    assert EndOf(ChannelOf(S, A)) == A && EndOf(ChannelOf(S, B)) == B && EndOf(ChannelOf(S, D)) == D;
  }

  /** The four turns: B is lowered below D in the queue, D is popped before it, and then B to D is passed over. */
  lemma TheRun()
    ensures Result(FABRIC, S) == AFTER_B
  {
    hide Turn;
    FirstTurn();
    SecondTurn();
    ThirdTurn();
    FourthTurn();
    assert Run(FABRIC, S, 0) == Start(S);
    assert Run(FABRIC, S, 1) == AFTER_S;
    assert Run(FABRIC, S, 2) == AFTER_A;
    assert Run(FABRIC, S, 3) == AFTER_D;
    assert Run(FABRIC, S, 4) == AFTER_B;
    EndsAre();
    assert |{A, B, D}| == 3;
  }

  /** The cost of a path with one more step. */
  lemma CostOfStep(p: seq<PhysPort>, u: PhysPort, v: PhysPort, cost: real)
    requires p != [] && p[|p| - 1] == u && Cost(FABRIC, p) == cost
    ensures Cost(FABRIC, p + [v]) == cost + Weight(FABRIC, u, v)
  {
    assert (p + [v])[..|p|] == p;
    hide Weight;
  }

  lemma StepInside(u: PhysPort, v: PhysPort)
    requires ChannelOf(u, v) in FABRIC && u.tileLoc == v.tileLoc && v.direction == Dst && FABRIC[ChannelOf(u, v)].available
    ensures v in Next(FABRIC, u)
  {
    assert IsInside(FABRIC, u, ChannelOf(u, v)) && EndOf(ChannelOf(u, v)) == v;
  }

  lemma PathOverB()
    ensures PathTo(FABRIC, S, [S, A, B, D], D)
  {
    StepInside(S, A);
    StepInside(A, B);
    StepInside(B, D);
    hide Next;
    var p := [S, A, B, D];
    forall i | 0 < i < |p| ensures p[i] in Next(FABRIC, p[i - 1]) {
      assert i == 1 || i == 2 || i == 3;
    }
  }

  lemma CostOverB()
    ensures Cost(FABRIC, [S, A, B, D]) == 3.0
  {
    assert Weight(FABRIC, S, A) == 1.0 && Weight(FABRIC, A, B) == 1.0 && Weight(FABRIC, B, D) == 1.0;
    assert Cost(FABRIC, [S]) == 0.0;
    hide Weight, Cost;
    CostOfStep([S], S, A, 0.0);
    assert [S] + [A] == [S, A] && [S, A] + [B] == [S, A, B] && [S, A, B] + [D] == [S, A, B, D];
    CostOfStep([S, A], A, B, 1.0);
    CostOfStep([S, A, B], B, D, 2.0);
  }

  /** All demands are at least 1, and still the distance found for D is 4 when a path costs 3. */
  lemma NotAlwaysShortest()
    ensures Searchable(FABRIC, S) && DemandAtLeastOne(FABRIC)
    ensures forall c :: c in FABRIC ==> WithDemand(FABRIC[c]) == FABRIC[c]
    ensures Key(Result(FABRIC, S).dist, D) == Finite(4.0)
    ensures PathTo(FABRIC, S, [S, A, B, D], D) && Cost(FABRIC, [S, A, B, D]) == 3.0
    ensures !Shortest(FABRIC, Result(FABRIC, S), S, D)
  {
    forall c | c in FABRIC ensures WithDemand(FABRIC[c]) == FABRIC[c] { DemandsAreUpdated(c); }
    hide Run, WithDemand;
    FabricIsSearchable();
    TheRun();
    PathOverB();
    CostOverB();
  }
}
