/** The search of `dijkstraShortestPaths` as a sequence of states, and what it finds. */
module ShortestPaths {
  import opened StreamSwitch
  import opened PortOrder
  import opened SwitchFabric
  import opened HeapOrder

  const ARITY: nat := 4

  datatype Color = Gray | Black

  /**
   * The maps and the queue of the search. The last four fields only observe it: the turn in which a
   * node was popped, whether a relaxation of a black node was passed over, whether the distance of a
   * queued node was lowered, and whether every popped node was a least one.
   */
  datatype Search = Search(
    dist: map<PhysPort, Distance>, preds: map<PhysPort, PhysPort>, colors: map<PhysPort, Color>, queue: seq<PhysPort>,
    rank: map<PhysPort, nat>, missed: bool, lowered: bool, least: bool)

  function Extend(d: Distance, w: real): Distance {
    if d.Finite? then Finite(d.value + w) else Infinite
  }

  /** The distance of `v` over `u`. */
  function Over(g: Fabric, dist: map<PhysPort, Distance>, u: PhysPort, v: PhysPort): Distance {
    Extend(Key(dist, u), Weight(g, u, v))
  }

  function Start(source: PhysPort): Search {
    Search(map[source := Finite(0.0)], map[], map[], [source], map[], false, false, true)
  }

  /** The look at one neighbour `v` of `u`. */
  function Visit(g: Fabric, s: Search, u: PhysPort, v: PhysPort): Search {
    var dist := if v in s.dist then s.dist else s.dist[v := Infinite];
    var relax := Less(Over(g, dist, u, v), Key(dist, v));
    if v !in s.colors then
      var t := if relax
               then s.(dist := dist[v := Over(g, dist, u, v)], preds := s.preds[v := u], colors := s.colors[v := Gray])
               else s.(dist := dist);
      t.(queue := Pushed(s.queue, t.dist, ARITY, v))
    else if s.colors[v] == Gray && relax then
      s.(dist := dist[v := Over(g, dist, u, v)], preds := s.preds[v := u], lowered := true)
    else
      s.(dist := dist, missed := s.missed || relax)
  }

  function VisitAll(g: Fabric, s: Search, u: PhysPort, list: seq<PhysPort>, n: nat): Search
    requires n <= |list|
  {
    if n == 0 then s else Visit(g, VisitAll(g, s, u, list, n - 1), u, list[n - 1])
  }

  /** No queued node is nearer than `u`. */
  ghost predicate IsLeast(s: Search, u: PhysPort) {
    forall q :: q in s.queue ==> !Less(Key(s.dist, q), Key(s.dist, u))
  }

  ghost function PopFirst(s: Search): Search
    requires s.queue != []
  {
    s.(queue := Popped(s.queue, s.dist, ARITY), rank := s.rank[s.queue[0] := |s.rank|],
       least := s.least && IsLeast(s, s.queue[0]))
  }

  /** One turn of the outer loop. */
  ghost function Turn(g: Fabric, s: Search): Search
    requires s.queue != []
  {
    var u := s.queue[0];
    var list := NextList(g, u);
    var t := VisitAll(g, PopFirst(s), u, list, |list|);
    t.(colors := t.colors[u := Black])
  }

  /** The state after `k` turns, or fewer if the queue becomes empty. */
  ghost function Run(g: Fabric, source: PhysPort, k: nat): Search {
    if k == 0 then Start(source)
    else
      var s := Run(g, source, k - 1);
      if s.queue == [] then s else Turn(g, s)
  }

  // ---------- What is so in every state ----------

  /** A node is popped or queued, once, and all but the source have predecessors. */
  ghost predicate Shape(s: Search, source: PhysPort) {
    && NoRepeats(s.queue)
    && s.dist.Keys == s.rank.Keys + PortSet(s.queue)
    && s.rank.Keys !! PortSet(s.queue)
    && source in s.dist
    && s.preds.Keys == s.dist.Keys - {source}
  }

  ghost predicate Ranked(s: Search) {
    forall v :: v in s.rank ==> s.rank[v] < |s.rank|
  }

  ghost predicate Finites(s: Search, source: PhysPort) {
    && (forall v :: v in s.dist ==> s.dist[v].Finite?)
    && Key(s.dist, source) == Finite(0.0)
  }

  /** Black are the popped nodes but the current one, which is the last one popped. */
  ghost predicate Colored(s: Search, source: PhysPort, cur: Option<PhysPort>) {
    && (forall v :: v in s.colors ==> v in s.dist)
    && (forall v :: v in s.dist && v !in s.colors ==> v == source && (v in s.queue || cur == Some(v)))
    && (forall v :: v in s.colors ==> (s.colors[v] == Black <==> v in s.rank && cur != Some(v)))
    && (cur.Some? ==> cur.value in s.rank)
  }

  /** The predecessor of `v` is popped, before `v`, and accounts for the distance of `v`. */
  ghost predicate Justified(g: Fabric, s: Search, v: PhysPort) {
    && v in s.preds && v in s.dist && s.preds[v] in s.rank
    && v in Next(g, s.preds[v])
    && s.dist[v] == Over(g, s.dist, s.preds[v], v)
    && (v in s.rank ==> s.rank[s.preds[v]] < s.rank[v])
  }

  ghost predicate Tree(g: Fabric, s: Search) {
    forall v :: v in s.preds ==> Justified(g, s, v)
  }

  /** The connection has been looked at. */
  ghost predicate Seen(g: Fabric, s: Search, cur: Option<PhysPort>, done: set<PhysPort>, u: PhysPort, v: PhysPort) {
    u in s.rank && v in Next(g, u) && (cur == Some(u) ==> v in done)
  }

  /** The distance of `v` is not more than that over `u`. */
  ghost predicate Settled(g: Fabric, s: Search, u: PhysPort, v: PhysPort) {
    !Less(Over(g, s.dist, u, v), Key(s.dist, v))
  }

  ghost predicate Explored(g: Fabric, s: Search, cur: Option<PhysPort>, done: set<PhysPort>) {
    forall u, v :: Seen(g, s, cur, done, u, v) ==> v in s.dist && (Settled(g, s, u, v) || (s.missed && v in s.rank))
  }

  ghost predicate Unsettled(g: Fabric, s: Search, u: PhysPort, v: PhysPort) {
    u in s.rank && v in s.rank && v in Next(g, u) && !Settled(g, s, u, v)
  }

  ghost predicate MissedSomewhere(g: Fabric, s: Search) {
    s.missed ==> exists u, v :: Unsettled(g, s, u, v)
  }

  /** As long as only least nodes are popped, popped nodes are nearer than queued ones. */
  ghost predicate InOrder(s: Search, cur: Option<PhysPort>) {
    s.least ==>
      && !s.missed
      && (forall b, q :: b in s.rank && q in s.queue ==> !Less(Key(s.dist, q), Key(s.dist, b)))
      && (cur.Some? ==> forall b :: b in s.rank ==> !Less(Key(s.dist, cur.value), Key(s.dist, b)))
  }

  /** As long as no queued node is lowered the queue is a heap and only least nodes are popped. */
  ghost predicate QueueOrdered(s: Search) {
    !s.lowered ==> s.least && HeapOrdered(s.queue, s.dist, ARITY)
  }

  /** Every node is one that the fabric or the caller names. */
  ghost predicate Known(g: Fabric, s: Search, source: PhysPort) {
    s.dist.Keys <= Ends(g) + {source}
  }

  ghost predicate Inv(g: Fabric, s: Search, source: PhysPort, cur: Option<PhysPort>, done: set<PhysPort>) {
    && Shape(s, source) && Ranked(s) && Finites(s, source) && Colored(s, source, cur) && Tree(g, s)
    && Explored(g, s, cur, done) && MissedSomewhere(g, s) && InOrder(s, cur) && QueueOrdered(s) && Known(g, s, source)
  }

  /** What a search needs: no negative demands, and a source port, which no connection enters. */
  ghost predicate Searchable(g: Fabric, source: PhysPort) {
    WellFormed(g) && NoNegativeDemand(g) && source.direction == Src
  }

  // ---------- The queue ----------

  lemma {:induction false} NoRepeatsCount(s: seq<PhysPort>)
    ensures NoRepeats(s) <==> forall p :: multiset(s)[p] <= 1
  {
    if s != [] {
      var init, last := s[..|s| - 1], s[|s| - 1];
      NoRepeatsCount(init);
      assert s == init + [last];
      if NoRepeats(s) {
        assert last !in init;
      } else if NoRepeats(init) {
        assert last in init;
        assert multiset(s)[last] > 1;
      } else {
        var p :| multiset(init)[p] > 1;
        assert multiset(s)[p] > 1;
      }
    }
  }

  lemma SameElements(s: seq<PhysPort>, m: multiset<PhysPort>)
    requires multiset(s) == m
    ensures NoRepeats(s) <==> forall p :: m[p] <= 1
    ensures forall p :: p in PortSet(s) <==> p in m
  {
    NoRepeatsCount(s);
    assert forall p :: p in s <==> p in multiset(s);
  }

  lemma QueueAfterPush(queue: seq<PhysPort>, dist: map<PhysPort, Distance>, v: PhysPort)
    requires NoRepeats(queue) && v !in queue
    ensures NoRepeats(Pushed(queue, dist, ARITY, v))
    ensures PortSet(Pushed(queue, dist, ARITY, v)) == PortSet(queue) + {v}
  {
    hide Pushed;
    hide NoRepeats;
    PushOrders(queue, dist, ARITY, v);
    SameElements(queue, multiset(queue));
    SameElements(Pushed(queue, dist, ARITY, v), multiset(queue) + multiset{v});
  }

  lemma QueueAfterPop(queue: seq<PhysPort>, dist: map<PhysPort, Distance>)
    requires NoRepeats(queue) && queue != []
    ensures NoRepeats(Popped(queue, dist, ARITY))
    ensures PortSet(Popped(queue, dist, ARITY)) == PortSet(queue) - {queue[0]}
  {
    hide Popped;
    hide NoRepeats;
    PopOrders(queue, dist, ARITY);
    SameElements(queue, multiset(queue));
    SameElements(Popped(queue, dist, ARITY), multiset(queue) - multiset{queue[0]});
  }

  /** The order of the queue only depends on the distances of queued nodes. */
  lemma OtherKeys(queue: seq<PhysPort>, dist: map<PhysPort, Distance>, v: PhysPort, d: Distance)
    requires HeapOrdered(queue, dist, ARITY) && v !in queue
    ensures HeapOrdered(queue, dist[v := d], ARITY)
  {
    hide Parent;
    var changed := dist[v := d];
    forall i | 0 <= i < |queue| ensures OrderedAt(queue, changed, ARITY, i) {
      assert OrderedAt(queue, dist, ARITY, i);
      if i > 0 { ParentIsSmaller(i, ARITY); }
    }
  }

  // ---------- The cases of a visit ----------

  lemma WeightIsNotNegative(g: Fabric, u: PhysPort, v: PhysPort)
    requires WellFormed(g) && NoNegativeDemand(g) && v in Next(g, u)
    ensures Weight(g, u, v) >= 0.0 && v.direction == Dst
  {
    NextHasChannel(g, u, v);
  }

  /** How the color of a neighbour tells where it is. */
  lemma ColorTells(s: Search, source: PhysPort, u: PhysPort, v: PhysPort)
    requires Shape(s, source) && Colored(s, source, Some(u)) && v != source
    ensures v in s.colors <==> v in s.dist
    ensures v in s.colors ==> (s.colors[v] == Black <==> v !in s.queue && v != u)
    ensures v in s.dist && v !in s.queue ==> v in s.rank
    ensures v in s.queue ==> v in s.dist && v !in s.rank
    ensures u in s.rank && u in s.dist
  {
    assert v in s.queue <==> v in PortSet(s.queue);
    assert v in s.dist <==> v in s.rank || v in PortSet(s.queue);
  }

  function Discover(s: Search, u: PhysPort, v: PhysPort, d: Distance): Search {
    Search(s.dist[v := d], s.preds[v := u], s.colors[v := Gray], Pushed(s.queue, s.dist[v := d], ARITY, v),
           s.rank, s.missed, s.lowered, s.least)
  }

  function Lower(s: Search, u: PhysPort, v: PhysPort, d: Distance): Search {
    s.(dist := s.dist[v := d], preds := s.preds[v := u], lowered := true)
  }

  /** What a visit does, case by case. */
  lemma VisitCases(g: Fabric, s: Search, source: PhysPort, u: PhysPort, v: PhysPort)
    requires Searchable(g, source) && Shape(s, source) && Finites(s, source) && Colored(s, source, Some(u)) && v in Next(g, u)
    ensures v != source && u in s.rank && u in s.dist && s.dist[u].Finite?
    ensures var d := Over(g, s.dist, u, v);
            && d.Finite? && d.value >= s.dist[u].value
            && Visit(g, s, u, v) ==
               if v !in s.dist then Discover(s, u, v, d)
               else if !Less(d, s.dist[v]) then s
               else if v in s.queue then Lower(s, u, v, d)
               else s.(missed := true)
    ensures v in s.dist && v !in s.queue && Less(Over(g, s.dist, u, v), s.dist[v]) ==> v in s.rank && v != u
  {
    hide Next;
    hide Weight;
    hide Shape;
    hide Colored;
    WeightIsNotNegative(g, u, v);
    ColorTells(s, source, u, v);
    hide Searchable;
    hide Pushed;
    var d := Over(g, s.dist, u, v);
    if v !in s.dist {
      assert s.dist[v := Infinite][v := d] == s.dist[v := d];
      assert Over(g, s.dist[v := Infinite], u, v) == d;
    }
  }

  // ---------- Discovering a node ----------

  /** `v` is a neighbour of the current node `u`, and `d` its distance over `u`. */
  ghost predicate Visiting(g: Fabric, s: Search, source: PhysPort, u: PhysPort, v: PhysPort, d: Distance) {
    && v in Next(g, u) && v != source && u in s.rank && u in s.dist && s.dist[u].Finite?
    && d == Over(g, s.dist, u, v) && d.Finite? && d.value >= s.dist[u].value
    && v in Ends(g)
  }

  lemma DiscoverShape(g: Fabric, s: Search, source: PhysPort, u: PhysPort, v: PhysPort, d: Distance)
    requires Shape(s, source) && Known(g, s, source) && v !in s.dist && v in Ends(g) && v != source
    ensures Shape(Discover(s, u, v, d), source) && Known(g, Discover(s, u, v, d), source)
    ensures forall p :: p in Discover(s, u, v, d).queue <==> p in s.queue || p == v
  {
    hide Pushed;
    hide NoRepeats;
    hide Ends;
    var t := Discover(s, u, v, d);
    assert v !in PortSet(s.queue);
    QueueAfterPush(s.queue, s.dist[v := d], v);
    assert forall p :: p in t.queue <==> p in PortSet(t.queue);
    assert t.dist.Keys == s.dist.Keys + {v};
    assert t.preds.Keys == s.preds.Keys + {v};
  }

  lemma ChangeFinites(s: Search, t: Search, source: PhysPort, v: PhysPort, d: Distance)
    requires Finites(s, source) && v != source && d.Finite? && t.dist == s.dist[v := d]
    ensures Finites(t, source)
  {
  }

  lemma DiscoverColored(s: Search, t: Search, source: PhysPort, u: PhysPort, v: PhysPort, d: Distance)
    requires Colored(s, source, Some(u)) && v != source && v !in s.dist && v !in s.rank && v != u
    requires t.dist == s.dist[v := d] && t.colors == s.colors[v := Gray] && t.rank == s.rank
    requires forall p :: p in t.queue <==> p in s.queue || p == v
    ensures Colored(t, source, Some(u))
  {
  }

  /** The nodes that are justified by popped nodes stay so when another distance changes. */
  lemma StillJustified(g: Fabric, s: Search, t: Search, v: PhysPort, w: PhysPort, d: Distance)
    requires Justified(g, s, w) && v !in s.rank && w != v
    requires t.dist == s.dist[v := d] && t.rank == s.rank && w in t.preds && t.preds[w] == s.preds[w]
    ensures Justified(g, t, w)
  {
  }

  lemma ChangeTree(g: Fabric, s: Search, t: Search, source: PhysPort, u: PhysPort, v: PhysPort, d: Distance)
    requires Tree(g, s) && Visiting(g, s, source, u, v, d) && v !in s.rank
    requires t.dist == s.dist[v := d] && t.preds == s.preds[v := u] && t.rank == s.rank
    ensures Tree(g, t)
  {
    hide Justified;
    forall w | w in t.preds ensures Justified(g, t, w) {
      if w == v {
        assert Over(g, t.dist, u, v) == d;
        Justify(g, t, u, v, d);
      } else {
        StillJustified(g, s, t, v, w, d);
      }
    }
  }

  lemma Justify(g: Fabric, t: Search, u: PhysPort, v: PhysPort, d: Distance)
    requires v in t.preds && t.preds[v] == u && v in t.dist && t.dist[v] == d == Over(g, t.dist, u, v)
    requires u in t.rank && v !in t.rank && v in Next(g, u)
    ensures Justified(g, t, v)
  {
  }

  lemma ChangeExplored(g: Fabric, s: Search, t: Search, source: PhysPort, u: PhysPort, v: PhysPort, d: Distance, done: set<PhysPort>)
    requires Explored(g, s, Some(u), done) && Visiting(g, s, source, u, v, d) && v !in s.rank
    requires t.dist == s.dist[v := d] && t.rank == s.rank && t.missed == s.missed
    requires v in s.dist ==> !Less(s.dist[v], d)
    ensures Explored(g, t, Some(u), done + {v})
  {
    hide Next;
    hide Weight;
    forall a, b | Seen(g, t, Some(u), done + {v}, a, b)
      ensures b in t.dist && (Settled(g, t, a, b) || (t.missed && b in t.rank)) {
      assert a != v && Over(g, t.dist, a, b) == Over(g, s.dist, a, b);
      if !(a == u && b == v) {
        assert Seen(g, s, Some(u), done, a, b);
        if b == v { LessTransitive(d, s.dist[v], Over(g, s.dist, a, b)); }
      }
    }
  }

  lemma ChangeMissed(g: Fabric, s: Search, t: Search, v: PhysPort, d: Distance)
    requires MissedSomewhere(g, s) && v !in s.rank
    requires t.dist == s.dist[v := d] && t.rank == s.rank && t.missed == s.missed
    ensures MissedSomewhere(g, t)
  {
    if s.missed {
      var a, b :| Unsettled(g, s, a, b);
      assert Unsettled(g, t, a, b);
    }
  }

  lemma ChangeInOrder(g: Fabric, s: Search, t: Search, source: PhysPort, u: PhysPort, v: PhysPort, d: Distance)
    requires InOrder(s, Some(u)) && Visiting(g, s, source, u, v, d) && v !in s.rank
    requires t.dist == s.dist[v := d] && t.rank == s.rank && t.missed == s.missed && t.least == s.least
    requires forall q :: q in t.queue ==> q in s.queue || q == v
    ensures InOrder(t, Some(u))
  {
    hide Next;
    hide Over;
    if t.least {
      forall b, q | b in t.rank && q in t.queue ensures !Less(Key(t.dist, q), Key(t.dist, b)) {
        if q == v { assert !Less(Key(s.dist, u), Key(s.dist, b)); }
      }
    }
  }

  lemma DiscoverQueue(s: Search, u: PhysPort, v: PhysPort, d: Distance)
    requires QueueOrdered(s) && v !in s.queue
    ensures QueueOrdered(Discover(s, u, v, d))
    ensures forall q :: q in Discover(s, u, v, d).queue ==> q in s.queue || q == v
  {
    hide HeapOrdered;
    hide Pushed;
    PushOrders(s.queue, s.dist[v := d], ARITY, v);
    assert forall p :: p in Discover(s, u, v, d).queue <==> p in multiset(Discover(s, u, v, d).queue);
    if !s.lowered { OtherKeys(s.queue, s.dist, v, d); }
  }

  lemma DiscoverKeeps(g: Fabric, s: Search, source: PhysPort, u: PhysPort, v: PhysPort, d: Distance, done: set<PhysPort>)
    requires Inv(g, s, source, Some(u), done) && Visiting(g, s, source, u, v, d) && v !in s.dist
    ensures Inv(g, Discover(s, u, v, d), source, Some(u), done + {v})
  {
    DiscoverShape(g, s, source, u, v, d);
    assert v !in s.rank && v !in s.queue by { assert v !in PortSet(s.queue); }
    var t := Discover(s, u, v, d);
    ChangeFinites(s, t, source, v, d);
    DiscoverColored(s, t, source, u, v, d);
    assert Ranked(t);
    hide Shape, Ranked, Finites, Colored, Tree, Explored, MissedSomewhere, InOrder, QueueOrdered, Known, Visiting, Pushed;
    ChangeTree(g, s, t, source, u, v, d);
    ChangeExplored(g, s, t, source, u, v, d, done);
    ChangeMissed(g, s, t, v, d);
    DiscoverQueue(s, u, v, d);
    ChangeInOrder(g, s, t, source, u, v, d);
  }

  // ---------- Lowering a distance, and missing to ----------

  lemma LowerShape(g: Fabric, s: Search, source: PhysPort, u: PhysPort, v: PhysPort, d: Distance)
    requires Shape(s, source) && Known(g, s, source) && v in s.dist && v != source
    ensures Shape(Lower(s, u, v, d), source) && Known(g, Lower(s, u, v, d), source)
  {
    hide NoRepeats;
    hide Ends;
    var t := Lower(s, u, v, d);
    assert t.dist.Keys == s.dist.Keys;
    assert t.preds.Keys == s.preds.Keys;
  }

  lemma LowerColored(s: Search, t: Search, source: PhysPort, u: PhysPort, v: PhysPort, d: Distance)
    requires Colored(s, source, Some(u)) && v in s.dist
    requires t.dist == s.dist[v := d] && t.colors == s.colors && t.rank == s.rank && t.queue == s.queue
    ensures Colored(t, source, Some(u))
  {
  }

  lemma LowerKeeps(g: Fabric, s: Search, source: PhysPort, u: PhysPort, v: PhysPort, d: Distance, done: set<PhysPort>)
    requires Inv(g, s, source, Some(u), done) && Visiting(g, s, source, u, v, d) && v in s.dist && v in s.queue && Less(d, s.dist[v])
    ensures Inv(g, Lower(s, u, v, d), source, Some(u), done + {v})
  {
    LowerShape(g, s, source, u, v, d);
    assert v !in s.rank by { assert v in PortSet(s.queue); }
    var t := Lower(s, u, v, d);
    ChangeFinites(s, t, source, v, d);
    LowerColored(s, t, source, u, v, d);
    assert Ranked(t);
    assert QueueOrdered(t);
    hide Shape, Ranked, Finites, Colored, Tree, Explored, MissedSomewhere, InOrder, QueueOrdered, Known, Visiting;
    ChangeTree(g, s, t, source, u, v, d);
    ChangeExplored(g, s, t, source, u, v, d, done);
    ChangeMissed(g, s, t, v, d);
    ChangeInOrder(g, s, t, source, u, v, d);
  }

  /** A neighbour that is not nearer over `u` is left alone. */
  lemma NothingKeeps(g: Fabric, s: Search, source: PhysPort, u: PhysPort, v: PhysPort, d: Distance, done: set<PhysPort>)
    requires Inv(g, s, source, Some(u), done) && Visiting(g, s, source, u, v, d) && v in s.dist && !Less(d, s.dist[v])
    ensures Inv(g, s, source, Some(u), done + {v})
  {
    hide Next;
    forall a, b | Seen(g, s, Some(u), done + {v}, a, b)
      ensures b in s.dist && (Settled(g, s, a, b) || (s.missed && b in s.rank)) {
      if !(a == u && b == v) { assert Seen(g, s, Some(u), done, a, b); }
    }
  }

  lemma MissKeeps(g: Fabric, s: Search, source: PhysPort, u: PhysPort, v: PhysPort, d: Distance, done: set<PhysPort>)
    requires Inv(g, s, source, Some(u), done) && Visiting(g, s, source, u, v, d) && v in s.dist && v in s.rank && Less(d, s.dist[v])
    ensures Inv(g, s.(missed := true), source, Some(u), done + {v})
  {
    var t := s.(missed := true);
    assert Unsettled(g, t, u, v);
    MissExplored(g, s, u, v, done);
    assert !s.least by {
      assert !Less(Key(s.dist, u), Key(s.dist, v)) || !s.least;
    }
    forall w | w in t.preds ensures Justified(g, t, w) { assert Justified(g, s, w); }
  }

  lemma MissExplored(g: Fabric, s: Search, u: PhysPort, v: PhysPort, done: set<PhysPort>)
    requires Explored(g, s, Some(u), done) && v in s.dist && v in s.rank
    ensures Explored(g, s.(missed := true), Some(u), done + {v})
  {
    hide Next;
    var t := s.(missed := true);
    forall a, b | Seen(g, t, Some(u), done + {v}, a, b)
      ensures b in t.dist && (Settled(g, t, a, b) || (t.missed && b in t.rank)) {
      if !(a == u && b == v) {
        assert Seen(g, s, Some(u), done, a, b);
        assert Settled(g, s, a, b) == Settled(g, t, a, b);
      }
    }
  }

  lemma VisitKeeps(g: Fabric, s: Search, source: PhysPort, u: PhysPort, v: PhysPort, done: set<PhysPort>)
    requires Searchable(g, source) && Inv(g, s, source, Some(u), done) && v in Next(g, u)
    ensures Inv(g, Visit(g, s, u, v), source, Some(u), done + {v})
    ensures Visit(g, s, u, v).rank == s.rank
  {
    hide Visit, Shape, Ranked, Finites, Colored, Tree, Explored, MissedSomewhere, InOrder, QueueOrdered, Known;
    VisitCases(g, s, source, u, v);
    NextHasChannel(g, u, v);
    var d := Over(g, s.dist, u, v);
    if v !in s.dist {
      DiscoverKeeps(g, s, source, u, v, d, done);
    } else if !Less(d, s.dist[v]) {
      NothingKeeps(g, s, source, u, v, d, done);
    } else if v in s.queue {
      LowerKeeps(g, s, source, u, v, d, done);
    } else {
      MissKeeps(g, s, source, u, v, d, done);
    }
  }

  // ---------- Turns and runs ----------

  lemma SameQueue(queue: seq<PhysPort>, elements: set<PhysPort>)
    requires PortSet(queue) == elements
    ensures forall p :: p in queue <==> p in elements
  {
  }

  lemma PopLeaves(s: Search)
    requires NoRepeats(s.queue) && s.queue != []
    ensures NoRepeats(PopFirst(s).queue)
    ensures PortSet(PopFirst(s).queue) == PortSet(s.queue) - {s.queue[0]}
    ensures forall p :: p in PopFirst(s).queue <==> p in s.queue && p != s.queue[0]
  {
    hide Popped;
    hide NoRepeats;
    hide IsLeast;
    QueueAfterPop(s.queue, s.dist);
    SameQueue(PopFirst(s).queue, PortSet(s.queue) - {s.queue[0]});
    SameQueue(s.queue, PortSet(s.queue));
  }

  lemma MapGrows<K, V>(m: map<K, V>, k: K, v: V)
    requires k !in m
    ensures m[k := v].Keys == m.Keys + {k} && |m[k := v]| == |m| + 1
  {
    assert m[k := v].Keys == m.Keys + {k};
    assert |m[k := v]| == |m[k := v].Keys| && |m| == |m.Keys|;
  }

  lemma PopRank(s: Search)
    requires Ranked(s) && s.queue != [] && s.queue[0] !in s.rank
    ensures Ranked(PopFirst(s)) && |PopFirst(s).rank| == |s.rank| + 1
    ensures PopFirst(s).rank.Keys == s.rank.Keys + {s.queue[0]}
  {
    hide Popped;
    hide IsLeast;
    MapGrows(s.rank, s.queue[0], |s.rank|);
  }

  lemma PoppedShape(s: Search, t: Search, source: PhysPort, u: PhysPort)
    requires Shape(s, source) && u in PortSet(s.queue)
    requires t.dist == s.dist && t.preds == s.preds && t.rank.Keys == s.rank.Keys + {u}
    requires NoRepeats(t.queue) && PortSet(t.queue) == PortSet(s.queue) - {u}
    ensures Shape(t, source)
  {
    hide NoRepeats;
    hide PortSet;
  }

  lemma PopShape(g: Fabric, s: Search, source: PhysPort)
    requires Shape(s, source) && Ranked(s) && Known(g, s, source) && s.queue != []
    ensures Shape(PopFirst(s), source) && Ranked(PopFirst(s)) && Known(g, PopFirst(s), source)
    ensures s.queue[0] in s.dist && s.queue[0] !in s.rank && |PopFirst(s).rank| == |s.rank| + 1
    ensures forall p :: p in PopFirst(s).queue <==> p in s.queue && p != s.queue[0]
  {
    hide Popped, NoRepeats, Ends, IsLeast, Ranked;
    FirstIsKnown(s, source);
    PopLeaves(s);
    PopRank(s);
    PoppedShape(s, PopFirst(s), source, s.queue[0]);
    hide Shape;
  }

  lemma FirstIsKnown(s: Search, source: PhysPort)
    requires Shape(s, source) && s.queue != []
    ensures s.queue[0] in PortSet(s.queue) && s.queue[0] in s.dist && s.queue[0] !in s.rank
  {
    hide NoRepeats;
  }

  lemma PopTree(g: Fabric, s: Search)
    requires Tree(g, s) && Ranked(s) && s.queue != [] && s.queue[0] !in s.rank
    ensures Tree(g, PopFirst(s))
  {
    hide Next;
    hide Popped;
    hide IsLeast;
    var t := PopFirst(s);
    forall v | v in t.preds ensures Justified(g, t, v) {
      assert Justified(g, s, v);
      assert Over(g, t.dist, t.preds[v], v) == Over(g, s.dist, s.preds[v], v);
    }
  }

  lemma PopExplored(g: Fabric, s: Search)
    requires Explored(g, s, None, {}) && MissedSomewhere(g, s) && s.queue != [] && s.queue[0] !in s.rank
    ensures Explored(g, PopFirst(s), Some(s.queue[0]), {}) && MissedSomewhere(g, PopFirst(s))
  {
    hide Next;
    hide Popped;
    hide IsLeast;
    hide Over;
    var u, t := s.queue[0], PopFirst(s);
    forall a, b | Seen(g, t, Some(u), {}, a, b)
      ensures b in t.dist && (Settled(g, t, a, b) || (t.missed && b in t.rank)) {
      assert Seen(g, s, None, {}, a, b);
      assert Settled(g, s, a, b) == Settled(g, t, a, b);
    }
    if s.missed {
      var a, b :| Unsettled(g, s, a, b);
      assert Unsettled(g, t, a, b);
    }
  }

  lemma PopQueue(s: Search)
    requires QueueOrdered(s) && s.queue != []
    ensures QueueOrdered(PopFirst(s))
  {
    hide HeapOrdered;
    hide Popped;
    if !s.lowered {
      PopOrders(s.queue, s.dist, ARITY);
      forall q | q in s.queue ensures !Less(Key(s.dist, q), Key(s.dist, s.queue[0])) {
        var i :| 0 <= i < |s.queue| && s.queue[i] == q;
        TopIsLeast(s.queue, s.dist, ARITY, i);
      }
    }
  }

  lemma PopInOrder(s: Search)
    requires InOrder(s, None) && s.queue != []
    requires forall p :: p in PopFirst(s).queue <==> p in s.queue && p != s.queue[0]
    ensures InOrder(PopFirst(s), Some(s.queue[0]))
  {
    hide Popped;
  }

  lemma PopColored(s: Search, source: PhysPort)
    requires Colored(s, source, None) && s.queue != [] && s.queue[0] !in s.rank
    requires forall p :: p in PopFirst(s).queue <==> p in s.queue && p != s.queue[0]
    ensures Colored(PopFirst(s), source, Some(s.queue[0]))
  {
    hide Popped;
    hide IsLeast;
  }

  lemma PopKeeps(g: Fabric, s: Search, source: PhysPort)
    requires Inv(g, s, source, None, {}) && s.queue != []
    ensures Inv(g, PopFirst(s), source, Some(s.queue[0]), {})
    ensures |PopFirst(s).rank| == |s.rank| + 1
  {
    hide Shape, Ranked, Colored, Tree, Explored, MissedSomewhere, InOrder, QueueOrdered, Known;
    PopShape(g, s, source);
    PopTree(g, s);
    PopExplored(g, s);
    PopQueue(s);
    PopInOrder(s);
    PopColored(s, source);
  }

  lemma {:induction false} VisitAllKeeps(g: Fabric, s: Search, source: PhysPort, u: PhysPort, list: seq<PhysPort>, n: nat)
    requires Searchable(g, source) && Inv(g, s, source, Some(u), {}) && n <= |list| && PortSet(list) <= Next(g, u)
    ensures Inv(g, VisitAll(g, s, u, list, n), source, Some(u), PortSet(list[..n]))
    ensures VisitAll(g, s, u, list, n).rank == s.rank
  {
    hide Inv;
    hide Next;
    hide Visit;
    if n > 0 {
      VisitAllKeeps(g, s, source, u, list, n - 1);
      assert list[n - 1] in PortSet(list);
      assert PortSet(list[..n]) == PortSet(list[..n - 1]) + {list[n - 1]};
      VisitKeeps(g, VisitAll(g, s, u, list, n - 1), source, u, list[n - 1], PortSet(list[..n - 1]));
    } else {
      assert PortSet(list[..0]) == {};
    }
  }

  /** When all its neighbours have been looked at, the current node becomes black. */
  lemma BlackKeeps(g: Fabric, s: Search, source: PhysPort, u: PhysPort)
    requires Inv(g, s, source, Some(u), Next(g, u)) && u in s.dist
    ensures Inv(g, s.(colors := s.colors[u := Black]), source, None, {})
  {
    var t := s.(colors := s.colors[u := Black]);
    BlackExplored(g, s, u);
    BlackTree(g, s, u);
    assert Shape(t, source) && Ranked(t) && Finites(t, source) && Known(g, t, source) && QueueOrdered(t);
    hide Next, Shape, Ranked, Finites, Tree, Explored, MissedSomewhere, QueueOrdered, Known;
    InOrderAfterwards(s, t, u);
    BlackColored(s, t, source, u);
  }

  lemma BlackColored(s: Search, t: Search, source: PhysPort, u: PhysPort)
    requires Colored(s, source, Some(u)) && t == s.(colors := s.colors[u := Black]) && u in s.dist
    ensures Colored(t, source, None)
  {
  }

  lemma InOrderAfterwards(s: Search, t: Search, u: PhysPort)
    requires InOrder(s, Some(u)) && t == s.(colors := s.colors[u := Black])
    ensures InOrder(t, None)
  {
  }

  lemma BlackTree(g: Fabric, s: Search, u: PhysPort)
    requires Tree(g, s) && MissedSomewhere(g, s)
    ensures Tree(g, s.(colors := s.colors[u := Black])) && MissedSomewhere(g, s.(colors := s.colors[u := Black]))
  {
    hide Next;
    hide Over;
    var t := s.(colors := s.colors[u := Black]);
    forall v | v in t.preds ensures Justified(g, t, v) { assert Justified(g, s, v); }
    if s.missed {
      var a, b :| Unsettled(g, s, a, b);
      assert Unsettled(g, t, a, b);
    }
  }

  lemma BlackExplored(g: Fabric, s: Search, u: PhysPort)
    requires Explored(g, s, Some(u), Next(g, u))
    ensures Explored(g, s.(colors := s.colors[u := Black]), None, {})
  {
    hide Next;
    var t := s.(colors := s.colors[u := Black]);
    forall a, b | Seen(g, t, None, {}, a, b)
      ensures b in t.dist && (Settled(g, t, a, b) || (t.missed && b in t.rank)) {
      assert Seen(g, s, Some(u), Next(g, u), a, b);
      assert Settled(g, s, a, b) == Settled(g, t, a, b);
    }
  }

  lemma CurrentIsKnown(g: Fabric, s: Search, source: PhysPort, u: PhysPort)
    requires Inv(g, s, source, Some(u), Next(g, u))
    ensures u in s.dist
  {
    assert u in s.rank;
  }

  lemma TurnKeeps(g: Fabric, s: Search, source: PhysPort)
    requires Searchable(g, source) && Inv(g, s, source, None, {}) && s.queue != []
    ensures Inv(g, Turn(g, s), source, None, {})
    ensures |Turn(g, s).rank| == |s.rank| + 1
  {
    hide Inv;
    hide Next;
    hide Searchable;
    var u := s.queue[0];
    var list := NextList(g, u);
    PopKeeps(g, s, source);
    VisitAllKeeps(g, PopFirst(s), source, u, list, |list|);
    assert list[..|list|] == list;
    CurrentIsKnown(g, VisitAll(g, PopFirst(s), u, list, |list|), source, u);
    BlackKeeps(g, VisitAll(g, PopFirst(s), u, list, |list|), source, u);
  }

  lemma StartKeeps(g: Fabric, source: PhysPort)
    ensures Inv(g, Start(source), source, None, {})
  {
    hide Next;
    hide Ends;
    var s := Start(source);
    assert PortSet(s.queue) == {source};
    assert HeapOrdered(s.queue, s.dist, ARITY);
    assert s.dist.Keys == s.rank.Keys + PortSet(s.queue);
    assert Explored(g, s, None, {});
  }

  /** Every state of a run has the invariant, and every turn pops one more node. */
  lemma {:induction false} RunKeeps(g: Fabric, source: PhysPort, k: nat)
    requires Searchable(g, source)
    ensures Inv(g, Run(g, source, k), source, None, {})
    ensures Run(g, source, k).queue != [] ==> |Run(g, source, k).rank| == k
  {
    hide Inv;
    hide Searchable;
    hide Turn;
    if k == 0 {
      StartKeeps(g, source);
    } else {
      RunKeeps(g, source, k - 1);
      if Run(g, source, k - 1).queue != [] {
        TurnKeeps(g, Run(g, source, k - 1), source);
      }
    }
  }

  /** A state with a non-empty queue has popped fewer nodes than there are. */
  lemma FewerPopped(g: Fabric, s: Search, source: PhysPort)
    requires Shape(s, source) && Known(g, s, source) && s.queue != []
    ensures |s.rank| <= |Ends(g)|
  {
    hide Ends;
    hide NoRepeats;
    assert s.queue[0] in PortSet(s.queue);
    Cardinality(s.rank.Keys + {s.queue[0]}, Ends(g) + {source});
    assert |s.rank.Keys + {s.queue[0]}| == |s.rank| + 1;
  }

  lemma {:induction false} Cardinality<T>(a: set<T>, b: set<T>)
    requires a <= b
    ensures |a| <= |b|
  {
    assert |b - a| + |a| == |b| by { assert b == (b - a) + a; }
  }

  /** The last state of a run. */
  ghost function Result(g: Fabric, source: PhysPort): Search {
    Run(g, source, |Ends(g)| + 1)
  }

  /** The search ends: after that many turns the queue is empty. */
  lemma SearchEnds(g: Fabric, source: PhysPort)
    requires Searchable(g, source)
    ensures Result(g, source).queue == []
  {
    hide Run;
    hide Ends;
    var s := Result(g, source);
    RunKeeps(g, source, |Ends(g)| + 1);
    if s.queue != [] { FewerPopped(g, s, source); }
  }

  /** Once the queue is empty the state does not change. */
  lemma {:induction false} RunIsOver(g: Fabric, source: PhysPort, k: nat, n: nat)
    requires Run(g, source, k).queue == [] && k <= n
    ensures Run(g, source, n) == Run(g, source, k)
    decreases n - k
  {
    hide Turn;
    if k < n { RunIsOver(g, source, k, n - 1); }
  }
}
