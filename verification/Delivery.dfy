/** Where packets get to when they follow the settings of a routed flow: through a switchbox, then over a link to the next. */
module Delivery {
  import opened StreamSwitch
  import opened Wiring
  import opened PortOrder
  import opened SwitchFabric
  import opened ShortestPaths
  import opened ShortestTrees
  import opened TraceBack
  import opened Flows
  import opened FlowSettings
  import opened FlowCharges
  import opened Solutions

  /**
   * `existsPathToDest`: the settings lead from the outgoing port `curr` over the link and through the
   * next switchbox, and so on, to the outgoing port `final`; `depth` bounds the number of links.
   */
  predicate ExistsPathToDest(settings: SwitchSettings, curr: PhysPort, final: PhysPort, depth: nat)
    decreases depth
  {
    || SamePort(curr, final)
    || (depth > 0 && OnLink(curr) &&
        var next, x := Wired(curr), SettingAt(settings, Wired(curr).tileLoc);
        exists i :: 0 <= i < |x.srcs| && i < |x.dsts| && x.srcs[i] == next.port
                    && ExistsPathToDest(settings, PhysPort(next.tileLoc, x.dsts[i], Dst), final, depth - 1))
  }

  /** A packet that comes in at the source gets to the outgoing port `v`. */
  ghost predicate Driven(settings: SwitchSettings, source: PhysPort, v: PhysPort) {
    exists q, depth: nat ::
      HasPair(settings, source.tileLoc, source.port, q) && ExistsPathToDest(settings, PhysPort(source.tileLoc, q, Dst), v, depth)
  }

  // ---------- Following settings ----------

  lemma NextStep(settings: SwitchSettings, curr: PhysPort, final: PhysPort, depth: nat)
    requires OnLink(curr) && depth > 0 && !SamePort(curr, final)
    ensures ExistsPathToDest(settings, curr, final, depth) <==>
            exists q :: HasPair(settings, Wired(curr).tileLoc, Wired(curr).port, q)
                        && ExistsPathToDest(settings, PhysPort(Wired(curr).tileLoc, q, Dst), final, depth - 1)
  {
    hide Wired, OnLink, SettingAt;
    var next, x := Wired(curr), SettingAt(settings, Wired(curr).tileLoc);
    if ExistsPathToDest(settings, curr, final, depth) {
      var i :| 0 <= i < |x.srcs| && i < |x.dsts| && x.srcs[i] == next.port
               && ExistsPathToDest(settings, PhysPort(next.tileLoc, x.dsts[i], Dst), final, depth - 1);
      assert HasPair(settings, next.tileLoc, next.port, x.dsts[i]);
    }
    if q :| HasPair(settings, next.tileLoc, next.port, q) && ExistsPathToDest(settings, PhysPort(next.tileLoc, q, Dst), final, depth - 1) {
      var i :| 0 <= i < |x.srcs| && i < |x.dsts| && x.srcs[i] == next.port && x.dsts[i] == q;
    }
  }

  /** What gets to `x` goes on to the ports that the next switchbox connects it to. */
  lemma {:induction false} GoesOn(settings: SwitchSettings, curr: PhysPort, x: PhysPort, v: PhysPort, depth: nat)
    requires ExistsPathToDest(settings, curr, x, depth) && OnLink(x) && v.tileLoc == Wired(x).tileLoc
    requires HasPair(settings, Wired(x).tileLoc, Wired(x).port, v.port)
    ensures ExistsPathToDest(settings, curr, v, depth + 1)
    decreases depth
  {
    hide Wired, HasPair;
    if SamePort(curr, v) {
    } else if SamePort(curr, x) {
      SameWire(curr, x);
      assert ExistsPathToDest(settings, PhysPort(Wired(curr).tileLoc, v.port, Dst), v, depth);
      NextStep(settings, curr, v, depth + 1);
    } else {
      NextStep(settings, curr, x, depth);
      hide ExistsPathToDest;
      var q :| HasPair(settings, Wired(curr).tileLoc, Wired(curr).port, q)
               && ExistsPathToDest(settings, PhysPort(Wired(curr).tileLoc, q, Dst), x, depth - 1);
      GoesOn(settings, PhysPort(Wired(curr).tileLoc, q, Dst), x, v, depth - 1);
      NextStep(settings, curr, v, depth + 1);
    }
  }

  /** Only ports that are set get packets. */
  lemma {:induction false} EndIsSet(settings: SwitchSettings, curr: PhysPort, v: PhysPort, p: Port, depth: nat)
    requires ExistsPathToDest(settings, curr, v, depth) && HasPair(settings, curr.tileLoc, p, curr.port)
    ensures exists p :: HasPair(settings, v.tileLoc, p, v.port)
    decreases depth
  {
    hide Wired, HasPair;
    if !SamePort(curr, v) {
      NextStep(settings, curr, v, depth);
      hide ExistsPathToDest;
      var q :| HasPair(settings, Wired(curr).tileLoc, Wired(curr).port, q)
               && ExistsPathToDest(settings, PhysPort(Wired(curr).tileLoc, q, Dst), v, depth - 1);
      EndIsSet(settings, PhysPort(Wired(curr).tileLoc, q, Dst), v, Wired(curr).port, depth - 1);
    }
  }

  lemma DrivenIsSet(settings: SwitchSettings, source: PhysPort, v: PhysPort) returns (p: Port)
    requires Driven(settings, source, v)
    ensures HasPair(settings, v.tileLoc, p, v.port)
  {
    hide HasPair, ExistsPathToDest;
    var q, depth: nat :|
      HasPair(settings, source.tileLoc, source.port, q) && ExistsPathToDest(settings, PhysPort(source.tileLoc, q, Dst), v, depth);
    EndIsSet(settings, PhysPort(source.tileLoc, q, Dst), v, source.port, depth);
    p :| HasPair(settings, v.tileLoc, p, v.port);
  }

  // ---------- Settings and hops ----------

  /** A hop of the graph stays in its switchbox or goes over the link of its port. */
  lemma HopIs(g: Fabric, u: PhysPort, v: PhysPort)
    requires v in Next(g, u)
    ensures v.tileLoc == u.tileLoc || (OnLink(u) && OnLink(v) && v == Wired(u))
    ensures OnLink(u) ==> Wired(u).tileLoc != u.tileLoc && SamePort(Wired(Wired(u)), u)
  {
    if v !in Inside(g, u) {
      var d :| d in DIRECTIONS && IsTied(g, u, d) && TiedPort(u, d) == v;
    }
  }

  /** The nodes of the flow. */
  ghost function Nodes(r: Routed): set<PhysPort> {
    OnPaths(r.tree, r.flow.src, r.flow.dsts, |r.flow.dsts|)
  }

  /** The tree enters `v` from its own switchbox. */
  predicate EntersInside(s: Search, v: PhysPort) {
    v in s.preds && s.preds[v].tileLoc == v.tileLoc
  }

  /** The settings connect two ports exactly when the tree enters the outgoing one from the incoming one. */
  lemma PairIsHop(g: Fabric, r: Routed, settings: SwitchSettings, t: TileLoc, p: Port, q: Port)
    requires Solved(g, r, settings) && r.flow.src !in r.flow.dsts
    ensures var v := PhysPort(t, q, Dst);
            HasPair(settings, t, p, q) <==>
              v in Nodes(r) && EntersInside(r.tree, v) && r.tree.preds[v].port == p
  {
    SolvedSettings(g, r, settings, t, p, q);
    hide HasPair, SettingsOf, Next, IsTree, NoReturn, OnPaths, Balanced, DrivenOnce;
    var v := PhysPort(t, q, Dst);
    if Channel(t, t, p, q) in r.route {
      var w :| w in Nodes(r) && w in r.tree.preds && Into(r.tree, w) == Channel(t, t, p, q);
      assert w == v;
    }
    if v in Nodes(r) && EntersInside(r.tree, v) && r.tree.preds[v].port == p {
      assert Into(r.tree, v) == Channel(t, t, p, q);
    }
  }

  lemma PredOnPath(g: Fabric, r: Routed, settings: SwitchSettings, v: PhysPort)
    requires Solved(g, r, settings) && v in Nodes(r) && v in r.tree.preds
    ensures r.tree.preds[v] in Nodes(r) && v in Next(g, r.tree.preds[v]) && v.direction == Dst
    ensures r.tree.preds[v] == r.flow.src || (r.tree.preds[v] in r.tree.preds && r.tree.preds[v].direction == Dst)
    ensures Chain(r.tree, v) == Chain(r.tree, r.tree.preds[v]) + [v]
    ensures r.tree.preds[v] in r.tree.rank && v in r.tree.rank && r.tree.rank[r.tree.preds[v]] < r.tree.rank[v]
  {
    hide Next, SettingsOf;
    var s, source, dsts := r.tree, r.flow.src, r.flow.dsts;
    TracedIsOnPaths(s, source, dsts, |dsts|);
    TreeStep(s, source, v);
    ChainOf(s, source, s.preds[v]);
    ChainOf(s, source, v);
    hide OnPaths, IsTree;
    assert PortSet(Chain(s, v)) <= Nodes(r);
  }

  // ---------- Alternating paths ----------

  /** The last hop stays inside a switchbox. */
  predicate LastInside(p: seq<PhysPort>) {
    |p| > 1 && p[|p| - 1].tileLoc == p[|p| - 2].tileLoc
  }

  /** The hops stay inside a switchbox and go to another one by turns; the first and the last one stay inside. */
  predicate Alternates(p: seq<PhysPort>) {
    LastInside(p) && (|p| == 2 || (!LastInside(p[..|p| - 1]) && Alternates(p[..|p| - 2])))
  }

  lemma DroppedLast(p: seq<PhysPort>, v: PhysPort)
    ensures (p + [v])[..|p + [v]| - 1] == p
  {
  }

  /** In the tree: the node is entered inside, and its predecessor is the source or comes over a link from such a node. */
  lemma AlternatesInTree(g: Fabric, r: Routed, settings: SwitchSettings, v: PhysPort)
    requires Solved(g, r, settings) && v in Nodes(r) && v in r.tree.preds
    ensures var s, u := r.tree, r.tree.preds[v];
            Alternates(Chain(s, v)) <==>
              EntersInside(s, v) && (u == r.flow.src || (u in s.preds && !EntersInside(s, u) && Alternates(Chain(s, s.preds[u]))))
  {
    hide Solved, Nodes;
    var s, u := r.tree, r.tree.preds[v];
    PredOnPath(g, r, settings, v);
    SourceChain(g, r, settings);
    DroppedLast(Chain(s, u), v);
    assert Chain(s, u) != [] && Chain(s, u)[|Chain(s, u)| - 1] == u;
    if u != r.flow.src {
      PredOnPath(g, r, settings, u);
      var x := s.preds[u];
      assert Chain(s, x) != [] && Chain(s, x)[|Chain(s, x)| - 1] == x;
      assert Chain(s, v) == Chain(s, x) + [u, v];
      assert Chain(s, v)[..|Chain(s, v)| - 2] == Chain(s, x);
    }
    hide Chain;
  }

  lemma SourceChain(g: Fabric, r: Routed, settings: SwitchSettings)
    requires Solved(g, r, settings)
    ensures r.flow.src !in r.tree.preds && Chain(r.tree, r.flow.src) == [r.flow.src]
  {
    hide Next, SettingsOf, OnPaths;
  }

  // ---------- Alternating paths deliver ----------

  /** A node whose tree path alternates gets the packets. */
  lemma {:induction false} AlternatingIsDriven(g: Fabric, r: Routed, settings: SwitchSettings, v: PhysPort)
    requires Solved(g, r, settings) && r.flow.src !in r.flow.dsts
    requires v in Nodes(r) && v in r.tree.preds && Alternates(Chain(r.tree, v))
    ensures Driven(settings, r.flow.src, v)
    decreases if v in r.tree.rank then r.tree.rank[v] else 0
  {
    hide Solved, Nodes, Chain, Alternates, HasPair, ExistsPathToDest, Wired, Next;
    var s, u := r.tree, r.tree.preds[v];
    PredOnPath(g, r, settings, v);
    AlternatesInTree(g, r, settings, v);
    PairIsHop(g, r, settings, u.tileLoc, u.port, v.port);
    assert v == PhysPort(u.tileLoc, v.port, Dst);
    if u == r.flow.src {
      AtEnd(settings, v);
    } else {
      PredOnPath(g, r, settings, u);
      var x := s.preds[u];
      HopIs(g, x, u);
      FirstNode(g, r, settings, x);
      AlternatingIsDriven(g, r, settings, x);
      var q, depth: nat :| HasPair(settings, r.flow.src.tileLoc, r.flow.src.port, q)
                           && ExistsPathToDest(settings, PhysPort(r.flow.src.tileLoc, q, Dst), x, depth);
      GoesOn(settings, PhysPort(r.flow.src.tileLoc, q, Dst), x, v, depth);
    }
  }

  lemma AtEnd(settings: SwitchSettings, v: PhysPort)
    ensures ExistsPathToDest(settings, v, v, 0)
  {
  }

  /** The path to the source itself does not alternate. */
  lemma FirstNode(g: Fabric, r: Routed, settings: SwitchSettings, x: PhysPort)
    requires Solved(g, r, settings) && Alternates(Chain(r.tree, x)) && (x == r.flow.src || x in r.tree.preds)
    ensures x in r.tree.preds
  {
    hide Solved;
    SourceChain(g, r, settings);
  }

  // ---------- What is delivered has an alternating path ----------

  /** Some node at the far end of a link is entered from elsewhere, although the flow drives the link. */
  ghost predicate Crossed(r: Routed) {
    exists x :: CrossedAt(r, x)
  }

  ghost predicate CrossedAt(r: Routed, x: PhysPort) {
    && x in Nodes(r) && EntersInside(r.tree, x) && OnLink(x)
    && Wired(x) in Nodes(r) && Wired(x) in r.tree.preds && r.tree.preds[Wired(x)] != x
  }

  lemma {:induction false} FollowsTree(g: Fabric, r: Routed, settings: SwitchSettings, y: PhysPort, v: PhysPort, depth: nat)
    requires Solved(g, r, settings) && r.flow.src !in r.flow.dsts && !Crossed(r) && v.direction == Dst
    requires y in Nodes(r) && y in r.tree.preds && Alternates(Chain(r.tree, y)) && ExistsPathToDest(settings, y, v, depth)
    ensures v in Nodes(r) && v in r.tree.preds && Alternates(Chain(r.tree, v))
    decreases depth
  {
    hide Solved, Nodes, Chain, Alternates, HasPair, Wired, Next;
    PredOnPath(g, r, settings, y);
    if SamePort(y, v) {
      assert y == v;
    } else {
      assert depth > 0 && OnLink(y) by { assert ExistsPathToDest(settings, y, v, depth); }
      NextStep(settings, y, v, depth);
      hide ExistsPathToDest;
      var next := Wired(y);
      var q :| HasPair(settings, next.tileLoc, next.port, q) && ExistsPathToDest(settings, PhysPort(next.tileLoc, q, Dst), v, depth - 1);
      var z := PhysPort(next.tileLoc, q, Dst);
      PairIsHop(g, r, settings, next.tileLoc, next.port, q);
      NextAlternates(g, r, settings, y, z);
      FollowsTree(g, r, settings, z, v, depth - 1);
    }
  }

  lemma NextAlternates(g: Fabric, r: Routed, settings: SwitchSettings, y: PhysPort, z: PhysPort)
    requires Solved(g, r, settings) && !Crossed(r) && y in Nodes(r) && y in r.tree.preds && Alternates(Chain(r.tree, y)) && OnLink(y)
    requires z in Nodes(r) && EntersInside(r.tree, z) && SamePort(r.tree.preds[z], Wired(y))
    ensures Alternates(Chain(r.tree, z))
  {
    hide Solved, Nodes, Chain, Alternates, Next;
    AlternatesInTree(g, r, settings, y);
    AlternatesInTree(g, r, settings, z);
    PredOnPath(g, r, settings, z);
    var u := r.tree.preds[z];
    if u != r.flow.src {
      assert u == Wired(y);
      assert !CrossedAt(r, y);
      assert r.tree.preds[u] == y;
      WireLeads(y);
    }
  }

  lemma DrivenAlternates(g: Fabric, r: Routed, settings: SwitchSettings, v: PhysPort)
    requires Solved(g, r, settings) && r.flow.src !in r.flow.dsts && !Crossed(r) && v.direction == Dst
    requires Driven(settings, r.flow.src, v)
    ensures v in Nodes(r) && v in r.tree.preds && Alternates(Chain(r.tree, v))
  {
    hide Solved, Nodes, Chain, Alternates, HasPair, Wired, Next, ExistsPathToDest, Crossed;
    var source := r.flow.src;
    var q, depth: nat :| HasPair(settings, source.tileLoc, source.port, q)
                         && ExistsPathToDest(settings, PhysPort(source.tileLoc, q, Dst), v, depth);
    var y := PhysPort(source.tileLoc, q, Dst);
    PairIsHop(g, r, settings, source.tileLoc, source.port, q);
    FromSource(g, r, settings, y);
    AlternatesInTree(g, r, settings, y);
    FollowsTree(g, r, settings, y, v, depth);
  }

  /** A node that is entered from the place of the source is entered from the source. */
  lemma FromSource(g: Fabric, r: Routed, settings: SwitchSettings, y: PhysPort)
    requires Solved(g, r, settings) && y in Nodes(r) && y in r.tree.preds && SamePort(r.tree.preds[y], r.flow.src)
    ensures r.tree.preds[y] == r.flow.src
  {
    PredOnPath(g, r, settings, y);
    assert NoReturn(r.tree, r.flow.src);
    hide Solved, Nodes;
  }

  /** As long as the flow is not crossed, the settings lead to exactly the ports whose tree path alternates. */
  lemma DrivenIffAlternates(g: Fabric, r: Routed, settings: SwitchSettings, v: PhysPort)
    requires Solved(g, r, settings) && r.flow.src !in r.flow.dsts && !Crossed(r) && v.direction == Dst
    ensures Driven(settings, r.flow.src, v) <==> v in Nodes(r) && v in r.tree.preds && Alternates(Chain(r.tree, v))
  {
    hide Solved, Nodes, Chain, Alternates, Driven, Crossed;
    if Driven(settings, r.flow.src, v) { DrivenAlternates(g, r, settings, v); }
    if v in Nodes(r) && v in r.tree.preds && Alternates(Chain(r.tree, v)) { AlternatingIsDriven(g, r, settings, v); }
  }

  // ---------- Crossed or not ----------

  /** Back from `v` over at most `n` links that the flow drives, whatever the tree says, to the source. */
  ghost predicate FedFromSource(r: Routed, v: PhysPort, n: nat)
    decreases n
  {
    && v in Nodes(r) && EntersInside(r.tree, v)
    && var u := r.tree.preds[v];
       u == r.flow.src || (n > 0 && OnLink(u) && FedFromSource(r, Wired(u), n - 1))
  }

  lemma {:induction false} FedGoesOn(g: Fabric, r: Routed, settings: SwitchSettings, y: PhysPort, v: PhysPort, depth: nat, n: nat) returns (m: nat)
    requires Solved(g, r, settings) && r.flow.src !in r.flow.dsts && v.direction == Dst
    requires ExistsPathToDest(settings, y, v, depth) && FedFromSource(r, y, n) && y.direction == Dst
    ensures FedFromSource(r, v, m)
    decreases depth
  {
    hide Solved, Nodes, HasPair, Next, FedFromSource;
    if SamePort(y, v) {
      assert y == v;
      m := n;
    } else {
      assert depth > 0 && OnLink(y) by { assert ExistsPathToDest(settings, y, v, depth); }
      NextStep(settings, y, v, depth);
      hide ExistsPathToDest;
      var next := Wired(y);
      var q :| HasPair(settings, next.tileLoc, next.port, q) && ExistsPathToDest(settings, PhysPort(next.tileLoc, q, Dst), v, depth - 1);
      var z := PhysPort(next.tileLoc, q, Dst);
      PairIsHop(g, r, settings, next.tileLoc, next.port, q);
      FedNext(r, y, z, n);
      m := FedGoesOn(g, r, settings, z, v, depth - 1, n + 1);
    }
  }

  lemma FedNext(r: Routed, y: PhysPort, z: PhysPort, n: nat)
    requires FedFromSource(r, y, n) && y.direction == Dst && OnLink(y)
    requires z in Nodes(r) && EntersInside(r.tree, z) && SamePort(r.tree.preds[z], Wired(y))
    ensures FedFromSource(r, z, n + 1)
  {
    hide Nodes;
    WireLeads(y);
    SameWire(r.tree.preds[z], Wired(y));
    assert Wired(r.tree.preds[z]) == y;
  }

  lemma {:induction false} FedIsDriven(g: Fabric, r: Routed, settings: SwitchSettings, v: PhysPort, n: nat)
    requires Solved(g, r, settings) && r.flow.src !in r.flow.dsts && FedFromSource(r, v, n) && v.direction == Dst
    ensures Driven(settings, r.flow.src, v)
    decreases n
  {
    var u := r.tree.preds[v];
    PairIsHop(g, r, settings, u.tileLoc, u.port, v.port);
    hide Solved, Nodes, HasPair, ExistsPathToDest;
    assert v == PhysPort(u.tileLoc, v.port, Dst);
    if u == r.flow.src {
      AtEnd(settings, v);
    } else {
      var x := Wired(u);
      WireLeads(u);
      FedIsDriven(g, r, settings, x, n - 1);
      var q, depth: nat :| HasPair(settings, r.flow.src.tileLoc, r.flow.src.port, q)
                           && ExistsPathToDest(settings, PhysPort(r.flow.src.tileLoc, q, Dst), x, depth);
      GoesOn(settings, PhysPort(r.flow.src.tileLoc, q, Dst), x, v, depth);
    }
  }

  /** Crossed or not: the settings lead exactly to the ports from which a walk back over the links ends at the source. */
  lemma DrivenIffFed(g: Fabric, r: Routed, settings: SwitchSettings, v: PhysPort)
    requires Solved(g, r, settings) && r.flow.src !in r.flow.dsts && v.direction == Dst
    ensures Driven(settings, r.flow.src, v) <==> exists n: nat :: FedFromSource(r, v, n)
  {
    hide Solved, Nodes, HasPair, ExistsPathToDest;
    var source := r.flow.src;
    if Driven(settings, source, v) {
      var q, depth: nat :| HasPair(settings, source.tileLoc, source.port, q)
                           && ExistsPathToDest(settings, PhysPort(source.tileLoc, q, Dst), v, depth);
      var y := PhysPort(source.tileLoc, q, Dst);
      PairIsHop(g, r, settings, source.tileLoc, source.port, q);
      FromSource(g, r, settings, y);
      var n := FedGoesOn(g, r, settings, y, v, depth, 0);
    }
    if n: nat :| FedFromSource(r, v, n) { FedIsDriven(g, r, settings, v, n); }
  }

  // ---------- Exact delivery ----------

  /** Two hops in a row stay inside the same switchbox. */
  predicate TwiceInside(p: seq<PhysPort>) {
    exists i :: 1 < i < |p| && StaysInside(p, i - 1) && StaysInside(p, i)
  }

  predicate StaysInside(p: seq<PhysPort>, i: nat)
    requires 0 < i < |p|
  {
    p[i - 1].tileLoc == p[i].tileLoc
  }

  /** The packets get to exactly the destinations of the flow, among all ports that are not on links. */
  ghost predicate DeliversExactly(r: Routed, settings: SwitchSettings) {
    forall v: PhysPort :: v.direction == Dst && !OnLink(v) ==> (Driven(settings, r.flow.src, v) <==> v in r.flow.dsts)
  }

  /** The source and the destinations are not on links. */
  ghost predicate EndsOffLinks(f: Flow) {
    !OnLink(f.src) && f.src !in f.dsts && forall k :: 0 <= k < |f.dsts| ==> !OnLink(f.dsts[k])
  }

  lemma DestinationIsNode(g: Fabric, r: Routed, settings: SwitchSettings, k: nat)
    requires Solved(g, r, settings) && r.flow.src !in r.flow.dsts && k < |r.flow.dsts|
    ensures r.flow.dsts[k] in Nodes(r) && r.flow.dsts[k] in r.tree.preds && r.flow.dsts[k].direction == Dst
  {
    EntersDestination(g, r, settings, r.flow.dsts[k]);
    hide Next, OnPaths, SettingsOf, IsTree, NoReturn;
  }

  /** A link is not taken back at once. */
  lemma NoTwoLinks(g: Fabric, r: Routed, settings: SwitchSettings, u: PhysPort)
    requires Solved(g, r, settings) && u in Nodes(r) && u in r.tree.preds && !EntersInside(r.tree, u) && !OnLink(r.flow.src)
    ensures var x := r.tree.preds[u];
            x in Nodes(r) && x in r.tree.preds && EntersInside(r.tree, x) && u.tileLoc != x.tileLoc
  {
    hide Solved, Nodes, Next, Wired;
    PredOnPath(g, r, settings, u);
    var x := r.tree.preds[u];
    HopIs(g, x, u);
    PredOnPath(g, r, settings, x);
    if !EntersInside(r.tree, x) {
      var w := r.tree.preds[x];
      HopIs(g, w, x);
      assert false;
    }
  }

  lemma EntersFromPred(g: Fabric, r: Routed, settings: SwitchSettings, v: PhysPort)
    requires Solved(g, r, settings) && v in Nodes(r) && v in r.tree.preds && !OnLink(v)
    ensures EntersInside(r.tree, v)
  {
    hide Solved, Nodes, Next;
    PredOnPath(g, r, settings, v);
    HopIs(g, r.tree.preds[v], v);
  }

  lemma TwiceAtEnd(p: seq<PhysPort>, u: PhysPort, v: PhysPort)
    requires p != []
    ensures TwiceInside(p + [u, v]) <==>
            TwiceInside(p + [u]) || p[|p| - 1].tileLoc == u.tileLoc == v.tileLoc
  {
    var q, o := p + [u, v], p + [u];
    assert forall i :: 0 <= i < |o| ==> o[i] == q[i];
    assert forall i :: 0 < i < |o| ==> (StaysInside(o, i) <==> StaysInside(q, i));
    if p[|p| - 1].tileLoc == u.tileLoc == v.tileLoc { assert StaysInside(q, |p|) && StaysInside(q, |p| + 1); }
    if i :| 1 < i < |o| && StaysInside(o, i - 1) && StaysInside(o, i) { assert StaysInside(q, i - 1) && StaysInside(q, i); }
    if i :| 1 < i < |q| && StaysInside(q, i - 1) && StaysInside(q, i) { assert i < |o| ==> StaysInside(o, i - 1) && StaysInside(o, i); }
  }

  lemma TwiceBefore(p: seq<PhysPort>, u: PhysPort)
    requires p != [] && p[|p| - 1].tileLoc != u.tileLoc
    ensures TwiceInside(p + [u]) <==> TwiceInside(p)
  {
    var o := p + [u];
    assert forall i :: 0 <= i < |p| ==> o[i] == p[i];
    assert forall i :: 0 < i < |p| ==> (StaysInside(o, i) <==> StaysInside(p, i));
    if i :| 1 < i < |p| && StaysInside(p, i - 1) && StaysInside(p, i) { assert StaysInside(o, i - 1) && StaysInside(o, i); }
    if i :| 1 < i < |o| && StaysInside(o, i - 1) && StaysInside(o, i) { assert i < |p| ==> StaysInside(p, i - 1) && StaysInside(p, i); }
  }

  /** A path that does not start on a link, and ends inside a switchbox, alternates unless two hops in a row stay inside. */
  lemma {:induction false} AlternatesUnlessTwice(g: Fabric, r: Routed, settings: SwitchSettings, v: PhysPort)
    requires Solved(g, r, settings) && !OnLink(r.flow.src) && v in Nodes(r) && EntersInside(r.tree, v)
    ensures Alternates(Chain(r.tree, v)) <==> !TwiceInside(Chain(r.tree, v))
    decreases if v in r.tree.rank then r.tree.rank[v] else 0
  {
    hide Solved, Nodes, Alternates, Next, TwiceInside, OnLink;
    var s, u := r.tree, r.tree.preds[v];
    PredOnPath(g, r, settings, v);
    AlternatesInTree(g, r, settings, v);
    SourceChain(g, r, settings);
    if u == r.flow.src {
      OnlyOneHop(u, v);
      assert Chain(s, v) == [u, v];
    } else {
      PredOnPath(g, r, settings, u);
      var x := s.preds[u];
      ChainEnds(s, x);
      assert Chain(s, v) == Chain(s, x) + [u, v];
      TwiceAtEnd(Chain(s, x), u, v);
      if !EntersInside(s, u) {
        NoTwoLinks(g, r, settings, u);
        TwiceBefore(Chain(s, x), u);
        AlternatesUnlessTwice(g, r, settings, x);
      }
    }
  }

  lemma OnlyOneHop(u: PhysPort, v: PhysPort)
    ensures !TwiceInside([u, v])
  {
  }

  lemma ChainEnds(s: Search, v: PhysPort)
    ensures Chain(s, v) != [] && Chain(s, v)[|Chain(s, v)| - 1] == v
  {
  }

  /** Two hops in a row inside a switchbox, on the way to `e`. */
  lemma TwiceOnTheWay(g: Fabric, r: Routed, settings: SwitchSettings, e: PhysPort, w: PhysPort)
    requires Solved(g, r, settings) && e in r.tree.preds && w in PortSet(Chain(r.tree, e)) && EntersInside(r.tree, w)
    requires EntersInside(r.tree, r.tree.preds[w])
    ensures TwiceInside(Chain(r.tree, e))
  {
    hide Chain, Next, OnPaths, SettingsOf;
    var s, p := r.tree, Chain(r.tree, e);
    TreeChainIsPath(g, s, r.flow.src, e);
    SourceChain(g, r, settings);
    var i :| 0 <= i < |p| && p[i] == w;
    assert s.preds[w] == p[i - 1] && s.preds[p[i - 1]] == p[i - 2];
    assert StaysInside(p, i - 1) && StaysInside(p, i);
  }

  /** A node that is not a destination is left on the way to one. */
  lemma GoesToDestination(g: Fabric, r: Routed, settings: SwitchSettings, u: PhysPort) returns (k: nat, w: PhysPort)
    requires Solved(g, r, settings) && u in Nodes(r) && u in r.tree.preds && u !in r.flow.dsts
    ensures k < |r.flow.dsts| && w in PortSet(Chain(r.tree, r.flow.dsts[k])) && w in r.tree.preds && r.tree.preds[w] == u
    ensures w in Nodes(r)
  {
    hide Chain, Next, SettingsOf;
    var s, source, dsts := r.tree, r.flow.src, r.flow.dsts;
    OnPathsOnly(s, source, dsts, |dsts|, u);
    k :| k < |dsts| && u in PortSet(Chain(s, dsts[k]));
    w := ChainGoesOn(s, source, dsts[k], u);
    ChainOnPaths(s, source, dsts, |dsts|, k);
  }

  /** A crossed flow has a path with two hops in a row inside a switchbox. */
  lemma CrossedGoesTwice(g: Fabric, r: Routed, settings: SwitchSettings)
    requires Solved(g, r, settings) && EndsOffLinks(r.flow) && Crossed(r)
    ensures exists k :: 0 <= k < |r.flow.dsts| && TwiceInside(Chain(r.tree, r.flow.dsts[k]))
  {
    hide Solved, Nodes, Chain, Next, TwiceInside;
    var x :| CrossedAt(r, x);
    var u := Wired(x);
    WireLeads(x);
    PredOnPath(g, r, settings, u);
    PredOnPath(g, r, settings, x);
    HopIs(g, r.tree.preds[u], u);
    assert EntersInside(r.tree, u);
    var k, w := GoesToDestination(g, r, settings, u);
    DestinationIsNode(g, r, settings, k);
    PredOnPath(g, r, settings, w);
    HopIs(g, u, w);
    assert EntersInside(r.tree, w);
    TwiceOnTheWay(g, r, settings, r.flow.dsts[k], w);
  }

  lemma DrivenIsDestination(g: Fabric, r: Routed, settings: SwitchSettings, v: PhysPort)
    requires Solved(g, r, settings) && EndsOffLinks(r.flow) && !Crossed(r) && v.direction == Dst && !OnLink(v)
    requires Driven(settings, r.flow.src, v) && v !in r.flow.dsts
    ensures exists k :: 0 <= k < |r.flow.dsts| && TwiceInside(Chain(r.tree, r.flow.dsts[k]))
  {
    hide Solved, Nodes, Chain, Next, TwiceInside, Crossed, Driven, Alternates, Wired;
    DrivenAlternates(g, r, settings, v);
    AlternatesInTree(g, r, settings, v);
    var k, w := GoesToDestination(g, r, settings, v);
    DestinationIsNode(g, r, settings, k);
    PredOnPath(g, r, settings, w);
    HopIs(g, v, w);
    TwiceOnTheWay(g, r, settings, r.flow.dsts[k], w);
  }

  /**
   * A destination gets the packets when no two hops in a row on the tree path to it stay inside one
   * switchbox, and only then unless the flow is crossed.
   */
  lemma DestinationIsDriven(g: Fabric, r: Routed, settings: SwitchSettings, k: nat)
    requires Solved(g, r, settings) && EndsOffLinks(r.flow) && k < |r.flow.dsts|
    ensures !TwiceInside(Chain(r.tree, r.flow.dsts[k])) ==> Driven(settings, r.flow.src, r.flow.dsts[k])
    ensures !Crossed(r) ==> (Driven(settings, r.flow.src, r.flow.dsts[k]) <==> !TwiceInside(Chain(r.tree, r.flow.dsts[k])))
  {
    hide Solved, Nodes, Chain, TwiceInside, Crossed, Driven, Alternates, EntersInside;
    var d := r.flow.dsts[k];
    DestinationIsNode(g, r, settings, k);
    EntersFromPred(g, r, settings, d);
    AlternatesUnlessTwice(g, r, settings, d);
    if Alternates(Chain(r.tree, d)) { AlternatingIsDriven(g, r, settings, d); }
    if !Crossed(r) { DrivenIffAlternates(g, r, settings, d); }
  }

  /**
   * A solved flow is not crossed and delivers its packets to exactly its destinations if and only if no
   * two hops in a row, on the tree path to any destination, stay inside one switchbox.
   */
  lemma ExactDelivery(g: Fabric, r: Routed, settings: SwitchSettings)
    requires Solved(g, r, settings) && EndsOffLinks(r.flow)
    ensures DeliversExactly(r, settings) && !Crossed(r) <==>
            forall k :: 0 <= k < |r.flow.dsts| ==> !TwiceInside(Chain(r.tree, r.flow.dsts[k]))
  {
    hide Solved, Nodes, Chain, TwiceInside, Crossed, Driven, Alternates, EntersInside, OnLink;
    var dsts := r.flow.dsts;
    if Crossed(r) {
      CrossedGoesTwice(g, r, settings);
    } else {
      forall k | 0 <= k < |dsts| ensures Driven(settings, r.flow.src, dsts[k]) <==> !TwiceInside(Chain(r.tree, dsts[k])) {
        DestinationIsDriven(g, r, settings, k);
      }
      forall v: PhysPort | v.direction == Dst && !OnLink(v) && Driven(settings, r.flow.src, v) && v !in dsts
        ensures exists k :: 0 <= k < |dsts| && TwiceInside(Chain(r.tree, dsts[k]))
      {
        DrivenIsDestination(g, r, settings, v);
      }
      DestinationsAreDst(g, r, settings);
    }
  }

  lemma DestinationsAreDst(g: Fabric, r: Routed, settings: SwitchSettings)
    requires Solved(g, r, settings) && EndsOffLinks(r.flow)
    ensures forall k :: 0 <= k < |r.flow.dsts| ==> r.flow.dsts[k].direction == Dst && !OnLink(r.flow.dsts[k])
  {
    hide Solved, Nodes;
    forall k | 0 <= k < |r.flow.dsts| ensures r.flow.dsts[k].direction == Dst { DestinationIsNode(g, r, settings, k); }
  }

  // ---------- The settings of one destination ----------

  ghost predicate Leads(settings: SwitchSettings, curr: PhysPort, final: PhysPort) {
    exists depth: nat :: ExistsPathToDest(settings, curr, final, depth)
  }

  lemma {:induction false} LeadsDown(g: Fabric, r: Routed, settings: SwitchSettings, y: PhysPort, v: PhysPort, depth: nat)
    requires Solved(g, r, settings) && EndsOffLinks(r.flow) && !Crossed(r) && v.direction == Dst
    requires y in Nodes(r) && y in r.tree.preds && Alternates(Chain(r.tree, y)) && ExistsPathToDest(settings, y, v, depth)
    ensures y in PortSet(Chain(r.tree, v))
    decreases depth
  {
    hide Solved, Nodes, Alternates, Chain, HasPair, Wired, Next;
    PredOnPath(g, r, settings, y);
    if SamePort(y, v) {
      ChainHasEnd(r.tree, v);
      assert y == v;
    } else {
      assert depth > 0 && OnLink(y) by { assert ExistsPathToDest(settings, y, v, depth); }
      NextStep(settings, y, v, depth);
      var next := Wired(y);
      var q :| HasPair(settings, next.tileLoc, next.port, q) && ExistsPathToDest(settings, PhysPort(next.tileLoc, q, Dst), v, depth - 1);
      var z := PhysPort(next.tileLoc, q, Dst);
      PairIsHop(g, r, settings, next.tileLoc, next.port, q);
      NextAlternates(g, r, settings, y, z);
      FollowsTree(g, r, settings, z, v, depth - 1);
      LeadsDown(g, r, settings, z, v, depth - 1);
      hide ExistsPathToDest;
      AlternatesInTree(g, r, settings, y);
      PredIsWired(g, r, settings, y, z);
      ChainGoesBack(g, r, settings, v, z);
      ChainGoesBack(g, r, settings, v, next);
    }
  }

  lemma PredIsWired(g: Fabric, r: Routed, settings: SwitchSettings, y: PhysPort, z: PhysPort)
    requires Solved(g, r, settings) && EndsOffLinks(r.flow) && !Crossed(r) && OnLink(y)
    requires y in Nodes(r) && EntersInside(r.tree, y)
    requires z in Nodes(r) && EntersInside(r.tree, z) && SamePort(r.tree.preds[z], Wired(y))
    ensures r.tree.preds[z] == Wired(y) && Wired(y) in r.tree.preds && r.tree.preds[Wired(y)] == y
  {
    hide Solved, Nodes, Next;
    PredOnPath(g, r, settings, z);
    WireLeads(y);
    assert !CrossedAt(r, y);
  }

  /** With a node its predecessor is on the way to `v`. */
  lemma ChainGoesBack(g: Fabric, r: Routed, settings: SwitchSettings, v: PhysPort, z: PhysPort)
    requires Solved(g, r, settings) && v in r.tree.preds && z in PortSet(Chain(r.tree, v)) && z in r.tree.preds
    ensures r.tree.preds[z] in PortSet(Chain(r.tree, v))
  {
    hide Chain, Next, OnPaths, SettingsOf;
    var p := Chain(r.tree, v);
    TreeChainIsPath(g, r.tree, r.flow.src, v);
    SourceChain(g, r, settings);
    var i :| 0 <= i < |p| && p[i] == z;
    assert p[i - 1] == r.tree.preds[z] && p[i - 1] in p;
  }

  lemma {:induction false} LeadsUp(g: Fabric, r: Routed, settings: SwitchSettings, y: PhysPort, v: PhysPort)
    requires Solved(g, r, settings) && EndsOffLinks(r.flow) && v in Nodes(r) && v in r.tree.preds
    requires Alternates(Chain(r.tree, v)) && y in PortSet(Chain(r.tree, v)) && EntersInside(r.tree, y)
    ensures Leads(settings, y, v)
    decreases if v in r.tree.rank then r.tree.rank[v] else 0
  {
    hide Solved, Nodes, Chain, Alternates, HasPair, ExistsPathToDest, Wired, Next, OnLink;
    var s, u := r.tree, r.tree.preds[v];
    if y == v {
      AtEnd(settings, v);
    } else {
      PredOnPath(g, r, settings, v);
      AlternatesInTree(g, r, settings, v);
      SourceChain(g, r, settings);
      PairIsHop(g, r, settings, u.tileLoc, u.port, v.port);
      assert v == PhysPort(u.tileLoc, v.port, Dst);
      assert y in PortSet(Chain(s, u));
      assert u != r.flow.src;
      PredOnPath(g, r, settings, u);
      var x := s.preds[u];
      HopIs(g, x, u);
      FirstNode(g, r, settings, x);
      assert y in PortSet(Chain(s, x));
      LeadsUp(g, r, settings, y, x);
      var depth: nat :| ExistsPathToDest(settings, y, x, depth);
      GoesOn(settings, y, x, v, depth);
    }
  }

  /**
   * When no path has two hops in a row inside a switchbox, the settings that are kept for a destination
   * are exactly those on the tree path to it.
   */
  lemma KeptForDestination(g: Fabric, r: Routed, settings: SwitchSettings, t: TileLoc, p: Port, q: Port, k: nat)
    requires Solved(g, r, settings) && EndsOffLinks(r.flow) && k < |r.flow.dsts|
    requires forall n :: 0 <= n < |r.flow.dsts| ==> !TwiceInside(Chain(r.tree, r.flow.dsts[n]))
    requires HasPair(settings, t, p, q)
    ensures Leads(settings, PhysPort(t, q, Dst), r.flow.dsts[k]) <==> PhysPort(t, q, Dst) in PortSet(Chain(r.tree, r.flow.dsts[k]))
  {
    hide Solved, Nodes, Chain, Alternates, HasPair, Wired, Next, OnLink, TwiceInside, ExistsPathToDest, Crossed, DeliversExactly;
    var v, d := PhysPort(t, q, Dst), r.flow.dsts[k];
    ExactDelivery(g, r, settings);
    PairIsHop(g, r, settings, t, p, q);
    DestinationIsNode(g, r, settings, k);
    EntersFromPred(g, r, settings, d);
    AlternatesUnlessTwice(g, r, settings, d);
    NodeAlternates(g, r, settings, v);
    if depth: nat :| ExistsPathToDest(settings, v, d, depth) { LeadsDown(g, r, settings, v, d, depth); }
    if v in PortSet(Chain(r.tree, d)) { LeadsUp(g, r, settings, v, d); }
  }

  /** With the paths to the destinations, those to the nodes on them that are entered inside alternate. */
  lemma NodeAlternates(g: Fabric, r: Routed, settings: SwitchSettings, v: PhysPort)
    requires Solved(g, r, settings) && EndsOffLinks(r.flow) && v in Nodes(r) && EntersInside(r.tree, v)
    requires forall n :: 0 <= n < |r.flow.dsts| ==> !TwiceInside(Chain(r.tree, r.flow.dsts[n]))
    ensures Alternates(Chain(r.tree, v))
  {
    hide Solved, Chain, Alternates, Next, Nodes, TwiceInside;
    AlternatesUnlessTwice(g, r, settings, v);
    if TwiceInside(Chain(r.tree, v)) {
      var k := IsOnTheWay(g, r, settings, v);
      DestinationIsNode(g, r, settings, k);
      TwiceFurther(g, r, settings, r.flow.dsts[k], v);
    }
  }

  lemma IsOnTheWay(g: Fabric, r: Routed, settings: SwitchSettings, v: PhysPort) returns (k: nat)
    requires Solved(g, r, settings) && v in Nodes(r) && v in r.tree.preds
    ensures k < |r.flow.dsts| && v in PortSet(Chain(r.tree, r.flow.dsts[k]))
  {
    hide Chain, Next, SettingsOf, OnPaths;
    OnPathsOnly(r.tree, r.flow.src, r.flow.dsts, |r.flow.dsts|, v);
    k :| k < |r.flow.dsts| && v in PortSet(Chain(r.tree, r.flow.dsts[k]));
  }

  lemma TwiceFurther(g: Fabric, r: Routed, settings: SwitchSettings, e: PhysPort, v: PhysPort)
    requires Solved(g, r, settings) && e in r.tree.preds && v in r.tree.preds && v in PortSet(Chain(r.tree, e))
    requires TwiceInside(Chain(r.tree, v))
    ensures TwiceInside(Chain(r.tree, e))
  {
    var p := Chain(r.tree, v);
    hide Chain, Next, SettingsOf, OnPaths;
    ChainsInside(r.tree, r.flow.src, e);
    TreeChainIsPath(g, r.tree, r.flow.src, v);
    hide IsTree, NoReturn, PathTo;
    var i :| 1 < i < |p| && StaysInside(p, i - 1) && StaysInside(p, i);
    assert p[i] in PortSet(p) && p[i - 1] in r.tree.preds;
    hide Solved;
    TwiceOnTheWay(g, r, settings, e, p[i]);
  }
}
