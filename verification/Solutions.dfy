/** What it means that a routed flow is solved, and that a solution is legal. */
module Solutions {
  import opened StreamSwitch
  import opened PortOrder
  import opened SwitchFabric
  import opened ShortestPaths
  import opened ShortestTrees
  import opened TraceBack
  import opened Flows
  import opened FlowSettings
  import opened Capacity
  import opened FlowCharges

  /** The edges of the tree are connections of the graph. */
  ghost predicate TreeOver(g: Fabric, s: Search, source: PhysPort) {
    && IsTree(s, source) && NoReturn(s, source)
    && forall v :: v in s.preds ==> v in Next(g, s.preds[v]) && v.direction == Dst && Into(s, v) in g
  }

  /** The flow is charged for, and its settings record, exactly the tree paths to its destinations. */
  ghost predicate Solved(g: Fabric, r: Routed, settings: SwitchSettings) {
    && TreeOver(g, r.tree, r.flow.src) && Found(r.tree, r.flow.src, r.flow.dsts)
    && r.route == Route(r.tree, OnPaths(r.tree, r.flow.src, r.flow.dsts, |r.flow.dsts|))
    && settings == SettingsOf(r.tree, r.flow.src, r.flow.dsts, |r.flow.dsts|)
  }

  /** The sources of the flows that have been routed. */
  ghost function Sources(log: seq<Routed>): set<PhysPort> {
    set i | 0 <= i < |log| :: log[i].flow.src
  }

  ghost predicate AllSolved(g: Fabric, log: seq<Routed>, solution: map<PhysPort, SwitchSettings>) {
    && solution.Keys == Sources(log)
    && forall i :: 0 <= i < |log| ==> log[i].flow.src in solution && Solved(g, log[i], solution[log[i].flow.src])
  }

  lemma NothingSolved(g: Fabric)
    ensures AllSolved(g, [], map[])
  {
  }

  lemma OneMoreSolved(g: Fabric, log: seq<Routed>, solution: map<PhysPort, SwitchSettings>, r: Routed, settings: SwitchSettings)
    requires AllSolved(g, log, solution) && r.flow.src !in solution && Solved(g, r, settings)
    ensures AllSolved(g, log + [r], solution[r.flow.src := settings])
  {
    hide Solved;
    var after := log + [r];
    assert forall i :: 0 <= i < |log| ==> after[i] == log[i];
    assert Sources(after) == Sources(log) + {r.flow.src} by {
      assert forall i :: 0 <= i < |log| ==> after[i].flow.src in Sources(log);
      assert after[|log|].flow.src == r.flow.src;
      forall p | p in Sources(log) ensures p in Sources(after) {
        var i :| 0 <= i < |log| && log[i].flow.src == p;
        assert after[i].flow.src == p;
      }
    }
  }

  /** A flow whose tree ended in a graph with the same connections is solved by what it was charged and recorded. */
  lemma TracedIsSolved(g: Fabric, h: Fabric, flow: Flow, s: Search, nodes: seq<PhysPort>, settings: SwitchSettings)
    requires SameConnections(g, h) && WellFormed(h) && Ended(h, s, flow.src) && Found(s, flow.src, flow.dsts) && NoReturn(s, flow.src)
    requires nodes == Traced(s, flow.src, flow.dsts, |flow.dsts|)
    requires settings == SettingsOf(s, flow.src, flow.dsts, |flow.dsts|)
    ensures Solved(g, Routed(flow, h, s, Route(s, PortSet(nodes))), settings)
    ensures NoRepeats(nodes) && forall v :: v in nodes ==> v in s.preds && v.direction == Dst && Into(s, v) in g
  {
    hide Ended, Next, IsTree, NoReturn, Traced, SettingsOf, Run, OnPaths, NoRepeats;
    EndedIsTree(h, s, flow.src);
    TracedIsOnPaths(s, flow.src, flow.dsts, |flow.dsts|);
    forall v | v in s.preds ensures v in Next(g, s.preds[v]) && v.direction == Dst && Into(s, v) in g {
      SameNext(g, h, s.preds[v]);
      NextHasChannel(h, s.preds[v], v);
    }
    NotInTree(s, flow.src);
    SameRoute(s, nodes, flow.src, OnPaths(s, flow.src, flow.dsts, |flow.dsts|));
  }

  lemma NotInTree(s: Search, source: PhysPort)
    requires IsTree(s, source)
    ensures source !in s.preds
  {
  }

  lemma SameRoute(s: Search, nodes: seq<PhysPort>, source: PhysPort, paths: set<PhysPort>)
    requires PortSet(nodes) + {source} == paths && source !in s.preds
    ensures Route(s, PortSet(nodes)) == Route(s, paths)
  {
    hide Into;
    assert forall v :: v in s.preds ==> (v in paths <==> v in PortSet(nodes));
  }

  // ---------- What a solution is good for ----------

  lemma {:induction false} TreeChainIsPath(g: Fabric, s: Search, source: PhysPort, v: PhysPort)
    requires TreeOver(g, s, source) && (v == source || v in s.preds)
    ensures PathTo(g, source, Chain(s, v), v)
    ensures forall i :: 0 < i < |Chain(s, v)| ==> Chain(s, v)[i] in s.preds && s.preds[Chain(s, v)[i]] == Chain(s, v)[i - 1]
    decreases if v in s.rank then s.rank[v] else 0
  {
    hide Next, Into;
    if v in s.preds {
      TreeStep(s, source, v);
      TreeChainIsPath(g, s, source, s.preds[v]);
    }
  }

  lemma {:induction false} ChainOnPaths(s: Search, source: PhysPort, dsts: seq<PhysPort>, n: nat, k: nat)
    requires k < n <= |dsts|
    ensures PortSet(Chain(s, dsts[k])) <= OnPaths(s, source, dsts, n)
  {
    hide Chain;
    if k < n - 1 { ChainOnPaths(s, source, dsts, n - 1, k); }
  }

  /** Every destination is reached from the source over channels that the flow is charged for. */
  lemma SolvedReachesAll(g: Fabric, r: Routed, settings: SwitchSettings, k: nat)
    requires Solved(g, r, settings) && k < |r.flow.dsts|
    ensures var p := Chain(r.tree, r.flow.dsts[k]);
            && PathTo(g, r.flow.src, p, r.flow.dsts[k])
            && forall i :: 0 < i < |p| ==> ChannelOf(p[i - 1], p[i]) in r.route
  {
    hide Next, IsPath, OnPaths;
    var p := Chain(r.tree, r.flow.dsts[k]);
    TreeChainIsPath(g, r.tree, r.flow.src, r.flow.dsts[k]);
    ChainOnPaths(r.tree, r.flow.src, r.flow.dsts, |r.flow.dsts|, k);
    hide Chain, TreeOver;
    forall i | 0 < i < |p| ensures ChannelOf(p[i - 1], p[i]) in r.route {
      assert p[i] in PortSet(p);
      assert Into(r.tree, p[i]) == ChannelOf(p[i - 1], p[i]);
    }
  }

  /** No channel is charged that is not on the way to a destination. */
  lemma {:induction false} OnPathsOnly(s: Search, source: PhysPort, dsts: seq<PhysPort>, n: nat, v: PhysPort)
    requires n <= |dsts| && v in OnPaths(s, source, dsts, n)
    ensures v == source || exists k :: 0 <= k < n && v in PortSet(Chain(s, dsts[k]))
  {
    hide Chain;
    if n > 0 && v !in PortSet(Chain(s, dsts[n - 1])) {
      OnPathsOnly(s, source, dsts, n - 1, v);
    }
  }

  /** The settings are balanced, drive no port twice, and have exactly the charged channels inside switchboxes. */
  lemma SolvedSettings(g: Fabric, r: Routed, settings: SwitchSettings, t: TileLoc, p: Port, q: Port)
    requires Solved(g, r, settings) && r.flow.src !in r.flow.dsts
    ensures Balanced(settings) && DrivenOnce(settings)
    ensures HasPair(settings, t, p, q) <==> Channel(t, t, p, q) in r.route
  {
    hide Next, IsTree, OnPaths, SettingsOf, Traced, DrivenOnce, HasPair, Balanced, ClosedUnderChain, NoRepeats;
    var s, n := r.tree, |r.flow.dsts|;
    SettingsDriveOnce(s, r.flow.src, r.flow.dsts, n);
    SettingsRecordPaths(s, r.flow.src, r.flow.dsts, n);
    TracedIsOnPaths(s, r.flow.src, r.flow.dsts, n);
    NotInTree(s, r.flow.src);
    var nodes := PortSet(Traced(s, r.flow.src, r.flow.dsts, n));
    SameRoute(s, Traced(s, r.flow.src, r.flow.dsts, n), r.flow.src, OnPaths(s, r.flow.src, r.flow.dsts, n));
    assert r.flow.dsts[..n] == r.flow.dsts;
    InsideRoute(s, nodes, t, p, q);
  }

  lemma InsideRoute(s: Search, nodes: set<PhysPort>, t: TileLoc, p: Port, q: Port)
    ensures (exists v :: v in nodes && ConnectsTo(s, v, t, p, q)) <==> Channel(t, t, p, q) in Route(s, nodes)
  {
    if v :| v in nodes && ConnectsTo(s, v, t, p, q) { assert Into(s, v) == Channel(t, t, p, q); }
    if Channel(t, t, p, q) in Route(s, nodes) {
      var v :| v in nodes && v in s.preds && Into(s, v) == Channel(t, t, p, q);
      assert ConnectsTo(s, v, t, p, q);
    }
  }

  // ---------- What legality means ----------

  /** The use of every channel is legal, or one packet flow beside 32 or more fixed ones. */
  ghost predicate AllLegalOrOverlooked(g: Fabric, log: seq<Routed>) {
    forall k :: k in g ==>
      Legal(GroupsOn(log, k), g[k].fixedPacketFlowCount) || Overlooked(GroupsOn(log, k), g[k].fixedPacketFlowCount)
  }

  /** Where less than 32 packet flows are fixed on every channel, all uses are legal. */
  lemma NothingOverlooked(g: Fabric, log: seq<Routed>)
    requires AllLegalOrOverlooked(g, log) && forall k :: k in g ==> g[k].fixedPacketFlowCount < MAX_PACKET_STREAM_CAPACITY
    ensures forall k :: k in g ==> Legal(GroupsOn(log, k), g[k].fixedPacketFlowCount)
  {
    hide GroupsOn, Legal;
  }

  /** How many of the routed flows use the channel. */
  ghost function UserCount(log: seq<Routed>, k: Channel): nat {
    |set i: nat | i < |log| && k in log[i].route|
  }

  lemma UserCountStep(log: seq<Routed>, k: Channel)
    ensures UserCount(log, k) == if log == [] then 0 else UserCount(log[..|log| - 1], k) + if k in log[|log| - 1].route then 1 else 0
  {
    var users := set i: nat | i < |log| && k in log[i].route;
    if log == [] {
      assert users == {};
    } else {
      var n, init := |log| - 1, log[..|log| - 1];
      var before := set i: nat | i < |init| && k in init[i].route;
      assert users == before + if k in log[n].route then {n} else {};
      assert n !in before;
    }
  }

  lemma {:induction false} GroupsOnHas(log: seq<Routed>, k: Channel)
    ensures |GroupsOn(log, k)| == UserCount(log, k)
    ensures forall i :: 0 <= i < |log| && k in log[i].route ==> log[i].flow.packetGroupId in GroupsOn(log, k) && UserCount(log, k) > 0
    ensures forall x :: x in GroupsOn(log, k) ==> exists i :: 0 <= i < |log| && k in log[i].route && log[i].flow.packetGroupId == x
  {
    UserCountStep(log, k);
    hide UserCount;
    if log != [] { GroupsOnHas(log[..|log| - 1], k); }
  }

  lemma {:induction false} TwoUsers(log: seq<Routed>, k: Channel, i: nat, j: nat)
    requires i < j < |log| && k in log[i].route && k in log[j].route
    ensures UserCount(log, k) >= 2
  {
    UserCountStep(log, k);
    hide UserCount;
    var init := log[..|log| - 1];
    GroupsOnHas(init, k);
    if j < |log| - 1 {
      TwoUsers(init, k, i, j);
    } else {
      assert init[i] == log[i];
    }
  }

  /** Two flows over one channel are packet flows of one group, at most 32 use it, and a circuit has no fixed packet flow beside it. */
  lemma LegalSharing(g: Fabric, log: seq<Routed>, k: Channel, i: nat, j: nat)
    requires AllLegalOrOverlooked(g, log) && k in g && i < |log| && j < |log| && k in log[i].route && k in log[j].route
    ensures UserCount(log, k) <= 32
    ensures i != j ==> log[i].flow.packetGroupId == log[j].flow.packetGroupId >= 0
    ensures log[i].flow.packetGroupId < 0 ==> UserCount(log, k) == 1 && g[k].fixedPacketFlowCount == 0
  {
    hide GroupsOn, UserCount;
    GroupsOnHas(log, k);
    var a, b := log[i].flow.packetGroupId, log[j].flow.packetGroupId;
    assert Legal(GroupsOn(log, k), g[k].fixedPacketFlowCount) || Overlooked(GroupsOn(log, k), g[k].fixedPacketFlowCount);
    UsersAgree(GroupsOn(log, k), g[k].fixedPacketFlowCount, a, b);
    if i != j { TwoUsers(log, k, if i < j then i else j, if i < j then j else i); }
  }

  lemma UsersAgree(groups: seq<int>, fixedCount: nat, a: int, b: int)
    requires Legal(groups, fixedCount) || Overlooked(groups, fixedCount)
    requires a in groups && b in groups
    ensures a == b && |groups| <= 32 && (a < 0 ==> |groups| == 1 && fixedCount == 0)
  {
  }

  /** When every channel is within its capacity the accounts say that every use is legal or overlooked. */
  lemma WithinCapacityIsLegal(g: Fabric, log: seq<Routed>, closed: bool)
    requires AccountsBetween(g, log, closed)
    requires forall k :: k in g ==> g[k].usedCapacity <= MAX_CIRCUIT_STREAM_CAPACITY
    ensures AllLegalOrOverlooked(g, log)
  {
    hide Legal, Overlooked, GroupsOn;
  }

  /** Two flows of a solution that set the same connection of a switchbox are packet flows of one group. */
  lemma SharedSettings(g: Fabric, log: seq<Routed>, solution: map<PhysPort, SwitchSettings>, i: nat, j: nat, t: TileLoc, p: Port, q: Port)
    requires AllSolved(g, log, solution) && AllLegalOrOverlooked(g, log) && i < |log| && j < |log| && i != j
    requires log[i].flow.src !in log[i].flow.dsts && log[j].flow.src !in log[j].flow.dsts
    requires HasPair(solution[log[i].flow.src], t, p, q) && HasPair(solution[log[j].flow.src], t, p, q)
    ensures log[i].flow.packetGroupId == log[j].flow.packetGroupId >= 0
  {
    hide HasPair, AllLegalOrOverlooked, Legal;
    SolvedSettings(g, log[i], solution[log[i].flow.src], t, p, q);
    SolvedSettings(g, log[j], solution[log[j].flow.src], t, p, q);
    RouteInGraph(g, log[i], solution[log[i].flow.src], Channel(t, t, p, q));
    LegalSharing(g, log, Channel(t, t, p, q), i, j);
  }

  lemma RouteInGraph(g: Fabric, r: Routed, settings: SwitchSettings, k: Channel)
    requires Solved(g, r, settings) && k in r.route
    ensures k in g
  {
    hide Next, IsTree, OnPaths, SettingsOf;
    var v :| v in r.tree.preds && Into(r.tree, v) == k;
  }

  // ---------- Two flows in one node ----------

  /** The flow is routed into the node. */
  ghost predicate Enters(r: Routed, v: PhysPort) {
    v in r.tree.preds && v in OnPaths(r.tree, r.flow.src, r.flow.dsts, |r.flow.dsts|)
  }

  /** `k` is a channel over which the flow leaves the node. */
  ghost predicate LeavesOver(r: Routed, v: PhysPort, k: Channel) {
    k in r.route && StartsAt(k, v)
  }

  /** The node after `chain[i]` on the way to the end of the chain. */
  lemma ChainGoesOn(s: Search, source: PhysPort, v: PhysPort, u: PhysPort) returns (w: PhysPort)
    requires IsTree(s, source) && u in PortSet(Chain(s, v)) && u != v
    ensures w in PortSet(Chain(s, v)) && w in s.preds && s.preds[w] == u
    decreases if v in s.rank then s.rank[v] else 0
  {
    if v in s.preds {
      TreeStep(s, source, v);
      assert PortSet(Chain(s, v)) == PortSet(Chain(s, s.preds[v])) + {v};
      if u == s.preds[v] { w := v; } else { w := ChainGoesOn(s, source, s.preds[v], u); }
    } else {
      assert false;
    }
  }

  /** A flow leaves every node that it enters, unless the node is one of its destinations. */
  lemma EntersAndLeaves(g: Fabric, r: Routed, settings: SwitchSettings, v: PhysPort)
    requires Solved(g, r, settings) && Enters(r, v)
    ensures Into(r.tree, v) in r.route
    ensures v in r.flow.dsts || exists k :: LeavesOver(r, v, k)
  {
    hide Chain, Next, SettingsOf;
    var s, source, dsts := r.tree, r.flow.src, r.flow.dsts;
    if v !in dsts {
      OnPathsOnly(s, source, dsts, |dsts|, v);
      var n :| 0 <= n < |dsts| && v in PortSet(Chain(s, dsts[n]));
      var w := ChainGoesOn(s, source, dsts[n], v);
      ChainOnPaths(s, source, dsts, |dsts|, n);
      assert LeavesOver(r, v, Into(s, w));
    }
  }

  /**
   * Two flows of a solution that are routed into one node are packet flows of one group, or they leave
   * the node over different channels; and each of them leaves it unless it ends there.
   */
  lemma SharedNode(g: Fabric, log: seq<Routed>, solution: map<PhysPort, SwitchSettings>, i: nat, j: nat, v: PhysPort)
    requires AllSolved(g, log, solution) && AllLegalOrOverlooked(g, log) && i < |log| && j < |log| && i != j
    requires Enters(log[i], v) && Enters(log[j], v)
    ensures log[i].flow.packetGroupId == log[j].flow.packetGroupId >= 0 ||
            (Into(log[i].tree, v) != Into(log[j].tree, v) && forall k :: LeavesOver(log[i], v, k) ==> !LeavesOver(log[j], v, k))
    ensures v in log[i].flow.dsts || exists k :: LeavesOver(log[i], v, k)
    ensures v in log[j].flow.dsts || exists k :: LeavesOver(log[j], v, k)
  {
    hide AllLegalOrOverlooked, Into, Enters, Solved;
    EntersAndLeaves(g, log[i], solution[log[i].flow.src], v);
    EntersAndLeaves(g, log[j], solution[log[j].flow.src], v);
    forall k | k in log[i].route && k in log[j].route
      ensures log[i].flow.packetGroupId == log[j].flow.packetGroupId >= 0
    {
      RouteInGraph(g, log[i], solution[log[i].flow.src], k);
      LegalSharing(g, log, k, i, j);
    }
  }

  // ---------- Flows that end in one node ----------

  ghost predicate SameGroup(r: Routed, q: Routed) {
    r.flow.packetGroupId == q.flow.packetGroupId >= 0
  }

  /** All flows that are routed into the node are packet flows of one group. */
  ghost predicate OneGroupEnters(log: seq<Routed>, v: PhysPort) {
    forall i, j :: 0 <= i < j < |log| && Enters(log[i], v) && Enters(log[j], v) ==> SameGroup(log[i], log[j])
  }

  /** All flows that have the node as a destination are packet flows of one group. */
  ghost predicate OneGroupEnds(log: seq<Routed>, v: PhysPort) {
    forall i, j :: 0 <= i < j < |log| && v in log[i].flow.dsts && v in log[j].flow.dsts ==> SameGroup(log[i], log[j])
  }

  lemma EntersDestination(g: Fabric, r: Routed, settings: SwitchSettings, v: PhysPort)
    requires Solved(g, r, settings) && v in r.flow.dsts && v != r.flow.src
    ensures Enters(r, v)
  {
    hide Next, Chain, SettingsOf, IsTree;
    var n :| 0 <= n < |r.flow.dsts| && r.flow.dsts[n] == v;
    ChainOnPaths(r.tree, r.flow.src, r.flow.dsts, |r.flow.dsts|, n);
    ChainHasEnd(r.tree, v);
  }

  lemma ChainHasEnd(s: Search, v: PhysPort)
    ensures v in PortSet(Chain(s, v))
  {
    assert Chain(s, v)[|Chain(s, v)| - 1] == v;
  }

  /** A port that no channel leaves is entered by exactly the flows that have it as a destination. */
  lemma EntersAsDestination(g: Fabric, r: Routed, settings: SwitchSettings, v: PhysPort)
    requires Solved(g, r, settings) && v != r.flow.src && forall k :: k in g ==> !StartsAt(k, v)
    ensures Enters(r, v) <==> v in r.flow.dsts
  {
    hide Solved, Enters;
    if v in r.flow.dsts { EntersDestination(g, r, settings, v); }
    if Enters(r, v) {
      EntersAndLeaves(g, r, settings, v);
      if k :| LeavesOver(r, v, k) { RouteInGraph(g, r, settings, k); }
    }
  }

  /**
   * In every solution a port that no channel leaves is driven by packet flows of one group, or by one
   * flow at most, if and only if so are the requests for it.
   */
  lemma PortOfOneGroup(g: Fabric, log: seq<Routed>, solution: map<PhysPort, SwitchSettings>, v: PhysPort)
    requires AllSolved(g, log, solution) && (forall i :: 0 <= i < |log| ==> log[i].flow.src != v)
    requires forall k :: k in g ==> !StartsAt(k, v)
    ensures OneGroupEnters(log, v) <==> OneGroupEnds(log, v)
  {
    hide Solved, Enters, SameGroup, StartsAt;
    forall i | 0 <= i < |log| ensures Enters(log[i], v) <==> v in log[i].flow.dsts {
      EntersAsDestination(g, log[i], solution[log[i].flow.src], v);
    }
  }

  /** Where at most one channel leaves a port, flows of different groups or circuits only meet at a destination of one of them. */
  lemma MeetAtDestination(g: Fabric, log: seq<Routed>, solution: map<PhysPort, SwitchSettings>, i: nat, j: nat, v: PhysPort)
    requires AllSolved(g, log, solution) && AllLegalOrOverlooked(g, log) && i < |log| && j < |log| && i != j
    requires forall k, l :: k in g && l in g && StartsAt(k, v) && StartsAt(l, v) ==> k == l
    requires Enters(log[i], v) && Enters(log[j], v) && !SameGroup(log[i], log[j])
    ensures v in log[i].flow.dsts || v in log[j].flow.dsts
  {
    hide AllLegalOrOverlooked, Enters, Solved;
    SharedNode(g, log, solution, i, j, v);
    if v !in log[i].flow.dsts && v !in log[j].flow.dsts {
      var k :| LeavesOver(log[i], v, k);
      var l :| LeavesOver(log[j], v, l);
      RouteInGraph(g, log[i], solution[log[i].flow.src], k);
      RouteInGraph(g, log[j], solution[log[j].flow.src], l);
    }
  }

  // ---------- One user ----------

  /** A channel without fixed packet flows that at most one flow uses is used legally. */
  lemma SingleUserIsLegal(log: seq<Routed>, k: Channel)
    requires forall i, j :: 0 <= i < j < |log| ==> !(k in log[i].route && k in log[j].route)
    ensures Legal(GroupsOn(log, k), 0)
  {
    hide GroupsOn, UserCount;
    GroupsOnHas(log, k);
    SingleUser(log, k);
  }

  lemma {:induction false} SingleUser(log: seq<Routed>, k: Channel)
    requires forall i, j :: 0 <= i < j < |log| ==> !(k in log[i].route && k in log[j].route)
    ensures UserCount(log, k) <= 1 && (UserCount(log, k) == 1 ==> exists i :: 0 <= i < |log| && k in log[i].route)
  {
    if log != [] {
      var init := log[..|log| - 1];
      assert forall i :: 0 <= i < |init| ==> init[i] == log[i];
      SingleUser(init, k);
    }
    UserCountStep(log, k);
  }
}
