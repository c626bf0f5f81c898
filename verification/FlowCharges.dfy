/** What a routed flow is charged for, and the accounts of all channels over a group of flows. */
module FlowCharges {
  import opened StreamSwitch
  import opened PortOrder
  import opened SwitchFabric
  import opened ShortestPaths
  import opened Capacity
  import opened Flows

  /** The channel over which the tree enters `v`. */
  function Into(s: Search, v: PhysPort): Channel {
    if v in s.preds then ChannelOf(s.preds[v], v) else ChannelOf(v, v)
  }

  /** The channels over which the tree enters the nodes. */
  ghost function Route(s: Search, nodes: set<PhysPort>): set<Channel> {
    set v | v in nodes && v in s.preds :: Into(s, v)
  }

  /** The fabric after the channels into the first `n` nodes have been charged. */
  ghost function ChargeAll(g: Fabric, s: Search, nodes: seq<PhysPort>, n: nat, group: int): Fabric
    requires n <= |nodes|
  {
    if n == 0 then g
    else
      var before := ChargeAll(g, s, nodes, n - 1, group);
      if Into(s, nodes[n - 1]) in before then ChargeChannel(before, Into(s, nodes[n - 1]), group) else before
  }

  lemma {:induction false} ChargePrefix(g: Fabric, s: Search, nodes: seq<PhysPort>, more: seq<PhysPort>, n: nat, group: int)
    requires n <= |nodes| && n <= |more| && nodes[..n] == more[..n]
    ensures ChargeAll(g, s, nodes, n, group) == ChargeAll(g, s, more, n, group)
  {
    if n > 0 {
      assert nodes[..n][..n - 1] == nodes[..n - 1] && more[..n][..n - 1] == more[..n - 1];
      assert nodes[n - 1] == nodes[..n][n - 1] && more[n - 1] == more[..n][n - 1];
      ChargePrefix(g, s, nodes, more, n - 1, group);
    }
  }

  /** One more node. */
  lemma ChargeOneMore(g: Fabric, s: Search, nodes: seq<PhysPort>, v: PhysPort, group: int)
    requires Into(s, v) in ChargeAll(g, s, nodes, |nodes|, group)
    ensures ChargeAll(g, s, nodes + [v], |nodes| + 1, group) ==
            ChargeChannel(ChargeAll(g, s, nodes, |nodes|, group), Into(s, v), group)
  {
    hide ChargeChannel;
    assert (nodes + [v])[..|nodes|] == nodes == nodes[..|nodes|];
    ChargePrefix(g, s, nodes, nodes + [v], |nodes|, group);
  }

  /** Charging one list of nodes after another. */
  lemma {:induction false} ChargeBoth(g: Fabric, s: Search, t: seq<PhysPort>, w: seq<PhysPort>, n: nat, group: int)
    requires n <= |w|
    ensures ChargeAll(ChargeAll(g, s, t, |t|, group), s, w, n, group) == ChargeAll(g, s, t + w, |t| + n, group)
  {
    hide ChargeChannel;
    if n == 0 {
      assert (t + w)[..|t|] == t == t[..|t|];
      ChargePrefix(g, s, t, t + w, |t|, group);
    } else {
      ChargeBoth(g, s, t, w, n - 1, group);
      assert (t + w)[|t| + n - 1] == w[n - 1];
    }
  }

  /** What a charge leaves as it is. */
  lemma ChargeKeeps(g: Fabric, c: Channel, group: int)
    requires c in g
    ensures var h := ChargeChannel(g, c, group);
            && SameConnections(g, h) && (DemandAtLeastOne(g) ==> DemandAtLeastOne(h))
            && h[c] == Bumped(Charged(g[c], group))
            && (forall k :: k in g && k != c ==>
                  h[k] == g[k] || (group >= 0 && h[k] == g[k].(packetGroupId := group)))
            && (forall k :: k in g ==> h[k].overCapacity == g[k].overCapacity && h[k].fixedPacketFlowCount == g[k].fixedPacketFlowCount)
  {
    var h := ChargeChannel(g, c, group);
    forall k | k in h ensures DemandAtLeastOne(g) ==> h[k].demand >= 1.0 {
      DemandStaysAtLeastOne(Charged(g[c], group));
    }
  }

  lemma {:induction false} ChargeAllKeeps(g: Fabric, s: Search, nodes: seq<PhysPort>, n: nat, group: int)
    requires n <= |nodes|
    ensures var h := ChargeAll(g, s, nodes, n, group);
            && SameConnections(g, h) && (DemandAtLeastOne(g) ==> DemandAtLeastOne(h))
            && (forall k :: k in g ==> h[k].overCapacity == g[k].overCapacity && h[k].fixedPacketFlowCount == g[k].fixedPacketFlowCount)
  {
    hide ChargeChannel;
    if n > 0 {
      ChargeAllKeeps(g, s, nodes, n - 1, group);
      var before := ChargeAll(g, s, nodes, n - 1, group);
      if Into(s, nodes[n - 1]) in before { ChargeKeeps(before, Into(s, nodes[n - 1]), group); }
    }
  }

  /** Different nodes are entered over different channels. */
  lemma DifferentChannels(s: Search, u: PhysPort, v: PhysPort)
    requires u != v && u.direction == v.direction
    ensures Into(s, u) != Into(s, v)
  {
  }

  /** Every channel of the route is charged exactly once, and no other. */
  lemma {:induction false} ChargedOnce(g: Fabric, s: Search, nodes: seq<PhysPort>, n: nat, group: int, k: Channel, start: Cell, uses: nat)
    requires n <= |nodes| && NoRepeats(nodes) && k in g && Within(g[k], start, group, uses)
    requires forall v :: v in nodes ==> v in s.preds && v.direction == Dst && Into(s, v) in g
    ensures k in ChargeAll(g, s, nodes, n, group)
    ensures Within(ChargeAll(g, s, nodes, n, group)[k], start, group,
                   uses + if k in Route(s, PortSet(nodes[..n])) then 1 else 0)
  {
    hide Within, Into, ChargeChannel;
    ChargeAllKeeps(g, s, nodes, n, group);
    if n > 0 {
      var v := nodes[n - 1];
      ChargedOnce(g, s, nodes, n - 1, group, k, start, uses);
      ChargeAllKeeps(g, s, nodes, n - 1, group);
      var before := ChargeAll(g, s, nodes, n - 1, group);
      ChargeKeeps(before, Into(s, v), group);
      RouteGrows(s, nodes, n, k);
      if k == Into(s, v) {
        ChargeWithin(before[k], start, group, uses);
      } else if ChargeChannel(before, Into(s, v), group)[k] != before[k] {
        OnlyMarked(before[k], ChargeChannel(before, Into(s, v), group)[k], start, group,
                   uses + if k in Route(s, PortSet(nodes[..n - 1])) then 1 else 0);
      }
    }
  }

  lemma OnlyMarked(cell: Cell, marked: Cell, start: Cell, group: int, uses: nat)
    requires Within(cell, start, group, uses) && group >= 0 && marked == cell.(packetGroupId := group)
    ensures Within(marked, start, group, uses)
  {
  }

  lemma RouteGrows(s: Search, nodes: seq<PhysPort>, n: nat, k: Channel)
    requires 0 < n <= |nodes| && NoRepeats(nodes) && forall v :: v in nodes ==> v in s.preds && v.direction == Dst
    ensures k in Route(s, PortSet(nodes[..n])) <==> k in Route(s, PortSet(nodes[..n - 1])) || k == Into(s, nodes[n - 1])
    ensures Into(s, nodes[n - 1]) !in Route(s, PortSet(nodes[..n - 1]))
  {
    hide Into;
    var v := nodes[n - 1];
    assert PortSet(nodes[..n]) == PortSet(nodes[..n - 1]) + {v};
    forall u | u in PortSet(nodes[..n - 1]) ensures Into(s, u) != Into(s, v) {
      assert u in nodes && u != v;
      DifferentChannels(s, u, v);
    }
  }

  // ---------- Demands ----------

  /**
   * From `g` to `h` a flow of the group has been charged for its route: every channel of the route that
   * is then in use is half as dear again, and a circuit uses one more capacity of each; the demand and the
   * use of all other channels stay.
   */
  ghost predicate RaisedBy(g: Fabric, h: Fabric, route: set<Channel>, group: int) {
    SameConnections(g, h) && forall k :: k in g ==>
      if k in route then
        && g[k].usedCapacity <= h[k].usedCapacity <= g[k].usedCapacity + 1
        && (group < 0 ==> h[k].usedCapacity == g[k].usedCapacity + 1)
        && h[k].demand == (if h[k].usedCapacity >= 1 then 1.5 * g[k].demand else g[k].demand)
      else h[k].usedCapacity == g[k].usedCapacity && h[k].demand == g[k].demand
  }

  lemma {:induction false} DemandCharged(g: Fabric, s: Search, nodes: seq<PhysPort>, n: nat, group: int)
    requires n <= |nodes| && NoRepeats(nodes)
    requires forall v :: v in nodes ==> v in s.preds && v.direction == Dst && Into(s, v) in g
    ensures RaisedBy(g, ChargeAll(g, s, nodes, n, group), Route(s, PortSet(nodes[..n])), group)
  {
    hide Into, ChargeChannel, Route, RaisedBy, PortSet, NoRepeats;
    if n == 0 {
      NothingRaised(g, s, group);
      assert nodes[..0] == [];
    } else {
      var v := nodes[n - 1];
      DemandCharged(g, s, nodes, n - 1, group);
      ChargeAllKeeps(g, s, nodes, n - 1, group);
      RouteAdds(s, nodes, n);
      RaisedByOneMore(g, ChargeAll(g, s, nodes, n - 1, group), Route(s, PortSet(nodes[..n - 1])), Into(s, v), group);
    }
  }

  lemma NothingRaised(g: Fabric, s: Search, group: int)
    ensures RaisedBy(g, g, Route(s, PortSet([])), group)
  {
  }

  lemma RouteAdds(s: Search, nodes: seq<PhysPort>, n: nat)
    requires 0 < n <= |nodes| && NoRepeats(nodes) && forall v :: v in nodes ==> v in s.preds && v.direction == Dst
    ensures Route(s, PortSet(nodes[..n])) == Route(s, PortSet(nodes[..n - 1])) + {Into(s, nodes[n - 1])}
    ensures Into(s, nodes[n - 1]) !in Route(s, PortSet(nodes[..n - 1]))
  {
    hide Into, Route, PortSet;
    forall k ensures k in Route(s, PortSet(nodes[..n])) <==> k in Route(s, PortSet(nodes[..n - 1])) || k == Into(s, nodes[n - 1]) {
      RouteGrows(s, nodes, n, k);
    }
    RouteGrows(s, nodes, n, Into(s, nodes[n - 1]));
  }

  lemma RaisedByOneMore(g: Fabric, h: Fabric, route: set<Channel>, c: Channel, group: int)
    requires RaisedBy(g, h, route, group) && c in h && c !in route
    ensures RaisedBy(g, ChargeChannel(h, c, group), route + {c}, group)
  {
    ChargeKeeps(h, c, group);
    BumpRaises(Charged(h[c], group));
    hide ChargeChannel, Bumped;
  }

  /** A circuit makes exactly the channels of its route dearer. */
  lemma CircuitRaises(g: Fabric, h: Fabric, route: set<Channel>, group: int)
    requires RaisedBy(g, h, route, group) && group < 0 && DemandAtLeastOne(g)
    ensures forall k :: k in g ==> if k in route then h[k].demand > g[k].demand else h[k].demand == g[k].demand
  {
  }

  /** Closing a group makes every channel that is then in use dearer, once more. */
  ghost predicate ClosedFrom(g: Fabric, h: Fabric) {
    SameConnections(g, h) && forall k :: k in g ==>
      && h[k].usedCapacity == g[k].usedCapacity + (if g[k].packetFlowCount > 0 then 1 else 0)
      && h[k].demand == (if h[k].usedCapacity >= 1 then 1.5 * g[k].demand else g[k].demand)
  }

  lemma CloseRaises(g: Fabric, h: Fabric)
    requires h.Keys == g.Keys && forall k :: k in g ==> h[k] == Closed(g[k])
    ensures ClosedFrom(g, h)
  {
    forall k | k in g ensures h[k] == Closed(g[k]) && h[k].available == g[k].available {
      BumpRaises(if g[k].packetFlowCount > 0 then g[k].(packetFlowCount := 0, usedCapacity := g[k].usedCapacity + 1) else g[k]);
    }
    hide Bumped;
  }

  // ---------- The log of routed flows ----------

  /** A routed flow with the graph it found, the tree its paths were taken from and the channels it is charged for. */
  datatype Routed = Routed(flow: Flow, before: Fabric, tree: Search, route: set<Channel>)

  /** The groups of the flows whose route uses the channel, in the order of routing. */
  ghost function GroupsOn(log: seq<Routed>, k: Channel): seq<int> {
    if log == [] then []
    else
      GroupsOn(log[..|log| - 1], k)
      + if k in log[|log| - 1].route then [log[|log| - 1].flow.packetGroupId] else []
  }

  /** The account of one channel, when the flows of `group` in the log come after those in `base`. */
  ghost predicate Account(cell: Cell, start: Cell, base: seq<int>, groups: seq<int>, group: int) {
    && |base| <= |groups| && groups == base + Copies(group, |groups| - |base|)
    && Within(cell, start, group, |groups| - |base|)
  }

  ghost predicate GroupAccounts(g: Fabric, start: Fabric, base: seq<Routed>, log: seq<Routed>, group: int) {
    g.Keys == start.Keys && forall k :: k in g ==> Account(g[k], start[k], GroupsOn(base, k), GroupsOn(log, k), group)
  }

  ghost predicate AccountsBetween(g: Fabric, log: seq<Routed>, closed: bool) {
    forall k :: k in g ==> Between(g[k], GroupsOn(log, k), closed)
  }

  lemma GroupStarts(g: Fabric, base: seq<Routed>, group: int)
    ensures GroupAccounts(g, g, base, base, group)
  {
    forall k | k in g ensures Account(g[k], g[k], GroupsOn(base, k), GroupsOn(base, k), group) {
      assert GroupsOn(base, k) + Copies(group, 0) == GroupsOn(base, k);
    }
  }

  lemma GroupsOnNext(log: seq<Routed>, r: Routed, k: Channel)
    ensures GroupsOn(log + [r], k) == GroupsOn(log, k) + if k in r.route then [r.flow.packetGroupId] else []
  {
    assert (log + [r])[..|log|] == log;
  }

  /** Routing one more flow of the group. */
  lemma FlowRouted(g: Fabric, start: Fabric, base: seq<Routed>, log: seq<Routed>, flow: Flow, s: Search, nodes: seq<PhysPort>)
    requires GroupAccounts(g, start, base, log, flow.packetGroupId) && NoRepeats(nodes)
    requires forall v :: v in nodes ==> v in s.preds && v.direction == Dst && Into(s, v) in g
    ensures GroupAccounts(ChargeAll(g, s, nodes, |nodes|, flow.packetGroupId), start, base,
                          log + [Routed(flow, g, s, Route(s, PortSet(nodes)))], flow.packetGroupId)
  {
    hide Into, ChargeAll, Route, Account, GroupsOn, NoRepeats, PortSet;
    var group := flow.packetGroupId;
    var h := ChargeAll(g, s, nodes, |nodes|, group);
    var r := Routed(flow, g, s, Route(s, PortSet(nodes)));
    ChargeAllKeeps(g, s, nodes, |nodes|, group);
    forall k | k in h ensures Account(h[k], start[k], GroupsOn(base, k), GroupsOn(log + [r], k), group) {
      ChannelRouted(g, start, base, log, flow, s, nodes, k);
    }
  }

  lemma ChannelRouted(g: Fabric, start: Fabric, base: seq<Routed>, log: seq<Routed>, flow: Flow, s: Search, nodes: seq<PhysPort>, k: Channel)
    requires GroupAccounts(g, start, base, log, flow.packetGroupId) && NoRepeats(nodes) && k in g
    requires forall v :: v in nodes ==> v in s.preds && v.direction == Dst && Into(s, v) in g
    ensures var group, h := flow.packetGroupId, ChargeAll(g, s, nodes, |nodes|, flow.packetGroupId);
            var r := Routed(flow, g, s, Route(s, PortSet(nodes)));
            k in h && Account(h[k], start[k], GroupsOn(base, k), GroupsOn(log + [r], k), group)
  {
    hide Into, Within, ChargeAll, Route, Account, Copies, GroupsOn, NoRepeats, PortSet;
    var group := flow.packetGroupId;
    var b, l := GroupsOn(base, k), GroupsOn(log, k);
    assert nodes[..|nodes|] == nodes;
    AccountHas(g[k], start[k], b, l, group);
    ChargedOnce(g, s, nodes, |nodes|, group, k, start[k], |l| - |b|);
    GroupsOnNext(log, Routed(flow, g, s, Route(s, PortSet(nodes))), k);
    AccountGrows(g[k], ChargeAll(g, s, nodes, |nodes|, group)[k], start[k], b, l, group, k in Route(s, PortSet(nodes)));
  }

  lemma AccountHas(cell: Cell, start: Cell, base: seq<int>, groups: seq<int>, group: int)
    requires Account(cell, start, base, groups, group)
    ensures |base| <= |groups| && Within(cell, start, group, |groups| - |base|)
  {
  }

  lemma AccountGrows(cell: Cell, after: Cell, start: Cell, base: seq<int>, groups: seq<int>, group: int, uses: bool)
    requires Account(cell, start, base, groups, group)
    requires Within(after, start, group, |groups| - |base| + if uses then 1 else 0)
    ensures Account(after, start, base, groups + if uses then [group] else [], group)
  {
    hide Within;
    var n := |groups| - |base|;
    assert base + Copies(group, n) + [group] == base + Copies(group, n + 1);
    assert groups + [] == groups;
  }

  /** Closing the group. */
  lemma GroupRouted(g: Fabric, h: Fabric, start: Fabric, base: seq<Routed>, log: seq<Routed>, group: int, closed: bool)
    requires GroupAccounts(g, start, base, log, group) && AccountsBetween(start, base, closed)
    requires h.Keys == g.Keys && forall k :: k in g ==> h[k] == Closed(g[k])
    ensures AccountsBetween(h, log, true)
  {
    hide Within, Between;
    forall k | k in h ensures Between(h[k], GroupsOn(log, k), true) {
      CloseBetween(g[k], start[k], group, |GroupsOn(log, k)| - |GroupsOn(base, k)|, GroupsOn(base, k), closed);
    }
  }

  // ---------- The first group ----------

  /** A channel is within its capacity exactly when its use is legal, or one packet flow beside 32 or more fixed ones. */
  ghost predicate ExactAccounts(g: Fabric, log: seq<Routed>) {
    forall k :: k in g ==>
      (g[k].usedCapacity <= MAX_CIRCUIT_STREAM_CAPACITY <==>
       Legal(GroupsOn(log, k), g[k].fixedPacketFlowCount) || Overlooked(GroupsOn(log, k), g[k].fixedPacketFlowCount))
  }

  lemma NothingIsExact(g: Fabric)
    requires AccountsBetween(g, [], false)
    ensures ExactAccounts(g, [])
  {
    forall k | k in g ensures g[k].usedCapacity == 0 && GroupsOn([], k) == [] { assert Between(g[k], GroupsOn([], k), false); }
  }

  /** When the first group has been closed the accounts of all channels are exact. */
  lemma FirstGroupRouted(g: Fabric, h: Fabric, start: Fabric, base: seq<Routed>, log: seq<Routed>, group: int)
    requires GroupAccounts(g, start, base, log, group) && AccountsBetween(start, base, false)
    requires h.Keys == g.Keys && forall k :: k in g ==> h[k] == Closed(g[k])
    ensures ExactAccounts(h, log)
  {
    hide GroupsOn, Legal, Overlooked, Closed, Copies;
    forall k | k in h
      ensures h[k].usedCapacity <= MAX_CIRCUIT_STREAM_CAPACITY <==>
              Legal(GroupsOn(log, k), h[k].fixedPacketFlowCount) || Overlooked(GroupsOn(log, k), h[k].fixedPacketFlowCount)
    {
      assert Account(g[k], start[k], GroupsOn(base, k), GroupsOn(log, k), group);
      FirstAccount(g[k], start[k], GroupsOn(base, k), GroupsOn(log, k), group);
    }
  }

  lemma FirstAccount(cell: Cell, start: Cell, base: seq<int>, groups: seq<int>, group: int)
    requires Account(cell, start, base, groups, group) && Between(start, base, false)
    ensures Closed(cell).fixedPacketFlowCount == cell.fixedPacketFlowCount
    ensures Closed(cell).usedCapacity <= MAX_CIRCUIT_STREAM_CAPACITY <==>
            Legal(groups, cell.fixedPacketFlowCount) || Overlooked(groups, cell.fixedPacketFlowCount)
  {
    hide Legal, Overlooked, Copies;
    assert groups == Copies(group, |groups|) by { assert base + Copies(group, |groups|) == Copies(group, |groups|); }
    CloseExact(cell, group, |groups|);
  }

  /** Only flows of the first group use a channel with fixed packet flows that is within its capacity. */
  ghost predicate FixedWithFirst(g: Fabric, log: seq<Routed>, first: int) {
    forall k, x :: k in g && g[k].fixedPacketFlowCount > 0 && g[k].usedCapacity <= MAX_CIRCUIT_STREAM_CAPACITY
                   && x in GroupsOn(log, k) ==>
      x == first
  }

  lemma NothingWithFixed(g: Fabric, first: int)
    ensures FixedWithFirst(g, [], first)
  {
  }

  /** Each later group that uses such a channel takes it over its capacity. */
  lemma FixedGroupRouted(g: Fabric, h: Fabric, start: Fabric, base: seq<Routed>, log: seq<Routed>, group: int, closed: bool, first: int)
    requires GroupAccounts(g, start, base, log, group) && AccountsBetween(start, base, closed) && FixedWithFirst(start, base, first)
    requires h.Keys == g.Keys && forall k :: k in g ==> h[k] == Closed(g[k])
    requires !closed ==> group == first
    ensures FixedWithFirst(h, log, first)
  {
    hide GroupsOn, Closed;
    forall k, x | k in h && h[k].fixedPacketFlowCount > 0 && h[k].usedCapacity <= MAX_CIRCUIT_STREAM_CAPACITY && x in GroupsOn(log, k)
      ensures x == first
    {
      assert Account(g[k], start[k], GroupsOn(base, k), GroupsOn(log, k), group) && Between(start[k], GroupsOn(base, k), closed);
      FixedAccount(g[k], start[k], GroupsOn(base, k), GroupsOn(log, k), group, closed, first, x);
    }
  }

  lemma FixedAccount(cell: Cell, start: Cell, base: seq<int>, groups: seq<int>, group: int, closed: bool, first: int, x: int)
    requires Account(cell, start, base, groups, group) && Between(start, base, closed) && x in groups
    requires Closed(cell).fixedPacketFlowCount > 0 && Closed(cell).usedCapacity <= MAX_CIRCUIT_STREAM_CAPACITY
    requires !closed ==> group == first
    requires forall y :: y in base && start.fixedPacketFlowCount > 0 && start.usedCapacity <= MAX_CIRCUIT_STREAM_CAPACITY ==> y == first
    ensures x == first
  {
    var n := |groups| - |base|;
    hide Legal, Overlooked, Exact;
    if closed && n > 0 {
      LaterGroupsDoNotFit(cell, start, group, n, base);
      assert false;
    } else if closed {
      assert groups == base;
    } else {
      assert groups == Copies(group, n);
    }
  }
}
