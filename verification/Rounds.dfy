/** One round of the router: which demands every flow finds, and in which order the flows are routed. */
module Rounds {
  import opened StreamSwitch
  import opened SwitchFabric
  import opened ShortestPaths
  import opened Flows
  import opened FlowCharges

  /** The graph with which a round begins, what is routed, and the graph before the capacities are checked. */
  datatype Round = Round(start: Fabric, log: seq<Routed>, end: Fabric)

  // ---------- One flow after the other ----------

  /** What a flow of `group` finds after `r`: the charges for `r` and, when the group is another one, the closing of that of `r`. */
  ghost predicate NextFrom(r: Routed, group: int, next: Fabric) {
    exists h :: RaisedBy(r.before, h, r.route, r.flow.packetGroupId) &&
                if group == r.flow.packetGroupId then next == h else ClosedFrom(h, next)
  }

  /** Every flow is routed on the tree that the search finds with the demands of that moment. */
  ghost predicate InTurn(start: Fabric, log: seq<Routed>) {
    && (log != [] ==> log[0].before == start)
    && (forall i :: 0 <= i < |log| ==> log[i].tree == Result(log[i].before, log[i].flow.src))
    && (forall i :: 0 < i < |log| ==> NextFrom(log[i - 1], log[i].flow.packetGroupId, log[i].before))
  }

  /** The graph after the last flow; `closed` when its group has been closed. */
  ghost predicate ReachedBy(start: Fabric, log: seq<Routed>, g: Fabric, closed: bool) {
    if log == [] then g == start
    else
      var r := log[|log| - 1];
      exists h :: RaisedBy(r.before, h, r.route, r.flow.packetGroupId) && if closed then ClosedFrom(h, g) else g == h
  }

  lemma NothingInTurn(start: Fabric)
    ensures InTurn(start, []) && ReachedBy(start, [], start, true)
  {
  }

  lemma LastReaches(start: Fabric, log: seq<Routed>, r: Routed, after: Fabric)
    requires RaisedBy(r.before, after, r.route, r.flow.packetGroupId)
    ensures ReachedBy(start, log + [r], after, false)
  {
    hide RaisedBy;
    assert (log + [r])[|log + [r]| - 1] == r;
  }

  /** One more flow of a group; `open` when it is not the first of its group. */
  lemma OneMoreTurn(start: Fabric, log: seq<Routed>, r: Routed, after: Fabric, open: bool)
    requires InTurn(start, log) && ReachedBy(start, log, r.before, !open)
    requires log != [] ==> (open <==> log[|log| - 1].flow.packetGroupId == r.flow.packetGroupId)
    requires r.tree == Result(r.before, r.flow.src) && RaisedBy(r.before, after, r.route, r.flow.packetGroupId)
    ensures InTurn(start, log + [r]) && ReachedBy(start, log + [r], after, false)
  {
    hide RaisedBy, ClosedFrom, Run;
    var more := log + [r];
    LastReaches(start, log, r, after);
    forall i | 0 < i < |more| ensures NextFrom(more[i - 1], more[i].flow.packetGroupId, more[i].before) {
      assert more[i - 1] == log[i - 1];
      if i < |log| { assert more[i] == log[i] && NextFrom(log[i - 1], log[i].flow.packetGroupId, log[i].before); }
    }
  }

  lemma GroupEnds(start: Fabric, log: seq<Routed>, h: Fabric, g: Fabric)
    requires log != [] && ReachedBy(start, log, h, false) && ClosedFrom(h, g)
    ensures ReachedBy(start, log, g, true)
  {
    hide RaisedBy, ClosedFrom;
  }

  // ---------- The order of the flows ----------

  /** Groups in ascending order, and the flows of a group in the order in which they were added. */
  ghost predicate InOrderOf(flows: seq<Flow>, log: seq<Routed>) {
    forall i, j :: 0 <= i < j < |log| ==>
      log[i].flow.packetGroupId < log[j].flow.packetGroupId
      || (log[i].flow.packetGroupId == log[j].flow.packetGroupId && ListedBefore(flows, log[i].flow, log[j].flow))
  }

  ghost predicate ListedBefore(flows: seq<Flow>, e: Flow, f: Flow) {
    exists a, b :: 0 <= a < b < |flows| && flows[a] == e && flows[b] == f
  }

  /** A group that is larger than all before is appended. */
  lemma GroupInOrder(flows: seq<Flow>, before: seq<Routed>, log: seq<Routed>, group: int)
    requires InOrderOf(flows, before) && |before| <= |log| && log[..|before|] == before
    requires forall i :: 0 <= i < |before| ==> before[i].flow.packetGroupId < group
    requires |log| == |before| + |OfGroup(flows, |flows|, group)|
    requires forall i :: 0 <= i < |OfGroup(flows, |flows|, group)| ==> log[|before| + i].flow == OfGroup(flows, |flows|, group)[i]
    ensures InOrderOf(flows, log)
    ensures forall i :: 0 <= i < |log| ==> log[i].flow.packetGroupId <= group
  {
    hide OfGroup;
    var n := |before|;
    assert forall i :: 0 <= i < n ==> log[i] == log[..n][i];
    forall i | n <= i < |log| ensures log[i].flow.packetGroupId == group {
      assert log[n + (i - n)].flow == OfGroup(flows, |flows|, group)[i - n];
      assert OfGroup(flows, |flows|, group)[i - n] in OfGroup(flows, |flows|, group);
      OfGroupHas(flows, |flows|, group, log[i].flow);
    }
    forall i, j | n <= i < j < |log| ensures ListedBefore(flows, log[i].flow, log[j].flow) {
      OfGroupOrder(flows, |flows|, group, i - n, j - n);
      assert log[n + (i - n)] == log[i] && log[n + (j - n)] == log[j];
    }
  }

  // ---------- The start of a round ----------

  /** In how many of the rounds `c` was over capacity. */
  ghost function RoundsOver(over: seq<set<Channel>>, c: Channel): nat {
    |set k: nat | k < |over| && c in over[k]|
  }

  lemma NoRoundsOver(c: Channel)
    ensures RoundsOver([], c) == 0
  {
    var none: seq<set<Channel>> := [];
    assert (set k: nat | k < |none| && c in none[k]) == {};
  }

  /** How often the channel was used in the round before; not at all before the first one. */
  ghost function UsedBefore(prev: Option<Fabric>, c: Channel): nat {
    if prev.Some? && c in prev.value then prev.value[c].usedCapacity else 0
  }

  /**
   * A round begins with all channels unused but for the fixed packet flows. Every round in which a channel
   * was over capacity, and every use in the round before, has made it dearer by a tenth.
   */
  ghost predicate StartsRound(g: Fabric, start: Fabric, over: seq<set<Channel>>, prev: Option<Fabric>) {
    SameConnections(g, start) && forall c :: c in g ==>
      && start[c].fixedPacketFlowCount == g[c].fixedPacketFlowCount == start[c].packetFlowCount
      && start[c].usedCapacity == 0 && start[c].packetGroupId == -1
      && 100.0 * start[c].demand == (10 + RoundsOver(over, c)) as real * (10 + UsedBefore(prev, c)) as real
  }

  ghost function OverCapacity(g: Fabric): set<Channel> {
    set c | c in g && g[c].usedCapacity > 1
  }

  /** How every round goes, after rounds with these channels over capacity and the last of them ending with `prev`. */
  ghost predicate IsRound(g: Fabric, flows: seq<Flow>, r: Round, over: seq<set<Channel>>, prev: Option<Fabric>) {
    && StartsRound(g, r.start, over, prev)
    && InTurn(r.start, r.log) && ReachedBy(r.start, r.log, r.end, true)
    && InOrderOf(flows, r.log)
  }

  /** The first round begins with demands of 1. */
  lemma FirstStart(g: Fabric, start: Fabric)
    requires StartsRound(g, start, [], None)
    ensures forall c :: c in g ==> start[c].demand == 1.0
  {
    forall c | c in g ensures start[c].demand == 1.0 {
      assert 100.0 * start[c].demand == (10 + RoundsOver([], c)) as real * (10 + UsedBefore(None, c)) as real;
      NoRoundsOver(c);
      assert UsedBefore(None, c) == 0;
      assert 100.0 * start[c].demand == 100.0;
    }
  }

  // ---------- All rounds ----------

  /** How the round before `k` ended. */
  ghost function EndBefore(rounds: seq<Round>, k: nat): Option<Fabric>
    requires k <= |rounds|
  {
    if k == 0 then None else Some(rounds[k - 1].end)
  }

  /** The rounds that failed with these channels over capacity, and perhaps a last one in which none was. */
  ghost predicate AreRounds(g: Fabric, flows: seq<Flow>, rounds: seq<Round>, over: seq<set<Channel>>) {
    && |over| <= |rounds| <= |over| + 1
    && forall k :: 0 <= k < |rounds| ==>
         && IsRound(g, flows, rounds[k], over[..k], EndBefore(rounds, k))
         && OverCapacity(rounds[k].end) == if k < |over| then over[k] else {}
  }

  lemma NoRounds(g: Fabric, flows: seq<Flow>)
    ensures AreRounds(g, flows, [], [])
  {
  }

  lemma OneMoreRoundIs(g: Fabric, flows: seq<Flow>, rounds: seq<Round>, over: seq<set<Channel>>, r: Round)
    requires AreRounds(g, flows, rounds, over) && |rounds| == |over|
    requires IsRound(g, flows, r, over, EndBefore(rounds, |rounds|))
    ensures AreRounds(g, flows, rounds + [r], over + [OverCapacity(r.end)])
    ensures OverCapacity(r.end) == {} ==> AreRounds(g, flows, rounds + [r], over)
  {
    hide IsRound, OverCapacity;
    var more, more' := rounds + [r], over + [OverCapacity(r.end)];
    forall k | 0 <= k < |more|
      ensures IsRound(g, flows, more[k], over[..k], EndBefore(more, k)) && more'[..k] == over[..k]
      ensures OverCapacity(more[k].end) == more'[k]
    {
      assert EndBefore(more, k) == EndBefore(rounds, k);
      assert over[..|over|] == over;
      if k < |rounds| { assert more[k] == rounds[k] && more'[k] == over[k]; }
    }
  }
}
