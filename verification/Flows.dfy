/** Flows, the packet groups they are put in, and when overlapping flows share a group. */
module Flows {
  import opened StreamSwitch

  datatype Flow = Flow(packetGroupId: int, src: PhysPort, dsts: seq<PhysPort>)

  predicate SamePlace(p: PhysPort, tile: TileLoc, port: Port) {
    p.tileLoc == tile && p.port == port
  }

  predicate HasDst(f: Flow, tile: TileLoc, port: Port) {
    exists i :: 0 <= i < |f.dsts| && SamePlace(f.dsts[i], tile, port)
  }

  function Max(a: int, b: int): int {
    if a < b then b else a
  }

  /** The candidate id after the first `n` flows. */
  function Candidate(flows: seq<Flow>, tile: TileLoc, port: Port, n: nat): int
    requires n <= |flows|
  {
    if n == 0 then -1
    else
      var f := flows[n - 1];
      Max(if HasDst(f, tile, port) then f.packetGroupId else Candidate(flows, tile, port, n - 1), f.packetGroupId)
  }

  predicate Overlaps(flows: seq<Flow>, tile: TileLoc, port: Port, n: nat)
    requires n <= |flows|
  {
    exists i :: 0 <= i < n && HasDst(flows[i], tile, port)
  }

  /** The group of a new packet flow to this destination. */
  function NewGroup(flows: seq<Flow>, tile: TileLoc, port: Port): int {
    var p := Candidate(flows, tile, port, |flows|);
    if Overlaps(flows, tile, port, |flows|) then p else p + 1
  }

  /** Sources are different, and flows go from source ports to destination ports. */
  ghost predicate FlowsOk(flows: seq<Flow>) {
    && (forall i, j :: 0 <= i < j < |flows| ==> flows[i].src != flows[j].src)
    && (forall i :: 0 <= i < |flows| ==> flows[i].src.direction == Src && flows[i].packetGroupId >= -1 && flows[i].dsts != [])
    && (forall i, k :: 0 <= i < |flows| && 0 <= k < |flows[i].dsts| ==> flows[i].dsts[k].direction == Dst)
  }

  /** The first flow, from `n` on, whose source is at this place. */
  function FindSource(flows: seq<Flow>, tile: TileLoc, port: Port, n: nat): (r: Option<nat>)
    requires n <= |flows|
    ensures r.Some? ==> n <= r.value < |flows| && SamePlace(flows[r.value].src, tile, port)
    ensures r.None? ==> forall i :: n <= i < |flows| ==> !SamePlace(flows[i].src, tile, port)
    decreases |flows| - n
  {
    if n == |flows| then None
    else if SamePlace(flows[n].src, tile, port) then Some(n)
    else FindSource(flows, tile, port, n + 1)
  }

  /** A flow of the same source gets one more destination; otherwise there is a new flow, with group -1 for a circuit. */
  function Added(flows: seq<Flow>, srcTile: TileLoc, srcPort: Port, dstTile: TileLoc, dstPort: Port, isPacketFlow: bool): seq<Flow> {
    var dst := PhysPort(dstTile, dstPort, Dst);
    match FindSource(flows, srcTile, srcPort, 0)
    case Some(i) => flows[i := flows[i].(dsts := flows[i].dsts + [dst])]
    case None =>
      flows + [Flow(if isPacketFlow then NewGroup(flows, dstTile, dstPort) else -1, PhysPort(srcTile, srcPort, Src), [dst])]
  }

  lemma {:induction false} CandidateAtLeast(flows: seq<Flow>, tile: TileLoc, port: Port, n: nat)
    requires n <= |flows| && forall i :: 0 <= i < |flows| ==> flows[i].packetGroupId >= -1
    ensures Candidate(flows, tile, port, n) >= -1
  {
    if n > 0 { CandidateAtLeast(flows, tile, port, n - 1); }
  }

  /** The flows lead from source `s` to destination `d`. */
  ghost predicate Requests(flows: seq<Flow>, s: PhysPort, d: PhysPort) {
    exists i :: 0 <= i < |flows| && flows[i].src == s && d in flows[i].dsts
  }

  lemma OneMoreDst(flows: seq<Flow>, k: nat, dst: PhysPort)
    requires FlowsOk(flows) && k < |flows| && dst.direction == Dst
    ensures var after := flows[k := flows[k].(dsts := flows[k].dsts + [dst])];
            && FlowsOk(after)
            && forall s, d :: Requests(after, s, d) <==> Requests(flows, s, d) || (s == flows[k].src && d == dst)
  {
    var after := flows[k := flows[k].(dsts := flows[k].dsts + [dst])];
    forall s, d ensures Requests(after, s, d) <==> Requests(flows, s, d) || (s == flows[k].src && d == dst) {
      assert forall i :: 0 <= i < |flows| ==> after[i].src == flows[i].src;
      assert forall i :: 0 <= i < |flows| ==> (d in after[i].dsts <==> d in flows[i].dsts || (i == k && d == dst));
      if s == flows[k].src && d == dst { assert after[k].src == s && d in after[k].dsts; }
      if i :| 0 <= i < |flows| && flows[i].src == s && d in flows[i].dsts { assert after[i].src == s && d in after[i].dsts; }
    }
  }

  lemma OneMoreFlow(flows: seq<Flow>, f: Flow, dst: PhysPort)
    requires FlowsOk(flows) && f.dsts == [dst] && dst.direction == Dst && f.src.direction == Src && f.packetGroupId >= -1
    requires forall i :: 0 <= i < |flows| ==> flows[i].src != f.src
    ensures FlowsOk(flows + [f])
    ensures forall s, d :: Requests(flows + [f], s, d) <==> Requests(flows, s, d) || (s == f.src && d == dst)
  {
    var after := flows + [f];
    forall s, d ensures Requests(after, s, d) <==> Requests(flows, s, d) || (s == f.src && d == dst) {
      assert after[|flows|] == f;
      if i :| 0 <= i < |flows| && flows[i].src == s && d in flows[i].dsts { assert after[i].src == s && d in after[i].dsts; }
    }
  }

  /** Sources stay different, and the requests are those of before and the new one. */
  lemma AddedRequests(flows: seq<Flow>, srcTile: TileLoc, srcPort: Port, dstTile: TileLoc, dstPort: Port, isPacketFlow: bool)
    requires FlowsOk(flows)
    ensures FlowsOk(Added(flows, srcTile, srcPort, dstTile, dstPort, isPacketFlow))
    ensures forall s, d :: Requests(Added(flows, srcTile, srcPort, dstTile, dstPort, isPacketFlow), s, d) <==>
              Requests(flows, s, d) || (s == PhysPort(srcTile, srcPort, Src) && d == PhysPort(dstTile, dstPort, Dst))
  {
    hide Requests;
    var dst := PhysPort(dstTile, dstPort, Dst);
    match FindSource(flows, srcTile, srcPort, 0)
    case Some(i) =>
      OneMoreDst(flows, i, dst);
      assert flows[i].src == PhysPort(srcTile, srcPort, Src);
    case None =>
      CandidateAtLeast(flows, dstTile, dstPort, |flows|);
      OneMoreFlow(flows, Flow(if isPacketFlow then NewGroup(flows, dstTile, dstPort) else -1, PhysPort(srcTile, srcPort, Src), [dst]), dst);
  }

  // ---------- Shared groups ----------

  /** The groups of the flows after `last` are not larger than that of `last`. */
  predicate NoneLargerAfter(flows: seq<Flow>, last: nat)
    requires last < |flows|
  {
    forall i :: last < i < |flows| ==> flows[i].packetGroupId <= flows[last].packetGroupId
  }

  predicate IsLastOverlap(flows: seq<Flow>, tile: TileLoc, port: Port, last: nat) {
    && last < |flows| && HasDst(flows[last], tile, port)
    && forall i :: last < i < |flows| ==> !HasDst(flows[i], tile, port)
  }

  /** All flows with the destination are in this group, and it is a packet group: channels can be shared. */
  predicate SharesWithAll(flows: seq<Flow>, tile: TileLoc, port: Port, group: int) {
    group >= 0 && forall i :: 0 <= i < |flows| && HasDst(flows[i], tile, port) ==> flows[i].packetGroupId == group
  }

  lemma {:induction false} CandidateAfter(flows: seq<Flow>, tile: TileLoc, port: Port, last: nat, n: nat)
    requires IsLastOverlap(flows, tile, port, last) && last < n <= |flows|
    ensures Candidate(flows, tile, port, n) >= flows[last].packetGroupId
    ensures forall i :: last < i < n ==> Candidate(flows, tile, port, n) >= flows[i].packetGroupId
    ensures Candidate(flows, tile, port, n) == flows[last].packetGroupId
            || exists i :: last < i < n && Candidate(flows, tile, port, n) == flows[i].packetGroupId
  {
    if n > last + 1 { CandidateAfter(flows, tile, port, last, n - 1); }
  }

  /**
   * A new flow gets the group of all flows with its destination exactly when these are all in the
   * group of the last one and no flow after the last one has a larger group.
   */
  lemma WhenGroupIsShared(flows: seq<Flow>, tile: TileLoc, port: Port, last: nat)
    requires IsLastOverlap(flows, tile, port, last)
    ensures SharesWithAll(flows, tile, port, NewGroup(flows, tile, port)) <==>
            SharesWithAll(flows, tile, port, flows[last].packetGroupId) && NoneLargerAfter(flows, last)
  {
    CandidateAfter(flows, tile, port, last, |flows|);
    assert Overlaps(flows, tile, port, |flows|);
  }

  lemma {:induction false} LastOverlap(flows: seq<Flow>, tile: TileLoc, port: Port, n: nat) returns (last: nat)
    requires n <= |flows| && Overlaps(flows, tile, port, n)
    ensures last < n && HasDst(flows[last], tile, port) && forall i :: last < i < n ==> !HasDst(flows[i], tile, port)
  {
    if HasDst(flows[n - 1], tile, port) { last := n - 1; } else { last := LastOverlap(flows, tile, port, n - 1); }
  }

  /**
   * A new packet flow is put into group -1, and so is treated as a circuit, exactly when the last flow
   * with its destination is a circuit and no packet flow has been added since.
   */
  lemma WhenTakenForCircuit(flows: seq<Flow>, tile: TileLoc, port: Port)
    requires FlowsOk(flows)
    ensures NewGroup(flows, tile, port) == -1 <==>
            exists last: nat :: IsLastOverlap(flows, tile, port, last) && forall i :: last <= i < |flows| ==> flows[i].packetGroupId == -1
  {
    if Overlaps(flows, tile, port, |flows|) {
      var last := LastOverlap(flows, tile, port, |flows|);
      assert IsLastOverlap(flows, tile, port, last);
      CandidateAfter(flows, tile, port, last, |flows|);
      forall other: nat | IsLastOverlap(flows, tile, port, other) ensures other == last {}
    } else {
      CandidateIsMax(flows, tile, port, |flows|);
    }
  }

  lemma {:induction false} CandidateIsMax(flows: seq<Flow>, tile: TileLoc, port: Port, n: nat)
    requires n <= |flows| && !Overlaps(flows, tile, port, n)
    ensures forall i :: 0 <= i < n ==> flows[i].packetGroupId <= Candidate(flows, tile, port, n)
    ensures Candidate(flows, tile, port, n) >= -1
    ensures Candidate(flows, tile, port, n) == -1 || exists i :: 0 <= i < n && flows[i].packetGroupId == Candidate(flows, tile, port, n)
  {
    if n > 0 { CandidateIsMax(flows, tile, port, n - 1); }
  }

  /** Without a common destination the group is a new one. */
  lemma NewGroupIsFresh(flows: seq<Flow>, tile: TileLoc, port: Port)
    requires !Overlaps(flows, tile, port, |flows|)
    ensures NewGroup(flows, tile, port) >= 0
    ensures forall i :: 0 <= i < |flows| ==> flows[i].packetGroupId != NewGroup(flows, tile, port)
  {
    CandidateIsMax(flows, tile, port, |flows|);
  }

  /** A flow to the destination of a flow of group 0, when a flow of group 1 was added in between: it gets group 1. */
  lemma OverlapWithoutSharing() returns (flows: seq<Flow>, dst: PhysPort)
    ensures FlowsOk(flows) && Overlaps(flows, dst.tileLoc, dst.port, |flows|)
    ensures !SharesWithAll(flows, dst.tileLoc, dst.port, NewGroup(flows, dst.tileLoc, dst.port))
  {
    var t := TileLoc(0, 0);
    dst := PhysPort(t, Port(Dma, 0), Dst);
    var other := PhysPort(t, Port(Dma, 1), Dst);
    flows := [Flow(0, PhysPort(t, Port(Core, 0), Src), [dst]), Flow(1, PhysPort(t, Port(Core, 1), Src), [other])];
    assert SamePlace(flows[0].dsts[0], dst.tileLoc, dst.port) && HasDst(flows[0], dst.tileLoc, dst.port);
    assert !HasDst(flows[1], dst.tileLoc, dst.port);
    WhenGroupIsShared(flows, dst.tileLoc, dst.port, 0);
    assert flows[1].packetGroupId > flows[0].packetGroupId;
  }

  // ---------- What a new request does ----------

  /**
   * The group of a new flow: -1 for a circuit; for a packet flow whose destination no flow has, 0 or one
   * more than the largest group there is; otherwise the largest among the groups of the last flow with
   * the destination and of those after it.
   */
  ghost predicate IsGroupOfNew(flows: seq<Flow>, dst: PhysPort, isPacketFlow: bool, group: int) {
    if !isPacketFlow then group == -1
    else if forall i :: 0 <= i < |flows| ==> dst !in flows[i].dsts then
      && group >= 0 && (forall i :: 0 <= i < |flows| ==> flows[i].packetGroupId < group)
      && (group == 0 || exists i :: 0 <= i < |flows| && flows[i].packetGroupId == group - 1)
    else
      exists last: nat :: LastWithDst(flows, dst, last) && IsMaxFrom(flows, last, group)
  }

  ghost predicate LastWithDst(flows: seq<Flow>, dst: PhysPort, last: nat) {
    last < |flows| && dst in flows[last].dsts && forall i :: last < i < |flows| ==> dst !in flows[i].dsts
  }

  ghost predicate IsMaxFrom(flows: seq<Flow>, last: nat, group: int) {
    && (forall i :: last <= i < |flows| ==> flows[i].packetGroupId <= group)
    && exists i :: last <= i < |flows| && flows[i].packetGroupId == group
  }

  lemma HasDstIs(flows: seq<Flow>, tile: TileLoc, port: Port)
    requires FlowsOk(flows)
    ensures forall i :: 0 <= i < |flows| ==> (HasDst(flows[i], tile, port) <==> PhysPort(tile, port, Dst) in flows[i].dsts)
  {
    forall i | 0 <= i < |flows| ensures HasDst(flows[i], tile, port) <==> PhysPort(tile, port, Dst) in flows[i].dsts {
      if k :| 0 <= k < |flows[i].dsts| && flows[i].dsts[k] == PhysPort(tile, port, Dst) {
        assert SamePlace(flows[i].dsts[k], tile, port);
      }
      if k :| 0 <= k < |flows[i].dsts| && SamePlace(flows[i].dsts[k], tile, port) {
        assert flows[i].dsts[k] == PhysPort(tile, port, Dst);
      }
    }
  }

  lemma NewGroupIs(flows: seq<Flow>, tile: TileLoc, port: Port)
    requires FlowsOk(flows)
    ensures IsGroupOfNew(flows, PhysPort(tile, port, Dst), true, NewGroup(flows, tile, port))
  {
    HasDstIs(flows, tile, port);
    hide HasDst, FlowsOk;
    if Overlaps(flows, tile, port, |flows|) {
      var last := LastOverlap(flows, tile, port, |flows|);
      CandidateAfter(flows, tile, port, last, |flows|);
      assert LastWithDst(flows, PhysPort(tile, port, Dst), last) && IsMaxFrom(flows, last, NewGroup(flows, tile, port));
    } else {
      CandidateIsMax(flows, tile, port, |flows|);
    }
  }

  lemma GroupOfNewIsUnique(flows: seq<Flow>, dst: PhysPort, isPacketFlow: bool, a: int, b: int)
    requires IsGroupOfNew(flows, dst, isPacketFlow, a) && IsGroupOfNew(flows, dst, isPacketFlow, b)
    ensures a == b
  {
  }

  /** A flow with the source gets one more destination; without one, a new flow is added. No other flow changes. */
  ghost predicate IsAdded(flows: seq<Flow>, after: seq<Flow>, src: PhysPort, dst: PhysPort, isPacketFlow: bool) {
    if exists i :: 0 <= i < |flows| && flows[i].src == src then
      |after| == |flows| && forall i :: 0 <= i < |flows| ==>
        after[i] == if flows[i].src == src then flows[i].(dsts := flows[i].dsts + [dst]) else flows[i]
    else
      && |after| == |flows| + 1 && (forall i :: 0 <= i < |flows| ==> after[i] == flows[i])
      && after[|flows|].src == src && after[|flows|].dsts == [dst]
      && IsGroupOfNew(flows, dst, isPacketFlow, after[|flows|].packetGroupId)
  }

  lemma AddedIs(flows: seq<Flow>, srcTile: TileLoc, srcPort: Port, dstTile: TileLoc, dstPort: Port, isPacketFlow: bool)
    requires FlowsOk(flows)
    ensures IsAdded(flows, Added(flows, srcTile, srcPort, dstTile, dstPort, isPacketFlow),
                    PhysPort(srcTile, srcPort, Src), PhysPort(dstTile, dstPort, Dst), isPacketFlow)
  {
    NewGroupIs(flows, dstTile, dstPort);
    hide IsGroupOfNew, NewGroup;
    assert forall i :: 0 <= i < |flows| ==> (SamePlace(flows[i].src, srcTile, srcPort) <==> flows[i].src == PhysPort(srcTile, srcPort, Src));
    match FindSource(flows, srcTile, srcPort, 0)
    case Some(k) =>
    case None =>
      if !isPacketFlow { CircuitGroup(flows, PhysPort(dstTile, dstPort, Dst)); }
  }

  lemma CircuitGroup(flows: seq<Flow>, dst: PhysPort)
    ensures IsGroupOfNew(flows, dst, false, -1)
  {
  }

  // ---------- Flows by group ----------

  /** The flows of one group among the first `n`, in their order. */
  function OfGroup(flows: seq<Flow>, n: nat, group: int): seq<Flow>
    requires n <= |flows|
  {
    if n == 0 then []
    else OfGroup(flows, n - 1, group) + if flows[n - 1].packetGroupId == group then [flows[n - 1]] else []
  }

  ghost predicate DistinctSources(flows: seq<Flow>) {
    forall i, j :: 0 <= i < j < |flows| ==> flows[i].src != flows[j].src
  }

  ghost predicate IsGrouping(grouped: map<int, seq<Flow>>, flows: seq<Flow>, n: nat)
    requires n <= |flows|
  {
    && (forall group :: group in grouped <==> exists i :: 0 <= i < n && flows[i].packetGroupId == group)
    && (forall group :: group in grouped ==> grouped[group] == OfGroup(flows, n, group))
  }

  lemma {:induction false} OfGroupHas(flows: seq<Flow>, n: nat, group: int, f: Flow)
    requires n <= |flows|
    ensures f in OfGroup(flows, n, group) <==> f in flows[..n] && f.packetGroupId == group
  {
    if n > 0 {
      OfGroupHas(flows, n - 1, group, f);
      assert flows[..n] == flows[..n - 1] + [flows[n - 1]];
    }
  }

  lemma {:induction false} OfGroupDistinct(flows: seq<Flow>, n: nat, group: int)
    requires n <= |flows| && DistinctSources(flows)
    ensures DistinctSources(OfGroup(flows, n, group))
  {
    if n > 0 {
      OfGroupDistinct(flows, n - 1, group);
      forall f | f in OfGroup(flows, n - 1, group) ensures f.src != flows[n - 1].src {
        OfGroupHas(flows, n - 1, group, f);
      }
    }
  }

  /** The flows of a group are listed in the order in which they were added. */
  lemma {:induction false} OfGroupOrder(flows: seq<Flow>, n: nat, group: int, a: nat, b: nat)
    requires n <= |flows| && a < b < |OfGroup(flows, n, group)|
    ensures exists i, j :: 0 <= i < j < n && flows[i] == OfGroup(flows, n, group)[a] && flows[j] == OfGroup(flows, n, group)[b]
  {
    var rest := OfGroup(flows, n - 1, group);
    if b < |rest| {
      OfGroupOrder(flows, n - 1, group, a, b);
    } else {
      OfGroupHas(flows, n - 1, group, rest[a]);
      var i :| 0 <= i < n - 1 && flows[i] == rest[a];
    }
  }

  lemma OfGroupAbsent(flows: seq<Flow>, n: nat, group: int)
    requires n <= |flows| && forall i :: 0 <= i < n ==> flows[i].packetGroupId != group
    ensures OfGroup(flows, n, group) == []
  {
  }

  lemma NothingGrouped(flows: seq<Flow>)
    ensures IsGrouping(map[], flows, 0)
  {
  }

  /** `findPaths`, the grouping of the flows. */
  method GroupFlows(flows: seq<Flow>) returns (groupedFlows: map<int, seq<Flow>>)
    ensures IsGrouping(groupedFlows, flows, |flows|)
  {
    hide IsGrouping, OfGroup;
    groupedFlows := map[];
    NothingGrouped(flows);
    for n := 0 to |flows|
      invariant IsGrouping(groupedFlows, flows, n)
    {
      GroupGrows(groupedFlows, flows, n);
      var f := flows[n];
      var list := if f.packetGroupId in groupedFlows then groupedFlows[f.packetGroupId] else [];
      groupedFlows := groupedFlows[f.packetGroupId := list + [f]];
    }
  }

  lemma GroupGrows(before: map<int, seq<Flow>>, flows: seq<Flow>, n: nat)
    requires n < |flows| && IsGrouping(before, flows, n)
    ensures var f := flows[n];
            IsGrouping(before[f.packetGroupId := (if f.packetGroupId in before then before[f.packetGroupId] else []) + [f]], flows, n + 1)
  {
    var f := flows[n];
    if f.packetGroupId !in before { OfGroupAbsent(flows, n, f.packetGroupId); }
    var after := before[f.packetGroupId := (if f.packetGroupId in before then before[f.packetGroupId] else []) + [f]];
    forall group ensures group in after <==> exists i :: 0 <= i < n + 1 && flows[i].packetGroupId == group {
      if i :| 0 <= i < n + 1 && flows[i].packetGroupId == group { assert i == n || group in before; }
      if group in before {
        var i :| 0 <= i < n && flows[i].packetGroupId == group;
        assert i < n + 1;
      }
    }
  }
}
