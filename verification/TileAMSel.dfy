/** Arbiters and msels for the packet connections of one tile (`TileAMSelGenerator`). */
module TileAMSel {
  import opened StreamSwitch
  import opened MSel
  import opened Connections
  import opened ComponentSearch
  import opened Placement

  type AMSelMap = map<PhysPortAndID, (nat, nat)>

  /** What a solution promises: limits, one arbiter per destination port, and pairs shared only by equal connections. */
  ghost predicate Solves(c: Conns, amsels: AMSelMap, numArbiters: nat, numMSels: nat) {
    && (forall s :: s in amsels <==> HasDest(c, s))
    && (forall s :: s in amsels ==> amsels[s].0 < numArbiters && amsels[s].1 < numMSels)
    && (forall s, t :: s in amsels && t in amsels && Shares(c, s, t) ==> amsels[s].0 == amsels[t].0)
    && (forall s, t :: s in amsels && t in amsels && amsels[s] == amsels[t] ==> PortsOf(c[s]) == PortsOf(c[t]))
    && (forall s, t :: s in amsels && t in amsels && amsels[s].0 == amsels[t].0 && PortsOf(c[s]) == PortsOf(c[t]) ==>
          amsels[s] == amsels[t])
  }

  /** The components of a tile, in the order of their first ports. */
  ghost predicate Grouped(c: Conns, ports: seq<Port>, groups: seq<seq<PhysPortAndID>>) {
    AreComponents(c, groups) && InOrderOf(c, ports, |ports|, groups)
  }

  /** The first-fit search over the components, in the order of their first ports, gave the arbiters. */
  ghost predicate FirstFitPairs(c: Conns, ports: seq<Port>, amsels: AMSelMap, numArbiters: nat, numMSels: nat) {
    exists groups :: Grouped(c, ports, groups) &&
      var p := PlaceAll(c, groups, |groups|, numArbiters, numMSels);
      p.Some? && ArePlaced(groups, p.value, amsels)
  }

  /** The first-fit search over the components, in the order of their first ports, fails. */
  ghost predicate NoFirstFit(c: Conns, ports: seq<Port>, numArbiters: nat, numMSels: nat) {
    exists groups :: Grouped(c, ports, groups) && PlaceAll(c, groups, |groups|, numArbiters, numMSels).None?
  }

  class TileAMSelGenerator {
    const numArbiters: nat
    const numMSels: nat
    var dstPorts: seq<Port>
    var dstPortToPhysPortAndID: map<Port, seq<PhysPortAndID>>
    var srcToDstPorts: Conns
    var dstToSrcPorts: map<PhysPortAndID, seq<PhysPortAndID>>
    var portsToAMSels: AMSelMap

    ghost function Indexed(): Index
      reads this
    {
      Index(srcToDstPorts, dstToSrcPorts, dstPortToPhysPortAndID, dstPorts)
    }

    ghost predicate Valid()
      reads this
    {
      Indexed().Consistent()
    }

    constructor (numArbiters: nat, numMSels: nat)
      ensures Valid() && srcToDstPorts == map[] && dstPorts == [] && portsToAMSels == map[]
      ensures this.numArbiters == numArbiters && this.numMSels == numMSels
    {
      this.numArbiters, this.numMSels := numArbiters, numMSels;
      dstPorts, dstPortToPhysPortAndID, srcToDstPorts, dstToSrcPorts, portsToAMSels := [], map[], map[], map[], map[];
    }

    method AddConnection(srcPhysPort: PhysPortAndID, dstPhysPorts: seq<PhysPortAndID>)
      requires Valid()
      requires srcPhysPort.physPort.direction == Src
      requires forall d :: d in dstPhysPorts ==> d.physPort.direction == Dst
      modifies this
      ensures Valid() && portsToAMSels == old(portsToAMSels)
      ensures srcToDstPorts == old(srcToDstPorts)[srcPhysPort := Get(old(srcToDstPorts), srcPhysPort) + dstPhysPorts]
      ensures dstPorts == old(dstPorts) + PortsOf(dstPhysPorts)
    {
      hide Index.Consistent;
      hide Push;
      hide WithFirst;
      ghost var c, before := srcToDstPorts, Get(srcToDstPorts, srcPhysPort);
      SourceAdded(Indexed(), srcPhysPort);
      srcToDstPorts := srcToDstPorts[srcPhysPort := Get(srcToDstPorts, srcPhysPort) + dstPhysPorts];
      ghost var final := srcToDstPorts;
      WithNone(c, srcPhysPort, before, dstPhysPorts);
      for n := 0 to |dstPhysPorts|
        invariant srcToDstPorts == final && portsToAMSels == old(portsToAMSels)
        invariant dstPorts == old(dstPorts) + PortsOf(dstPhysPorts)[..n]
        invariant Index(WithFirst(c, srcPhysPort, before, dstPhysPorts, n), dstToSrcPorts, dstPortToPhysPortAndID, dstPorts).Consistent()
      {
        var d := dstPhysPorts[n];
        var p := d.physPort.port;
        DestAdded(Index(WithFirst(c, srcPhysPort, before, dstPhysPorts, n), dstToSrcPorts, dstPortToPhysPortAndID, dstPorts), srcPhysPort, d);
        WithNext(c, srcPhysPort, before, dstPhysPorts, n);
        dstToSrcPorts := Push(dstToSrcPorts, d, srcPhysPort);
        dstPortToPhysPortAndID := Push(dstPortToPhysPortAndID, p, d);
        dstPorts := dstPorts + [p];
      }
      WithAll(c, srcPhysPort, before, dstPhysPorts);
    }

    /** The destinations on a port and all of their sources. */
    method EndsOnPort(port: Port) returns (more: seq<PhysPortAndID>)
      requires Valid() && port in dstPortToPhysPortAndID
      ensures AllOnPort(Indexed(), port, more)
    {
      ghost var ix := Indexed();
      var dsts := dstPortToPhysPortAndID[port];
      assert forall d :: d in dsts <==> Has(ix.byPort, port, d);
      more := dsts;
      for n := 0 to |dsts|
        invariant forall x :: x in more <==> x in dsts || exists k :: 0 <= k < n && Has(ix.dstToSrc, dsts[k], x)
      {
        assert dsts[n] in dsts;
        more := more + dstToSrcPorts[dsts[n]];
      }
      forall x ensures Targets(ix.c, x, port) <==> exists k :: 0 <= k < |dsts| && Has(ix.dstToSrc, dsts[k], x) {
        if Targets(ix.c, x, port) {
          var d :| d in ix.c[x] && d.physPort.port == port;
          assert Has(ix.c, x, d) && Has(ix.dstToSrc, d, x) && d in dsts;
        }
        if k :| 0 <= k < |dsts| && Has(ix.dstToSrc, dsts[k], x) {
          assert dsts[k] in dsts && Has(ix.c, x, dsts[k]);
        }
      }
    }

    /** The inner loop of `solve`: everything that is tied to the sources of `dstPort`. */
    method CollectGroup(dstPort: Port, visitedPhysPortsIn: set<PhysPortAndID>, visitedPortsIn: set<Port>)
        returns (portGroup: seq<PhysPortAndID>, visitedPhysPorts: set<PhysPortAndID>, visitedPorts: set<Port>)
      requires Valid() && dstPort in dstPortToPhysPortAndID && dstPort !in visitedPortsIn
      requires SeenClosed(Indexed(), visitedPhysPortsIn, visitedPortsIn)
      ensures dstPort in visitedPorts && visitedPortsIn <= visitedPorts
      ensures SeenClosed(Indexed(), visitedPhysPorts, visitedPorts)
      ensures GroupIsNew(Indexed(), visitedPhysPortsIn, Search([], visitedPhysPorts, visitedPorts, portGroup))
      ensures portGroup != [] && Closed(srcToDstPorts, portGroup) && AllLinked(srcToDstPorts, portGroup)
      ensures forall s :: s in portGroup ==> HasDest(srcToDstPorts, s)
    {
      ghost var ix := Indexed();
      var q := dstPortToPhysPortAndID[dstPort];
      portGroup, visitedPhysPorts, visitedPorts := [], visitedPhysPortsIn, visitedPortsIn;
      SearchStarts(ix, dstPort, visitedPhysPortsIn, visitedPortsIn);
      while q != []
        invariant SearchOk(ix, dstPort, visitedPhysPortsIn, visitedPortsIn, Search(q, visitedPhysPorts, visitedPorts, portGroup))
        decreases ix.Ends() - visitedPhysPorts, |q|
      {
        ghost var sr := Search(q, visitedPhysPorts, visitedPorts, portGroup);
        QueuedIsEnd(ix, dstPort, sr);
        hide SearchOk;
        var elem := q[0];
        q := q[1..];
        if elem in visitedPhysPorts {
          PopVisited(ix, dstPort, visitedPhysPortsIn, visitedPortsIn, sr);
          continue;
        }
        visitedPhysPorts := visitedPhysPorts + {elem};
        if elem in srcToDstPorts {
          PopSource(ix, dstPort, visitedPhysPortsIn, visitedPortsIn, sr);
          portGroup := portGroup + [elem];
          q := q + srcToDstPorts[elem];
        } else {
          var port := elem.physPort.port;
          if port in visitedPorts {
            PopKnownPort(ix, dstPort, visitedPhysPortsIn, visitedPortsIn, sr);
            continue;
          }
          visitedPorts := visitedPorts + {port};
          var more := EndsOnPort(port);
          PopNewPort(ix, dstPort, visitedPhysPortsIn, visitedPortsIn, sr, more);
          q := q + more;
        }
      }
      SearchEnds(ix, dstPort, visitedPhysPortsIn, visitedPortsIn, Search([], visitedPhysPorts, visitedPorts, portGroup));
    }

    /** The outer loop of `solve` that groups the sources. */
    method GroupSources() returns (portGroups: seq<seq<PhysPortAndID>>)
      requires Valid()
      ensures AreComponents(srcToDstPorts, portGroups)
      ensures InOrderOf(srcToDstPorts, dstPorts, |dstPorts|, portGroups)
    {
      hide AreComponents, SeenClosed, GroupIsNew, GroupsSoFar, InOrderOf, AllFound, GroupTargets, Closed, AllLinked, HasDest;
      hide Index.BothWays, Index.Directed;
      portGroups := [];
      var visitedPhysPorts, visitedPorts := {}, {};
      NoGroups(Indexed());
      for n := 0 to |dstPorts|
        invariant SeenClosed(Indexed(), visitedPhysPorts, visitedPorts)
        invariant forall k :: 0 <= k < n ==> dstPorts[k] in visitedPorts
        invariant GroupsSoFar(srcToDstPorts, portGroups, visitedPhysPorts)
        invariant InOrderOf(srcToDstPorts, dstPorts, n, portGroups) && AllFound(srcToDstPorts, dstPorts, n, portGroups)
      {
        var dstPort := dstPorts[n];
        if dstPort in visitedPorts {
          StillInOrder(srcToDstPorts, dstPorts, n, portGroups);
          continue;
        }
        ghost var before, portsBefore := visitedPhysPorts, visitedPorts;
        var portGroup;
        portGroup, visitedPhysPorts, visitedPorts := CollectGroup(dstPort, visitedPhysPorts, visitedPorts);
        GroupAdded(Indexed(), portGroups, before, Search([], visitedPhysPorts, visitedPorts, portGroup));
        FoundAtPort(Indexed(), before, portsBefore, Search([], visitedPhysPorts, visitedPorts, portGroup), n);
        GroupComesNext(srcToDstPorts, dstPorts, n, portGroups, portGroup);
        portGroups := portGroups + [portGroup];
      }
      AllSourcesSeen(Indexed(), portGroups, visitedPhysPorts, visitedPorts);
    }

    /** The first arbiter with room for the group. */
    method FindArbiter(gens: seq<MSelGenerator>, srcs: seq<PhysPortAndID>, dsts: seq<seq<PhysPortAndID>>) returns (r: Option<nat>)
      requires forall i :: 0 <= i < |gens| ==> gens[i].Valid()
      ensures r == FirstFit(LoadsOf(States(gens)), dsts, numMSels, 0)
    {
      ghost var loads := LoadsOf(States(gens));
      assert forall a :: 0 <= a < |gens| ==> loads[a] == gens[a].connectionToMSel.Keys && |loads[a]| == gens[a].curMSel;
      hide MSelGenerator.Valid;
      hide LoadsOf;
      hide States;
      for a := 0 to |gens|
        invariant FirstFit(loads, dsts, numMSels, 0) == FirstFit(loads, dsts, numMSels, a)
      {
        var numMSelsNeeded := gens[a].GetNumMSelsForConnections(srcs, dsts);
        if gens[a].curMSel + numMSelsNeeded < numMSels { return Some(a); }
      }
      return None;
    }

    /** A new arbiter for the group. */
    method OpenArbiter(gens: seq<MSelGenerator>, group: seq<PhysPortAndID>) returns (ok: bool, gens': seq<MSelGenerator>)
      requires GensOk(gens, numMSels)
      ensures ok <==> |LoadAfter({}, DstsOf(srcToDstPorts, group))| <= numMSels
      ensures |gens'| == |gens| + 1 && gens'[..|gens|] == gens && fresh(gens'[|gens|])
      ensures ok ==> var g := gens'[|gens|];
                g.Valid() && g.numMSels == numMSels && g.State().Consistent(numMSels) &&
                g.State().Extends(MSelState([], map[], map[]), group, DstsOf(srcToDstPorts, group))
    {
      hide MSelState.Extends;
      hide MSelState.Consistent;
      hide LoadAfter;
      hide DstsOf;
      hide MSelGenerator.Valid;
      var mselGenerator := new MSelGenerator(numMSels);
      assert mselGenerator.connectionToMSel.Keys == {};
      ok := mselGenerator.AddConnections(group, DstsOf(srcToDstPorts, group));
      gens' := gens + [mselGenerator];
    }

    /** The body of the assignment loop of `solve`, for one group. */
    method PlaceGroup(gens: seq<MSelGenerator>, group: seq<PhysPortAndID>)
        returns (ok: bool, gens': seq<MSelGenerator>, ghost a: nat)
      requires GensOk(gens, numMSels)
      modifies gens
      ensures ok <==> Place(LoadsOf(old(States(gens))), DstsOf(srcToDstPorts, group), numArbiters, numMSels).Some?
      ensures ok ==> GensOk(gens', numMSels) && forall g :: g in gens' ==> g in gens || fresh(g)
      ensures ok ==> GroupWasPlaced(old(States(gens)), States(gens'), srcToDstPorts, group, a, numArbiters, numMSels)
    {
      hide LoadAfter;
      hide MSelState.Extends;
      hide DstsOf;
      hide MSelState.Consistent;
      hide MSelGenerator.Valid;
      ghost var before := States(gens);
      if |gens| < numArbiters {
        a := |gens|;
        ok, gens' := OpenArbiter(gens, group);
        assert ok ==> States(gens') == before + [gens'[|gens|].State()];
      } else {
        gens' := gens;
        a := 0;
        var foundMerge := FindArbiter(gens, group, DstsOf(srcToDstPorts, group));
        if foundMerge.None? { return false, gens', a; }
        a := foundMerge.value;
        ok := gens[foundMerge.value].AddConnections(group, DstsOf(srcToDstPorts, group));
        assert States(gens') == before[a := gens[a].State()];
      }
    }

    /** The assignment loop of `solve`. */
    method PlaceGroups(portGroups: seq<seq<PhysPortAndID>>) returns (ok: bool, gens: seq<MSelGenerator>, ghost p: Placed)
      requires forall i, s :: 0 <= i < |portGroups| && s in portGroups[i] ==> s in srcToDstPorts
      ensures ok <==> PlaceAll(srcToDstPorts, portGroups, |portGroups|, numArbiters, numMSels).Some?
      ensures ok ==> GensOk(gens, numMSels)
      ensures ok ==> p == PlaceAll(srcToDstPorts, portGroups, |portGroups|, numArbiters, numMSels).value
      ensures ok ==> PlacedOk(States(gens), srcToDstPorts, portGroups, p, numMSels)
    {
      hide PlacedOk;
      hide GensOk;
      hide PlaceAll;
      hide Place;
      hide GroupWasPlaced;
      ghost var c := srcToDstPorts;
      gens, p := [], Placed([], []);
      NothingPlaced(gens, c, portGroups, numArbiters, numMSels);
      for n := 0 to |portGroups|
        invariant GensOk(gens, numMSels) && fresh(set g | g in gens)
        invariant PlaceAll(c, portGroups, n, numArbiters, numMSels) == Some(p)
        invariant PlacedOk(States(gens), c, portGroups, p, numMSels)
      {
        ghost var before := States(gens);
        ghost var a;
        ok, gens, a := PlaceGroup(gens, portGroups[n]);
        if !ok {
          NoPlace(before, c, portGroups, p, n, numArbiters, numMSels);
          return;
        }
        p := NextPlaced(before, States(gens), c, portGroups, p, a, n, numArbiters, numMSels);
      }
      return true, gens, p;
    }

    /** The pairs of one arbiter are entered. */
    method EnterPairs(gen: MSelGenerator, arbiter: nat, amselsIn: AMSelMap) returns (amsels: AMSelMap)
      requires gen.Valid()
      ensures forall s :: s in amsels <==> s in amselsIn || s in gen.State().srcs
      ensures forall s :: s in amsels ==>
                if s in gen.State().srcs then PairAt(gen.State(), arbiter, s, amsels[s]) else amsels[s] == amselsIn[s]
    {
      amsels := amselsIn;
      var pairs := gen.GetPhysPortMSels();
      for n := 0 to |pairs|
        invariant amsels == Enter(amselsIn, pairs, arbiter, n)
      {
        amsels := amsels[pairs[n].0 := (arbiter, pairs[n].1)];
      }
      forall s { EnterLooksUp(amselsIn, gen.State(), pairs, arbiter, |pairs|, s); }
    }

    /** The final loop of `solve`. */
    method CollectPairs(gens: seq<MSelGenerator>) returns (amsels: AMSelMap)
      requires GensOk(gens, numMSels)
      ensures PairsFrom(States(gens), |States(gens)|, amsels)
    {
      amsels := map[];
      for arbiter := 0 to |gens|
        invariant PairsFrom(States(gens), arbiter, amsels)
      {
        ghost var before := amsels;
        amsels := EnterPairs(gens[arbiter], arbiter, amsels);
        assert States(gens)[arbiter] == gens[arbiter].State();
        PairsNext(States(gens), arbiter, before, amsels);
      }
    }

    /** `solve` */
    method Solve() returns (ok: bool, ghost portGroups: seq<seq<PhysPortAndID>>)
      requires Valid()
      modifies this`portsToAMSels
      ensures Valid()
      ensures Grouped(srcToDstPorts, dstPorts, portGroups)
      ensures ok <==> PlaceAll(srcToDstPorts, portGroups, |portGroups|, numArbiters, numMSels).Some?
      ensures ok ==> Solved()
      ensures ok ==> ArePlaced(portGroups, PlaceAll(srcToDstPorts, portGroups, |portGroups|, numArbiters, numMSels).value, portsToAMSels)
      ensures !ok ==> portsToAMSels == map[] && Unsolvable()
    {
      hide Grouped, FirstFitPairs, PlacedOk, Solves, PairsFrom, ArePlaced, PlaceAll, States, Index.Consistent;
      hide AreComponents, InOrderOf, NoFirstFit, GensOk;
      portsToAMSels := map[];
      var groups := GroupSources();
      portGroups := groups;
      GroupsAreFound(Indexed(), groups, numArbiters, numMSels);
      var gens;
      ghost var p;
      ok, gens, p := PlaceGroups(groups);
      if !ok { return; }
      portsToAMSels := CollectPairs(gens);
      AllPlaced(States(gens), Indexed(), groups, p, portsToAMSels, numArbiters, numMSels);
    }

    ghost predicate Solved()
      reads this
    {
      && Solves(srcToDstPorts, portsToAMSels, numArbiters, numMSels)
      && FirstFitPairs(srcToDstPorts, dstPorts, portsToAMSels, numArbiters, numMSels)
    }

    ghost predicate Unsolvable()
      reads this
    {
      NoFirstFit(srcToDstPorts, dstPorts, numArbiters, numMSels)
    }

    method GetAMSel(port: PhysPortAndID) returns (r: Option<(nat, nat)>)
      ensures r == if port in portsToAMSels then Some(portsToAMSels[port]) else None
    {
      if port in portsToAMSels { return Some(portsToAMSels[port]); }
      return None;
    }
  }

  // ---------- Placing the groups ----------

  ghost function States(gens: seq<MSelGenerator>): seq<MSelState>
    reads gens
  {
    seq(|gens|, i requires 0 <= i < |gens| reads gens => gens[i].State())
  }

  ghost function LoadsOf(states: seq<MSelState>): Loads {
    seq(|states|, i requires 0 <= i < |states| => states[i].msels.Keys)
  }

  ghost predicate GensOk(gens: seq<MSelGenerator>, numMSels: nat)
    reads gens
  {
    && (forall i :: 0 <= i < |gens| ==> gens[i].Valid() && gens[i].numMSels == numMSels)
    && (forall i, j :: 0 <= i < j < |gens| ==> gens[i] != gens[j])
  }

  /** Arbiter `a` was chosen and took in the group; the others did not change. */
  ghost predicate GroupWasPlaced(before: seq<MSelState>, after: seq<MSelState>, c: Conns, group: seq<PhysPortAndID>,
                                 a: nat, numArbiters: nat, numMSels: nat)
  {
    var r := Place(LoadsOf(before), DstsOf(c, group), numArbiters, numMSels);
    && a <= |before| && r.Some? && r.value.0 == a && a < |after| && after[a].Consistent(numMSels)
    && after[a].Extends(if a < |before| then before[a] else MSelState([], map[], map[]), group, DstsOf(c, group))
    && after == (if a < |before| then before[a := after[a]] else before + [after[a]])
  }

  /** What the generators of the arbiters hold after the first groups have been placed. */
  ghost predicate PlacedOk(states: seq<MSelState>, c: Conns, groups: seq<seq<PhysPortAndID>>, p: Placed, numMSels: nat) {
    && |states| == |p.loads| && |p.arbiters| <= |groups|
    && (forall a :: 0 <= a < |states| ==> states[a].Consistent(numMSels) && states[a].msels.Keys == p.loads[a])
    && (forall a, s :: 0 <= a < |states| && s in states[a].srcs ==> InGroupAt(groups, p.arbiters, a, s))
    && (forall i, s :: 0 <= i < |p.arbiters| && s in groups[i] ==> Holds(states, c, p.arbiters[i], s))
  }

  /** The generator of arbiter `a` has source `s` with the ports of its destinations. */
  ghost predicate Holds(states: seq<MSelState>, c: Conns, a: nat, s: PhysPortAndID) {
    a < |states| && s in c && s in states[a].srcs && s in states[a].conns && states[a].conns[s] == PortsOf(c[s])
  }

  ghost predicate InGroupAt(groups: seq<seq<PhysPortAndID>>, arbiters: seq<nat>, a: nat, s: PhysPortAndID) {
    exists i :: 0 <= i < |arbiters| && i < |groups| && arbiters[i] == a && s in groups[i]
  }

  lemma LoadsArePlaced(states: seq<MSelState>, c: Conns, groups: seq<seq<PhysPortAndID>>, p: Placed, numMSels: nat)
    requires PlacedOk(states, c, groups, p, numMSels)
    ensures LoadsOf(states) == p.loads
  {
  }

  lemma LoadsNext(before: seq<MSelState>, after: seq<MSelState>, c: Conns, group: seq<PhysPortAndID>, a: nat, numArbiters: nat, numMSels: nat)
    requires GroupWasPlaced(before, after, c, group, a, numArbiters, numMSels)
    ensures LoadsOf(after) == if a < |before| then LoadsOf(before)[a := after[a].msels.Keys] else LoadsOf(before) + [after[a].msels.Keys]
    ensures Place(LoadsOf(before), DstsOf(c, group), numArbiters, numMSels) == Some((a, LoadsOf(after)))
  {
    hide LoadAfter;
    hide DstsOf;
    hide FirstFit;
    if a < |before| {
      assert LoadsOf(after) == LoadsOf(before)[a := after[a].msels.Keys];
      assert after[a].msels.Keys == LoadAfter(LoadsOf(before)[a], DstsOf(c, group));
    } else {
      assert LoadsOf(after) == LoadsOf(before) + [after[a].msels.Keys];
      assert after[a].msels.Keys == LoadAfter({}, DstsOf(c, group)) by {
        assert MSelState([], map[], map[]).msels.Keys == {};
      }
    }
  }

  lemma StillInGroup(groups: seq<seq<PhysPortAndID>>, arbiters: seq<nat>, a: nat, b: nat, s: PhysPortAndID)
    requires |arbiters| < |groups|
    requires (b == a && s in groups[|arbiters|]) || InGroupAt(groups, arbiters, b, s)
    ensures InGroupAt(groups, arbiters + [a], b, s)
  {
    var next := arbiters + [a];
    if b == a && s in groups[|arbiters|] {
      assert next[|arbiters|] == a;
    } else {
      var i :| 0 <= i < |arbiters| && i < |groups| && arbiters[i] == b && s in groups[i];
      assert next[i] == b;
    }
  }

  lemma GroupPlaced(states: seq<MSelState>, after: MSelState, c: Conns, groups: seq<seq<PhysPortAndID>>, p: Placed, a: nat, numMSels: nat)
    requires PlacedOk(states, c, groups, p, numMSels) && |p.arbiters| < |groups|
    requires forall s :: s in groups[|p.arbiters|] ==> s in c
    requires after.Consistent(numMSels)
    requires a <= |states|
    requires var group := groups[|p.arbiters|];
             after.Extends(if a < |states| then states[a] else MSelState([], map[], map[]), group, DstsOf(c, group))
    ensures var p' := Placed(p.arbiters + [a], if a < |states| then p.loads[a := after.msels.Keys] else p.loads + [after.msels.Keys]);
            PlacedOk(if a < |states| then states[a := after] else states + [after], c, groups, p', numMSels)
  {
    hide LoadAfter;
    hide MSelState.Consistent;
    hide PortsOf;
    var n := |p.arbiters|;
    var group := groups[n];
    var before := if a < |states| then states[a] else MSelState([], map[], map[]);
    var states' := if a < |states| then states[a := after] else states + [after];
    var arbiters := p.arbiters + [a];
    assert group[..|group|] == group;
    var own := (s: PhysPortAndID) => if s in c then c[s] else [];
    forall s ensures s in after.conns <==> s in before.conns || s in group
             ensures s in after.conns ==> after.conns[s] == if s in group then PortsOf(own(s)) else before.conns[s]
    {
      AssignLooksUp(before.conns, group, DstsOf(c, group), |group|, own, s);
    }
    hide Assign;
    hide DstsOf;
    forall b, s | 0 <= b < |states'| && s in states'[b].srcs ensures InGroupAt(groups, arbiters, b, s) {
      StillInGroup(groups, p.arbiters, a, b, s);
    }
    hide InGroupAt;
    forall i, s | 0 <= i < |arbiters| && s in groups[i]
      ensures Holds(states', c, arbiters[i], s)
    {
      if i < n { assert Holds(states, c, p.arbiters[i], s); }
    }
  }

  lemma NothingPlaced(gens: seq<MSelGenerator>, c: Conns, groups: seq<seq<PhysPortAndID>>, numArbiters: nat, numMSels: nat)
    requires gens == []
    ensures GensOk(gens, numMSels) && PlacedOk(States(gens), c, groups, Placed([], []), numMSels)
    ensures PlaceAll(c, groups, 0, numArbiters, numMSels) == Some(Placed([], []))
  {
  }

  lemma NoPlace(states: seq<MSelState>, c: Conns, groups: seq<seq<PhysPortAndID>>, p: Placed, n: nat, numArbiters: nat, numMSels: nat)
    requires n < |groups| && PlaceAll(c, groups, n, numArbiters, numMSels) == Some(p)
    requires PlacedOk(states, c, groups, p, numMSels)
    requires Place(LoadsOf(states), DstsOf(c, groups[n]), numArbiters, numMSels).None?
    ensures PlaceAll(c, groups, |groups|, numArbiters, numMSels).None?
  {
    hide Place;
    hide DstsOf;
    LoadsArePlaced(states, c, groups, p, numMSels);
    assert PlaceAll(c, groups, n + 1, numArbiters, numMSels).None?;
    if PlaceAll(c, groups, |groups|, numArbiters, numMSels).Some? {
      PrefixPlaced(c, groups, n + 1, |groups|, numArbiters, numMSels);
    }
  }

  lemma NextPlaced(before: seq<MSelState>, after: seq<MSelState>, c: Conns, groups: seq<seq<PhysPortAndID>>, p: Placed,
                   a: nat, n: nat, numArbiters: nat, numMSels: nat) returns (r: Placed)
    requires n < |groups| && PlaceAll(c, groups, n, numArbiters, numMSels) == Some(p)
    requires forall s :: s in groups[n] ==> s in c
    requires PlacedOk(before, c, groups, p, numMSels) && GroupWasPlaced(before, after, c, groups[n], a, numArbiters, numMSels)
    ensures PlaceAll(c, groups, n + 1, numArbiters, numMSels) == Some(r)
    ensures PlacedOk(after, c, groups, r, numMSels)
  {
    LoadsArePlaced(before, c, groups, p, numMSels);
    LoadsNext(before, after, c, groups[n], a, numArbiters, numMSels);
    r := Placed(p.arbiters + [a], LoadsOf(after));
    hide PlacedOk;
    hide Place;
    hide DstsOf;
    GroupPlaced(before, after[a], c, groups, p, a, numMSels);
  }

  // ---------- The pairs of the sources ----------

  ghost predicate PairAt(state: MSelState, arbiter: nat, s: PhysPortAndID, pair: (nat, nat)) {
    s in state.srcs && s in state.conns && state.conns[s] in state.msels && pair == (arbiter, state.msels[state.conns[s]])
  }

  ghost predicate PairOf(states: seq<MSelState>, s: PhysPortAndID, pair: (nat, nat)) {
    pair.0 < |states| && PairAt(states[pair.0], pair.0, s, pair)
  }

  function Enter(m: AMSelMap, pairs: seq<(PhysPortAndID, nat)>, arbiter: nat, n: nat): AMSelMap
    requires n <= |pairs|
  {
    if n == 0 then m else Enter(m, pairs, arbiter, n - 1)[pairs[n - 1].0 := (arbiter, pairs[n - 1].1)]
  }

  lemma {:induction false} EnterLooksUp(m: AMSelMap, state: MSelState, pairs: seq<(PhysPortAndID, nat)>, arbiter: nat, n: nat, s: PhysPortAndID)
    requires n <= |pairs| == |state.srcs| && (forall c :: c in state.srcs ==> c in state.conns && state.conns[c] in state.msels)
    requires forall i :: 0 <= i < |pairs| ==> pairs[i] == (state.srcs[i], state.msels[state.conns[state.srcs[i]]])
    ensures s in Enter(m, pairs, arbiter, n) <==> s in m || s in state.srcs[..n]
    ensures s in Enter(m, pairs, arbiter, n) ==>
              if s in state.srcs[..n] then PairAt(state, arbiter, s, Enter(m, pairs, arbiter, n)[s])
              else Enter(m, pairs, arbiter, n)[s] == m[s]
    ensures state.srcs[..|pairs|] == state.srcs
  {
    if n > 0 {
      EnterLooksUp(m, state, pairs, arbiter, n - 1, s);
      assert state.srcs[..n] == state.srcs[..n - 1] + [state.srcs[n - 1]];
    }
  }

  /** The sources of the first `n` arbiters have the pairs given out there. */
  ghost predicate PairsFrom(states: seq<MSelState>, n: nat, amsels: AMSelMap) {
    && (forall a, s :: 0 <= a < n && a < |states| && s in states[a].srcs ==> s in amsels)
    && (forall s :: s in amsels ==> amsels[s].0 < n && PairOf(states, s, amsels[s]))
  }

  lemma PairsNext(states: seq<MSelState>, n: nat, before: AMSelMap, after: AMSelMap)
    requires n < |states| && PairsFrom(states, n, before)
    requires forall s :: s in after <==> s in before || s in states[n].srcs
    requires forall s :: s in after ==> if s in states[n].srcs then PairAt(states[n], n, s, after[s]) else after[s] == before[s]
    ensures PairsFrom(states, n + 1, after)
  {
    forall s | s in after ensures after[s].0 < n + 1 && PairOf(states, s, after[s]) {
      if s !in states[n].srcs { assert PairOf(states, s, before[s]); }
    }
  }

  lemma ComponentsAreSources(c: Conns, groups: seq<seq<PhysPortAndID>>)
    requires AreComponents(c, groups)
    ensures forall i, s :: 0 <= i < |groups| && s in groups[i] ==> s in c
  {
    hide Linked;
    forall i, s | 0 <= i < |groups| && s in groups[i] ensures s in c {
      assert InGroup(groups, s);
    }
  }

  /** A source is held by the arbiter of its own group only. */
  lemma PairIsOfGroup(states: seq<MSelState>, c: Conns, groups: seq<seq<PhysPortAndID>>, p: Placed, numMSels: nat,
                      s: PhysPortAndID, pair: (nat, nat)) returns (i: nat)
    requires AreComponents(c, groups) && PlacedOk(states, c, groups, p, numMSels) && |p.arbiters| == |groups|
    requires PairOf(states, s, pair)
    ensures i < |groups| && s in groups[i] && p.arbiters[i] == pair.0 && Holds(states, c, pair.0, s)
  {
    hide Linked;
    hide MSelState.Consistent;
    assert InGroupAt(groups, p.arbiters, pair.0, s);
    i :| 0 <= i < |p.arbiters| && i < |groups| && p.arbiters[i] == pair.0 && s in groups[i];
  }

  lemma SharingIsLinked(c: Conns, s: PhysPortAndID, t: PhysPortAndID)
    requires Shares(c, s, t)
    ensures Linked(c, s, t)
  {
    LinkedToSelf(c, s);
    LinkedStep(c, s, s, t);
  }

  lemma SameGroupSameArbiter(states: seq<MSelState>, c: Conns, groups: seq<seq<PhysPortAndID>>, p: Placed, numMSels: nat,
                             s: PhysPortAndID, t: PhysPortAndID, pairS: (nat, nat), pairT: (nat, nat))
    requires AreComponents(c, groups) && PlacedOk(states, c, groups, p, numMSels) && |p.arbiters| == |groups|
    requires PairOf(states, s, pairS) && PairOf(states, t, pairT)
    ensures Shares(c, s, t) ==> pairS.0 == pairT.0
    ensures pairS == pairT ==> PortsOf(c[s]) == PortsOf(c[t])
    ensures pairS.0 == pairT.0 && PortsOf(c[s]) == PortsOf(c[t]) ==> pairS == pairT
  {
    var i := PairIsOfGroup(states, c, groups, p, numMSels, s, pairS);
    var j := PairIsOfGroup(states, c, groups, p, numMSels, t, pairT);
    if Shares(c, s, t) { SharingIsLinked(c, s, t); }
    hide Linked;
    hide PortsOf;
    hide ListedOnce;
  }

  lemma PairsForSources(states: seq<MSelState>, c: Conns, groups: seq<seq<PhysPortAndID>>, p: Placed, amsels: AMSelMap, numMSels: nat)
    requires AreComponents(c, groups) && PlacedOk(states, c, groups, p, numMSels) && |p.arbiters| == |groups|
    requires PairsFrom(states, |states|, amsels)
    ensures forall s :: s in amsels <==> HasDest(c, s)
    ensures forall s :: s in amsels ==> s in c
  {
    hide Linked;
    hide PortsOf;
    hide MSelState.Consistent;
    forall s ensures s in amsels <==> HasDest(c, s) {
      if s in amsels {
        var i := PairIsOfGroup(states, c, groups, p, numMSels, s, amsels[s]);
        assert InGroup(groups, s);
      }
      if HasDest(c, s) {
        assert InGroup(groups, s);
        var i :| 0 <= i < |groups| && s in groups[i];
        assert Holds(states, c, p.arbiters[i], s);
      }
    }
  }

  /** The arbiter of the pair is that of group `i`, and its msel is one of those in use there. */
  ghost predicate PlacedAt(p: Placed, i: nat, pair: (nat, nat)) {
    i < |p.arbiters| && pair.0 == p.arbiters[i] < |p.loads| && pair.1 < |p.loads[pair.0]|
  }

  /** Every source has the arbiter at which its group was placed. */
  ghost predicate ArePlaced(groups: seq<seq<PhysPortAndID>>, p: Placed, amsels: AMSelMap) {
    forall i, s :: 0 <= i < |groups| && s in groups[i] ==> s in amsels && PlacedAt(p, i, amsels[s])
  }

  lemma PairsArePlaced(states: seq<MSelState>, c: Conns, groups: seq<seq<PhysPortAndID>>, p: Placed, amsels: AMSelMap, numMSels: nat)
    requires AreComponents(c, groups) && PlacedOk(states, c, groups, p, numMSels) && |p.arbiters| == |groups|
    requires PairsFrom(states, |states|, amsels)
    ensures ArePlaced(groups, p, amsels)
  {
    hide Linked, PortsOf;
    forall i, s | 0 <= i < |groups| && s in groups[i] ensures s in amsels && PlacedAt(p, i, amsels[s]) {
      assert InGroup(groups, s);
      assert Holds(states, c, p.arbiters[i], s);
      var k := PairIsOfGroup(states, c, groups, p, numMSels, s, amsels[s]);
      assert k == i by { hide PlacedOk; }
      MselIsInUse(states, p.arbiters[i], s, amsels[s], p, c, groups, numMSels);
    }
  }

  lemma GroupsAreFound(ix: Index, groups: seq<seq<PhysPortAndID>>, numArbiters: nat, numMSels: nat)
    requires AreComponents(ix.c, groups) && InOrderOf(ix.c, ix.dstPorts, |ix.dstPorts|, groups)
    ensures Grouped(ix.c, ix.dstPorts, groups)
    ensures forall i, s :: 0 <= i < |groups| && s in groups[i] ==> s in ix.c
    ensures PlaceAll(ix.c, groups, |groups|, numArbiters, numMSels).None? ==> NoFirstFit(ix.c, ix.dstPorts, numArbiters, numMSels)
  {
    ComponentsAreSources(ix.c, groups);
  }

  lemma AllPlaced(states: seq<MSelState>, ix: Index, groups: seq<seq<PhysPortAndID>>, p: Placed, amsels: AMSelMap,
                  numArbiters: nat, numMSels: nat)
    requires Grouped(ix.c, ix.dstPorts, groups) && PlacedOk(states, ix.c, groups, p, numMSels)
    requires PlaceAll(ix.c, groups, |groups|, numArbiters, numMSels) == Some(p) && PairsFrom(states, |states|, amsels)
    ensures Solves(ix.c, amsels, numArbiters, numMSels)
    ensures ArePlaced(groups, p, amsels) && FirstFitPairs(ix.c, ix.dstPorts, amsels, numArbiters, numMSels)
  {
    PlacedWithinLimits(ix.c, groups, |groups|, numArbiters, numMSels);
    hide PlaceAll, Solves, PairsFrom, ArePlaced, AreComponents, InOrderOf;
    assert |states| == |p.loads|;
    hide PlacedOk;
    PairsSolve(states, ix.c, groups, p, amsels, numArbiters, numMSels);
    PairsArePlaced(states, ix.c, groups, p, amsels, numMSels);
  }

  lemma MselIsInUse(states: seq<MSelState>, a: nat, s: PhysPortAndID, pair: (nat, nat), p: Placed, c: Conns,
                    groups: seq<seq<PhysPortAndID>>, numMSels: nat)
    requires PlacedOk(states, c, groups, p, numMSels) && PairOf(states, s, pair) && pair.0 == a
    ensures a < |p.loads| && pair.1 < |p.loads[a]|
  {
    assert |states[a].msels| == |states[a].msels.Keys|;
  }

  lemma PairsWithinLimits(states: seq<MSelState>, c: Conns, groups: seq<seq<PhysPortAndID>>, p: Placed, amsels: AMSelMap, numMSels: nat)
    requires PlacedOk(states, c, groups, p, numMSels) && PairsFrom(states, |states|, amsels)
    ensures forall s :: s in amsels ==> amsels[s].0 < |states| && amsels[s].1 < numMSels && PairOf(states, s, amsels[s])
  {
    hide PortsOf;
    forall s | s in amsels ensures amsels[s].0 < |states| && amsels[s].1 < numMSels {
      assert PairOf(states, s, amsels[s]);
    }
  }

  lemma PairsSolve(states: seq<MSelState>, c: Conns, groups: seq<seq<PhysPortAndID>>, p: Placed, amsels: AMSelMap,
                   numArbiters: nat, numMSels: nat)
    requires AreComponents(c, groups) && PlacedOk(states, c, groups, p, numMSels) && |p.arbiters| == |groups|
    requires |states| <= numArbiters && PairsFrom(states, |states|, amsels)
    ensures Solves(c, amsels, numArbiters, numMSels)
  {
    hide PortsOf;
    hide Shares;
    hide AreComponents;
    hide PlacedOk;
    hide PairsFrom;
    hide HasDest;
    hide PairOf;
    PairsForSources(states, c, groups, p, amsels, numMSels);
    PairsWithinLimits(states, c, groups, p, amsels, numMSels);
    forall s, t | s in amsels && t in amsels
      ensures Shares(c, s, t) ==> amsels[s].0 == amsels[t].0
      ensures amsels[s] == amsels[t] ==> PortsOf(c[s]) == PortsOf(c[t])
      ensures amsels[s].0 == amsels[t].0 && PortsOf(c[s]) == PortsOf(c[t]) ==> amsels[s] == amsels[t]
    {
      SameGroupSameArbiter(states, c, groups, p, numMSels, s, t, amsels[s], amsels[t]);
    }
  }

  lemma QueuedIsEnd(ix: Index, p0: Port, sr: Search)
    requires Reached(ix, p0, sr) && sr.q != []
    ensures sr.q[0] in ix.Ends()
    ensures sr.q[0] !in ix.c ==> sr.q[0] in ix.dstToSrc
    ensures ix.PortsListed() && sr.q[0] !in ix.c ==> sr.q[0].physPort.port in ix.byPort
  {
    assert Queued(ix, p0, sr.q[0]);
    assert ix.PortsListed() && sr.q[0] in ix.dstToSrc ==> Has(ix.byPort, sr.q[0].physPort.port, sr.q[0]);
  }

  /** The groups found so far hold the visited sources, and each is a whole component. */
  ghost predicate GroupsSoFar(c: Conns, groups: seq<seq<PhysPortAndID>>, seen: set<PhysPortAndID>) {
    && ListedOnce(groups)
    && (forall s :: InGroup(groups, s) <==> s in c && s in seen)
    && (forall s :: InGroup(groups, s) ==> HasDest(c, s))
    && (forall i :: 0 <= i < |groups| ==> groups[i] != [] && AllLinked(c, groups[i]) && Closed(c, groups[i]))
  }

  lemma NoGroups(ix: Index)
    ensures SeenClosed(ix, {}, {}) && GroupsSoFar(ix.c, [], {})
    ensures InOrderOf(ix.c, ix.dstPorts, 0, []) && AllFound(ix.c, ix.dstPorts, 0, [])
  {
  }

  lemma GroupAdded(ix: Index, groups: seq<seq<PhysPortAndID>>, before: set<PhysPortAndID>, sr: Search)
    requires GroupsSoFar(ix.c, groups, before) && GroupIsNew(ix, before, sr)
    requires sr.group != [] && Closed(ix.c, sr.group) && AllLinked(ix.c, sr.group)
    requires forall s :: s in sr.group ==> HasDest(ix.c, s)
    ensures GroupsSoFar(ix.c, groups + [sr.group], sr.seen)
  {
    hide Closed;
    hide AllLinked;
    hide HasDest;
    var r := groups + [sr.group];
    forall s ensures InGroup(r, s) <==> InGroup(groups, s) || s in sr.group {
      if s in sr.group { assert s in r[|groups|]; }
      if InGroup(groups, s) {
        var i :| 0 <= i < |groups| && s in groups[i];
        assert s in r[i];
      }
    }
    forall i, j, k, l | 0 <= i < |r| && 0 <= j < |r| && 0 <= k < |r[i]| && 0 <= l < |r[j]| && r[i][k] == r[j][l]
      ensures i == j && k == l
    {
      if i < |groups| { assert InGroup(groups, r[i][k]); }
      if j < |groups| { assert InGroup(groups, r[j][l]); }
      assert r[i][k] in r[i] && r[j][l] in r[j];
    }
  }

  lemma AllSourcesSeen(ix: Index, groups: seq<seq<PhysPortAndID>>, seen: set<PhysPortAndID>, ports: set<Port>)
    requires ix.Consistent() && GroupsSoFar(ix.c, groups, seen) && SeenClosed(ix, seen, ports)
    requires forall p :: p in ix.dstPorts ==> p in ports
    ensures AreComponents(ix.c, groups)
  {
    hide Closed;
    hide AllLinked;
    forall s | HasDest(ix.c, s) ensures s in seen {
      var d := ix.c[s][0];
      assert Has(ix.c, s, d) && Has(ix.dstToSrc, d, s) && Has(ix.byPort, d.physPort.port, d);
      assert Targets(ix.c, s, d.physPort.port);
    }
    ClosedGroupsAreComponents(ix.c, groups);
  }

  /** `c` with the first `n` of the new destinations added to those that `s` had before. */
  function WithFirst(c: Conns, s: PhysPortAndID, before: seq<PhysPortAndID>, dsts: seq<PhysPortAndID>, n: nat): Conns
    requires n <= |dsts|
  {
    c[s := before + dsts[..n]]
  }

  lemma WithNone(c: Conns, s: PhysPortAndID, before: seq<PhysPortAndID>, dsts: seq<PhysPortAndID>)
    ensures WithFirst(c, s, before, dsts, 0) == c[s := before]
  {
    assert before + dsts[..0] == before;
  }

  lemma WithNext(c: Conns, s: PhysPortAndID, before: seq<PhysPortAndID>, dsts: seq<PhysPortAndID>, n: nat)
    requires n < |dsts|
    ensures Push(WithFirst(c, s, before, dsts, n), s, dsts[n]) == WithFirst(c, s, before, dsts, n + 1)
  {
    assert before + dsts[..n + 1] == before + dsts[..n] + [dsts[n]];
  }

  lemma WithAll(c: Conns, s: PhysPortAndID, before: seq<PhysPortAndID>, dsts: seq<PhysPortAndID>)
    ensures WithFirst(c, s, before, dsts, |dsts|) == c[s := before + dsts]
  {
    assert dsts[..|dsts|] == dsts;
  }

  lemma SourceAdded(ix: Index, s: PhysPortAndID)
    requires ix.Consistent() && s.physPort.direction == Src
    ensures ix.(c := ix.c[s := Get(ix.c, s)]).Consistent()
  {
  }

  lemma DestAdded(ix: Index, s: PhysPortAndID, d: PhysPortAndID)
    requires ix.Consistent() && s.physPort.direction == Src && d.physPort.direction == Dst
    ensures Index(Push(ix.c, s, d), Push(ix.dstToSrc, d, s), Push(ix.byPort, d.physPort.port, d),
                  ix.dstPorts + [d.physPort.port]).Consistent()
  {
    PushAdds(ix.c, s, d);
    PushAdds(ix.dstToSrc, d, s);
    PushAdds(ix.byPort, d.physPort.port, d);
    hide Has;
    hide Push;
  }
}
