/** Master selects of one arbiter (`MSelGenerator`). */
module MSel {
  import opened StreamSwitch

  /** The key of a connection: its list of destination ports. */
  type PortList = seq<Port>

  function PortsOf(dsts: seq<PhysPortAndID>): PortList {
    seq(|dsts|, i requires 0 <= i < |dsts| => dsts[i].physPort.port)
  }

  /** `known` and the connections of the first `n` destination lists. */
  function KnownAfter(known: set<PortList>, dsts: seq<seq<PhysPortAndID>>, n: nat): set<PortList>
    requires n <= |dsts|
  {
    if n == 0 then known else KnownAfter(known, dsts, n - 1) + {PortsOf(dsts[n - 1])}
  }

  /** How many of the first `n` destination lists are not in `known`, repetitions included. */
  function CountNew(known: set<PortList>, dsts: seq<seq<PhysPortAndID>>, n: nat): (r: nat)
    requires n <= |dsts|
    ensures r <= n
  {
    if n == 0 then 0 else CountNew(known, dsts, n - 1) + (if PortsOf(dsts[n - 1]) in known then 0 else 1)
  }

  lemma {:induction false} CountNewBounds(known: set<PortList>, dsts: seq<seq<PhysPortAndID>>, n: nat)
    requires n <= |dsts|
    ensures known <= KnownAfter(known, dsts, n)
    ensures |KnownAfter(known, dsts, n)| <= |known| + CountNew(known, dsts, n)
  {
    if n > 0 {
      CountNewBounds(known, dsts, n - 1);
      if PortsOf(dsts[n - 1]) in known {
        assert KnownAfter(known, dsts, n) == KnownAfter(known, dsts, n - 1);
      }
    }
  }

  /** The assertion in the counting loop: the byte is below 255 whenever another list is looked at. */
  ghost predicate CountAsserted(known: set<PortList>, dsts: seq<seq<PhysPortAndID>>) {
    forall k :: 0 <= k < |dsts| ==> CountNew(known, dsts, k) % 256 < 255
  }

  lemma {:induction false} CountReaches(known: set<PortList>, dsts: seq<seq<PhysPortAndID>>, n: nat, c: nat) returns (k: nat)
    requires n <= |dsts| && c <= CountNew(known, dsts, n)
    ensures k <= n && CountNew(known, dsts, k) == c
  {
    if c == CountNew(known, dsts, n) { k := n; } else { k := CountReaches(known, dsts, n - 1, c); }
  }

  lemma {:induction false} CountGrows(known: set<PortList>, dsts: seq<seq<PhysPortAndID>>, m: nat, n: nat)
    requires m <= n <= |dsts|
    ensures CountNew(known, dsts, m) <= CountNew(known, dsts, n)
  {
    if m < n { CountGrows(known, dsts, m, n - 1); }
  }

  /** The assertion holds exactly when less than 255 new lists come before the last one; then the byte does not wrap. */
  lemma AssertionStopsWrap(known: set<PortList>, dsts: seq<seq<PhysPortAndID>>)
    ensures CountAsserted(known, dsts) <==> dsts == [] || CountNew(known, dsts, |dsts| - 1) < 255
    ensures CountAsserted(known, dsts) ==> CountNew(known, dsts, |dsts|) < 256
  {
    if dsts != [] {
      var last := |dsts| - 1;
      if CountNew(known, dsts, last) >= 255 {
        var k := CountReaches(known, dsts, last, 255);
        assert CountNew(known, dsts, k) % 256 == 255;
      } else {
        forall k | 0 <= k < |dsts| ensures CountNew(known, dsts, k) % 256 < 255 { CountGrows(known, dsts, k, last); }
      }
    }
  }

  lemma {:induction false} KnownAfterGrows(known: set<PortList>, dsts: seq<seq<PhysPortAndID>>, m: nat, n: nat)
    requires m <= n <= |dsts|
    ensures KnownAfter(known, dsts, m) <= KnownAfter(known, dsts, n)
  {
    if m < n { KnownAfterGrows(known, dsts, m, n - 1); }
  }

  /** When there is no msel left for a new connection, there are too few for all of them. */
  lemma NoMSelLeft(known: set<PortList>, dsts: seq<seq<PhysPortAndID>>, n: nat, numMSels: nat)
    requires n < |dsts| && PortsOf(dsts[n]) !in KnownAfter(known, dsts, n)
    requires numMSels <= |KnownAfter(known, dsts, n)|
    ensures numMSels < |KnownAfter(known, dsts, |dsts|)|
  {
    KnownAfterGrows(known, dsts, n + 1, |dsts|);
    var few, all := KnownAfter(known, dsts, n + 1), KnownAfter(known, dsts, |dsts|);
    assert |all - few| == |all| - |few|;
  }

  /** The connections after each of the first `n` sources has been given its own. */
  function Assign(m: map<PhysPortAndID, PortList>, srcs: seq<PhysPortAndID>, dsts: seq<seq<PhysPortAndID>>, n: nat): map<PhysPortAndID, PortList>
    requires |srcs| == |dsts| && n <= |srcs|
  {
    if n == 0 then m else Assign(m, srcs, dsts, n - 1)[srcs[n - 1] := PortsOf(dsts[n - 1])]
  }

  /** `known` and the different destination port lists in `dsts`. */
  function LoadAfter(known: set<PortList>, dsts: seq<seq<PhysPortAndID>>): set<PortList> {
    KnownAfter(known, dsts, |dsts|)
  }

  /** The state of a generator as a value. */
  datatype MSelState = MSelState(srcs: seq<PhysPortAndID>, msels: map<PortList, nat>, conns: map<PhysPortAndID, PortList>) {
    /** Every source has a connection and every connection its own msel. */
    ghost predicate Consistent(numMSels: nat) {
      && (forall c :: c in msels ==> msels[c] < numMSels && msels[c] < |msels|)
      && (forall c, d :: c in msels && d in msels && msels[c] == msels[d] ==> c == d)
      && (forall s :: s in srcs <==> s in conns)
      && (forall s :: s in conns ==> conns[s] in msels)
    }

    /** This is `before` with one more source and its connection. */
    ghost predicate ExtendsByOne(before: MSelState, src: PhysPortAndID, dsts: seq<PhysPortAndID>) {
      && msels.Keys == before.msels.Keys + {PortsOf(dsts)}
      && srcs == before.srcs + [src]
      && conns == before.conns[src := PortsOf(dsts)]
      && forall c :: c in before.msels ==> c in msels && msels[c] == before.msels[c]
    }

    /** This is `before` with the first `n` of the given sources and their connections added. */
    ghost predicate ExtendsBy(before: MSelState, newSrcs: seq<PhysPortAndID>, dsts: seq<seq<PhysPortAndID>>, n: nat)
      requires |newSrcs| == |dsts| && n <= |newSrcs|
    {
      && msels.Keys == KnownAfter(before.msels.Keys, dsts, n)
      && srcs == before.srcs + newSrcs[..n]
      && conns == Assign(before.conns, newSrcs, dsts, n)
      && forall c :: c in before.msels ==> c in msels && msels[c] == before.msels[c]
    }

    /** This is `before` with the given sources and their connections added. */
    ghost predicate Extends(before: MSelState, newSrcs: seq<PhysPortAndID>, dsts: seq<seq<PhysPortAndID>>)
      requires |newSrcs| == |dsts|
    {
      && msels.Keys == LoadAfter(before.msels.Keys, dsts)
      && srcs == before.srcs + newSrcs
      && conns == Assign(before.conns, newSrcs, dsts, |newSrcs|)
      && forall c :: c in before.msels ==> c in msels && msels[c] == before.msels[c]
    }
  }

  lemma ExtendedByNone(s: MSelState, newSrcs: seq<PhysPortAndID>, dsts: seq<seq<PhysPortAndID>>)
    requires |newSrcs| == |dsts|
    ensures s.ExtendsBy(s, newSrcs, dsts, 0)
  {
  }

  lemma ExtendedByNext(s: MSelState, before: MSelState, after: MSelState, newSrcs: seq<PhysPortAndID>, dsts: seq<seq<PhysPortAndID>>, n: nat)
    requires |newSrcs| == |dsts| && n < |newSrcs|
    requires before.ExtendsBy(s, newSrcs, dsts, n) && after.ExtendsByOne(before, newSrcs[n], dsts[n])
    ensures after.ExtendsBy(s, newSrcs, dsts, n + 1)
  {
    assert newSrcs[..n + 1] == newSrcs[..n] + [newSrcs[n]];
    hide PortsOf;
    assert s.msels.Keys <= before.msels.Keys by {
      forall c | c in s.msels ensures c in before.msels {}
    }
  }

  lemma ExtendedByAll(s: MSelState, after: MSelState, newSrcs: seq<PhysPortAndID>, dsts: seq<seq<PhysPortAndID>>)
    requires |newSrcs| == |dsts| && after.ExtendsBy(s, newSrcs, dsts, |newSrcs|)
    ensures after.Extends(s, newSrcs, dsts)
  {
    assert newSrcs[..|newSrcs|] == newSrcs;
  }

  class MSelGenerator {
    const numMSels: nat
    /** The msel value for the next new connection. */
    var curMSel: nat
    var srcPhysPortAndIDs: seq<PhysPortAndID>
    var connectionToMSel: map<PortList, nat>
    var physPortToConnection: map<PhysPortAndID, PortList>
    /** The connections in the order of their msels. */
    ghost var inOrder: seq<PortList>

    /** The msels given out are 0 to curMSel - 1, one for each connection, and every source has one. */
    ghost predicate Valid()
      reads this
    {
      && curMSel == |connectionToMSel| <= numMSels
      && |inOrder| == curMSel
      && (forall c :: c in connectionToMSel ==> connectionToMSel[c] < curMSel && inOrder[connectionToMSel[c]] == c)
      && (forall s :: s in srcPhysPortAndIDs <==> s in physPortToConnection)
      && (forall s :: s in physPortToConnection ==> physPortToConnection[s] in connectionToMSel)
    }

    ghost function State(): MSelState
      reads this
    {
      MSelState(srcPhysPortAndIDs, connectionToMSel, physPortToConnection)
    }

    constructor (numMSels: nat)
      ensures Valid() && this.numMSels == numMSels && curMSel == 0
      ensures connectionToMSel == map[] && physPortToConnection == map[] && srcPhysPortAndIDs == []
    {
      this.numMSels := numMSels;
      curMSel := 0;
      srcPhysPortAndIDs := [];
      connectionToMSel := map[];
      physPortToConnection := map[];
      inOrder := [];
    }

    method AddConnection(src: PhysPortAndID, dsts: seq<PhysPortAndID>) returns (ok: bool)
      requires Valid()
      modifies this
      ensures Valid()
      ensures ok <==> PortsOf(dsts) in old(connectionToMSel) || old(curMSel) < numMSels
      ensures ok ==> srcPhysPortAndIDs == old(srcPhysPortAndIDs) + [src]
      ensures ok ==> physPortToConnection == old(physPortToConnection)[src := PortsOf(dsts)]
      ensures ok ==> connectionToMSel.Keys == old(connectionToMSel.Keys) + {PortsOf(dsts)}
      ensures forall c :: c in old(connectionToMSel) ==> c in connectionToMSel && connectionToMSel[c] == old(connectionToMSel)[c]
      ensures ok && PortsOf(dsts) !in old(connectionToMSel) ==> connectionToMSel[PortsOf(dsts)] == old(curMSel)
      ensures ok ==> State().ExtendsByOne(old(State()), src, dsts)
      ensures !ok ==> unchanged(this)
      ensures curMSel == |connectionToMSel| <= numMSels
    {
      var dstPorts := PortsOf(dsts);
      if dstPorts !in connectionToMSel {
        if curMSel >= numMSels { return false; }
        connectionToMSel := connectionToMSel[dstPorts := curMSel];
        curMSel := curMSel + 1;
        inOrder := inOrder + [dstPorts];
      }
      physPortToConnection := physPortToConnection[src := dstPorts];
      srcPhysPortAndIDs := srcPhysPortAndIDs + [src];
      return true;
    }

    /** All connections are added if and only if there are enough msels for the different ones among them. */
    method AddConnections(srcs: seq<PhysPortAndID>, dsts: seq<seq<PhysPortAndID>>) returns (ok: bool)
      requires Valid() && |srcs| == |dsts|
      modifies this
      ensures Valid() && State().Consistent(numMSels)
      ensures ok <==> |LoadAfter(old(connectionToMSel.Keys), dsts)| <= numMSels
      ensures ok ==> State().Extends(old(State()), srcs, dsts)
    {
      ghost var before := State();
      ghost var known := before.msels.Keys;
      CurMSelCounts(this);
      ExtendedByNone(before, srcs, dsts);
      hide Valid, PortsOf, KnownAfter, MSelState.ExtendsBy, MSelState.ExtendsByOne;
      for n := 0 to |srcs|
        invariant Valid() && curMSel == |connectionToMSel| <= numMSels
        invariant State().ExtendsBy(before, srcs, dsts, n)
      {
        ghost var mid := State();
        ExtendedKnown(before, mid, srcs, dsts, n);
        ok := AddConnection(srcs[n], dsts[n]);
        if !ok {
          NoMSelLeft(known, dsts, n, numMSels);
          ValidIsConsistent(this);
          return;
        }
        ExtendedByNext(before, mid, State(), srcs, dsts, n);
      }
      ExtendedByAll(before, State(), srcs, dsts);
      ExtendedKnown(before, State(), srcs, dsts, |srcs|);
      ValidIsConsistent(this);
      return true;
    }

    /** The count is an unsigned byte and wraps around. */
    method GetNumMSelsForConnections(srcs: seq<PhysPortAndID>, dsts: seq<seq<PhysPortAndID>>) returns (numMSelsNeeded: nat)
      ensures numMSelsNeeded == CountNew(connectionToMSel.Keys, dsts, |dsts|) % 256
    {
      numMSelsNeeded := 0;
      for n := 0 to |dsts|
        invariant numMSelsNeeded == CountNew(connectionToMSel.Keys, dsts, n) % 256
      {
        var dstPorts := PortsOf(dsts[n]);
        if dstPorts !in connectionToMSel { numMSelsNeeded := (numMSelsNeeded + 1) % 256; }
      }
    }

    method GetMSel(physPortAndID: PhysPortAndID) returns (r: Option<nat>)
      requires Valid()
      ensures r == if physPortAndID in physPortToConnection
                   then Some(connectionToMSel[physPortToConnection[physPortAndID]]) else None
    {
      if physPortAndID !in physPortToConnection { return None; }
      var connectionKey := physPortToConnection[physPortAndID];
      if connectionKey !in connectionToMSel { return None; }
      return Some(connectionToMSel[connectionKey]);
    }

    method GetPhysPortMSels() returns (res: seq<(PhysPortAndID, nat)>)
      requires Valid()
      ensures |res| == |srcPhysPortAndIDs|
      ensures forall i :: 0 <= i < |res| ==>
                res[i] == (srcPhysPortAndIDs[i], connectionToMSel[physPortToConnection[srcPhysPortAndIDs[i]]])
    {
      res := [];
      for n := 0 to |srcPhysPortAndIDs|
        invariant |res| == n
        invariant forall i :: 0 <= i < n ==>
                    res[i] == (srcPhysPortAndIDs[i], connectionToMSel[physPortToConnection[srcPhysPortAndIDs[i]]])
      {
        var maybeMSel := GetMSel(srcPhysPortAndIDs[n]);
        res := res + [(srcPhysPortAndIDs[n], maybeMSel.value)];
      }
    }
  }

  lemma CurMSelCounts(g: MSelGenerator)
    requires g.Valid()
    ensures g.curMSel == |g.connectionToMSel| <= g.numMSels
  {
  }

  lemma ExtendedKnown(s: MSelState, after: MSelState, newSrcs: seq<PhysPortAndID>, dsts: seq<seq<PhysPortAndID>>, n: nat)
    requires |newSrcs| == |dsts| && n <= |newSrcs| && after.ExtendsBy(s, newSrcs, dsts, n)
    ensures after.msels.Keys == KnownAfter(s.msels.Keys, dsts, n) && |after.msels| == |KnownAfter(s.msels.Keys, dsts, n)|
  {
    assert |after.msels| == |after.msels.Keys|;
  }

  lemma ValidIsConsistent(g: MSelGenerator)
    requires g.Valid()
    ensures g.State().Consistent(g.numMSels)
  {
  }

  /** When every source is assigned the ports of its own destinations, the assignment can be looked up. */
  lemma {:induction false} AssignLooksUp(m: map<PhysPortAndID, PortList>, srcs: seq<PhysPortAndID>, dsts: seq<seq<PhysPortAndID>>, n: nat,
                                         own: PhysPortAndID -> seq<PhysPortAndID>, s: PhysPortAndID)
    requires |srcs| == |dsts| && n <= |srcs|
    requires forall i :: 0 <= i < |srcs| ==> dsts[i] == own(srcs[i])
    ensures s in Assign(m, srcs, dsts, n) <==> s in m || s in srcs[..n]
    ensures s in Assign(m, srcs, dsts, n) ==>
              Assign(m, srcs, dsts, n)[s] == if s in srcs[..n] then PortsOf(own(s)) else m[s]
  {
    if n > 0 {
      AssignLooksUp(m, srcs, dsts, n - 1, own, s);
      assert srcs[..n] == srcs[..n - 1] + [srcs[n - 1]];
    }
  }
}
