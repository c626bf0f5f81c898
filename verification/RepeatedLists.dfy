/**
 * The capacity test of a merge counts a new destination list once for each source that has it, in a
 * byte: many sources with one list are refused although one msel would do, and 256 of them are not
 * in a build without assertions.
 */
module RepeatedLists {
  import opened StreamSwitch
  import opened MSel
  import opened Connections
  import opened Placement

  const TILE := TileLoc(0, 1)
  const FIRST := PhysPortAndID(PhysPort(TILE, Port(Dma, 0), Src), 0)
  const OTHER := PhysPort(TILE, Port(North, 0), Dst)
  const SHARED := PhysPort(TILE, Port(South, 0), Dst)

  const MAX_ID := 0x1_0000_0000

  /** Packets `i` that all enter on one port. */
  function Packet(i: nat): PhysPortAndID
    requires i < MAX_ID
  {
    PhysPortAndID(PhysPort(TILE, Port(Dma, 1), Src), i)
  }

  function Packets(n: nat): seq<PhysPortAndID>
    requires n <= MAX_ID
  {
    seq(n, i requires 0 <= i < n => Packet(i))
  }

  function DestOf(s: PhysPortAndID): seq<PhysPortAndID> {
    [PhysPortAndID(if s == FIRST then OTHER else SHARED, s.id)]
  }

  /** One source to a port of its own, and `n` packet ids that all go to one other port. */
  ghost function Requested(n: nat): Conns
    requires n <= MAX_ID
  {
    map s | s in {FIRST} + (set s | s in Packets(n)) :: DestOf(s)
  }

  function Groups(n: nat): seq<seq<PhysPortAndID>>
    requires n <= MAX_ID
  {
    [[FIRST], Packets(n)]
  }

  lemma TargetsOf(n: nat, s: PhysPortAndID, port: Port)
    requires n <= MAX_ID
    ensures Targets(Requested(n), s, port) <==>
            (s == FIRST && port == OTHER.port) || (s in Packets(n) && port == SHARED.port)
  {
    assert forall i :: 0 <= i < n ==> Packets(n)[i] == Packet(i) != FIRST;
    if s in Requested(n) { assert DestOf(s)[0].physPort.port in {OTHER.port, SHARED.port}; }
  }

  lemma AreLinked(n: nat, s: PhysPortAndID, t: PhysPortAndID)
    requires n <= MAX_ID && s in Packets(n) && t in Packets(n)
    ensures Linked(Requested(n), s, t)
  {
    hide Targets, Linked;
    TargetsOf(n, s, SHARED.port);
    TargetsOf(n, t, SHARED.port);
    assert Shares(Requested(n), s, t);
    LinkedToSelf(Requested(n), s);
    LinkedStep(Requested(n), s, s, t);
  }

  lemma IsClosed(n: nat, group: seq<PhysPortAndID>)
    requires n <= MAX_ID && group in Groups(n)
    ensures Closed(Requested(n), group)
  {
    hide Targets;
    assert forall i :: 0 <= i < n ==> Packets(n)[i] == Packet(i) != FIRST;
    forall s, t | s in group && Shares(Requested(n), s, t) ensures t in group {
      var p :| Targets(Requested(n), s, p) && Targets(Requested(n), t, p);
      TargetsOf(n, s, p);
      TargetsOf(n, t, p);
    }
  }

  lemma AreListedOnce(n: nat)
    requires n <= MAX_ID
    ensures ListedOnce(Groups(n)) && forall s :: InGroup(Groups(n), s) <==> HasDest(Requested(n), s)
  {
    assert forall i :: 0 <= i < n ==> Packets(n)[i] == Packet(i) != FIRST;
    var groups := Groups(n);
    forall s ensures InGroup(groups, s) <==> HasDest(Requested(n), s) {
      assert s in groups[0] <==> s == FIRST;
      assert s in groups[1] <==> s in Packets(n);
    }
  }

  /** The two groups are the connected components of the tile. */
  lemma GroupsAreComponents(n: nat)
    requires 0 < n <= MAX_ID
    ensures AreComponents(Requested(n), Groups(n))
  {
    hide Targets, Linked, ListedOnce, InGroup, HasDest, Requested, Closed;
    AreListedOnce(n);
    var groups := Groups(n);
    forall i | 0 <= i < |groups| ensures groups[i] != [] && AllLinked(Requested(n), groups[i]) && Closed(Requested(n), groups[i]) {
      IsClosed(n, groups[i]);
      forall s, t | s in groups[i] && t in groups[i] ensures Linked(Requested(n), s, t) {
        if i == 0 { LinkedToSelf(Requested(n), FIRST); } else { AreLinked(n, s, t); }
      }
    }
    ClosedGroupsAreComponents(Requested(n), groups);
  }

  lemma {:induction false} SameLists(known: set<PortList>, dsts: seq<seq<PhysPortAndID>>, ports: PortList, n: nat)
    requires n <= |dsts| && ports !in known && forall i :: 0 <= i < n ==> PortsOf(dsts[i]) == ports
    ensures CountNew(known, dsts, n) == n
    ensures KnownAfter(known, dsts, n) == if n == 0 then known else known + {ports}
  {
    hide PortsOf;
    if n > 0 { SameLists(known, dsts, ports, n - 1); }
  }

  lemma ListsOf(n: nat)
    requires n <= MAX_ID
    ensures var c := Requested(n);
            && DstsOf(c, [FIRST]) == [DestOf(FIRST)] && PortsOf(DestOf(FIRST)) == [OTHER.port]
            && |DstsOf(c, Packets(n))| == n && forall i :: 0 <= i < n ==> PortsOf(DstsOf(c, Packets(n))[i]) == [SHARED.port]
  {
    forall i | 0 <= i < n ensures PortsOf(DstsOf(Requested(n), Packets(n))[i]) == [SHARED.port] {
      assert Packets(n)[i] == Packet(i) != FIRST;
      assert DstsOf(Requested(n), Packets(n))[i] == DestOf(Packet(i));
    }
  }

  // What the arbiter has to know before and after the merge.
  const KNOWN: set<PortList> := {[OTHER.port]}
  const BOTH: set<PortList> := {[OTHER.port], [SHARED.port]}

  lemma Loads(n: nat)
    requires 0 < n <= MAX_ID
    ensures var c := Requested(n);
            && LoadAfter({}, DstsOf(c, [FIRST])) == KNOWN && |KNOWN| == 1
            && CountNew(KNOWN, DstsOf(c, Packets(n)), n) == n && |DstsOf(c, Packets(n))| == n
            && LoadAfter(KNOWN, DstsOf(c, Packets(n))) == BOTH && |BOTH| == 2
  {
    ListsOf(n);
    hide Requested, PortsOf, DstsOf;
    SameLists({}, [DestOf(FIRST)], [OTHER.port], 1);
    assert [SHARED.port][0] != [OTHER.port][0];
    SameLists(KNOWN, DstsOf(Requested(n), Packets(n)), [SHARED.port], n);
    assert {} + {[OTHER.port]} == KNOWN && KNOWN + {[SHARED.port]} == BOTH;
  }

  lemma FirstIsPlaced(n: nat, numMSels: nat)
    requires 0 < n <= MAX_ID && numMSels > 0
    ensures PlaceAll(Requested(n), Groups(n), 1, 1, numMSels) == Some(Placed([0], [KNOWN]))
  {
    Loads(n);
    hide Requested, LoadAfter, DstsOf, CountNew;
    var c, groups := Requested(n), Groups(n);
    assert groups[0] == [FIRST] && PlaceAll(c, groups, 0, 1, numMSels) == Some(Placed([], []));
    var r := Place([], DstsOf(c, groups[0]), 1, numMSels);
    assert r == Some((0, [] + [KNOWN]));
    assert [] + [KNOWN] == [KNOWN] && [] + [0] == [0];
  }

  /** The merge itself. */
  lemma MergePlaced(dsts: seq<seq<PhysPortAndID>>, numMSels: nat)
    requires |KNOWN| == 1 && |BOTH| == 2 && LoadAfter(KNOWN, dsts) == BOTH && CountNew(KNOWN, dsts, |dsts|) == |dsts|
    ensures Place([KNOWN], dsts, 1, numMSels) == if 1 + |dsts| % 256 < numMSels then Some((0, [BOTH])) else None
  {
    hide LoadAfter, CountNew;
    assert [KNOWN][0] == KNOWN && [KNOWN][0 := BOTH] == [BOTH];
    assert FirstFit([KNOWN], dsts, numMSels, 1) == None;
  }

  /**
   * On one arbiter the two groups are placed if and only if the number of packet ids, in a byte, leaves
   * an msel over; two msels are used in any case. With more than 255 packet ids this is the answer of a
   * build without assertions.
   */
  lemma WhenPlaced(n: nat, numMSels: nat)
    requires 0 < n <= MAX_ID && numMSels > 0
    ensures PlaceAll(Requested(n), Groups(n), 2, 1, numMSels) ==
            if 1 + n % 256 < numMSels then Some(Placed([0, 0], [BOTH])) else None
  {
    Loads(n);
    FirstIsPlaced(n, numMSels);
    MergePlaced(DstsOf(Requested(n), Packets(n)), numMSels);
    hide Requested, LoadAfter, DstsOf, CountNew, Place;
    assert Groups(n)[1] == Packets(n) && [0] + [0] == [0, 0];
  }

  /** A build with assertions stops when there are more than 255 packet ids. */
  lemma WhenAsserted(n: nat)
    requires 0 < n <= MAX_ID
    ensures CountAsserted(KNOWN, DstsOf(Requested(n), Packets(n))) <==> n <= 255
  {
    ListsOf(n);
    hide Requested, PortsOf, DstsOf;
    assert [SHARED.port][0] != [OTHER.port][0];
    SameLists(KNOWN, DstsOf(Requested(n), Packets(n)), [SHARED.port], n - 1);
    AssertionStopsWrap(KNOWN, DstsOf(Requested(n), Packets(n)));
    hide CountAsserted;
  }

  /** With 8 msels, 6 packet ids find a place, 7 and 255 do not, and 256 do again, in a build without assertions. */
  lemma OneMoreFits()
    ensures CountAsserted(KNOWN, DstsOf(Requested(255), Packets(255))) && !CountAsserted(KNOWN, DstsOf(Requested(256), Packets(256)))
    ensures PlaceAll(Requested(6), Groups(6), 2, 1, 8).Some? && PlaceAll(Requested(7), Groups(7), 2, 1, 8).None?
    ensures PlaceAll(Requested(255), Groups(255), 2, 1, 8).None? && PlaceAll(Requested(256), Groups(256), 2, 1, 8).Some?
  {
    hide PlaceAll, Requested, CountAsserted, DstsOf;
    WhenAsserted(255);
    WhenAsserted(256);
    WhenPlaced(6, 8);
    WhenPlaced(7, 8);
    WhenPlaced(255, 8);
    WhenPlaced(256, 8);
  }
}
