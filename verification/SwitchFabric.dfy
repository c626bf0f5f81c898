/** The routable network: the channels inside and between switchboxes, and the paths over them. */
module SwitchFabric {
  import opened StreamSwitch
  import opened PortOrder
  import opened Wiring

  /** One entry of the matrices of a switchbox: from a source port to a destination port. */
  datatype Channel = Channel(srcTile: TileLoc, dstTile: TileLoc, srcPort: Port, dstPort: Port)

  datatype Cell = Cell(
    available: bool, demand: real, overCapacity: nat, usedCapacity: nat,
    packetFlowCount: nat, fixedPacketFlowCount: nat, packetGroupId: int)

  /** The matrices of all switchboxes; inside a switchbox both tiles of a channel are the same. */
  type Fabric = map<Channel, Cell>

  function GetConnectingBundle(dir: Bundle): Bundle {
    match dir
    case North => South
    case South => North
    case East => West
    case West => East
    case _ => dir
  }

  /** Ports of bundle `first` are tied to those of bundle `second` of the tile at this offset. */
  datatype Tie = Tie(first: Bundle, second: Bundle, deltaCol: int, deltaRow: int)

  const DIRECTIONS: seq<Tie> :=
    [Tie(South, North, 0, -1), Tie(North, South, 0, 1), Tie(West, East, -1, 0), Tie(East, West, 1, 0)]

  function ChannelOf(u: PhysPort, v: PhysPort): Channel {
    Channel(u.tileLoc, v.tileLoc, u.port, v.port)
  }

  function EndOf(c: Channel): PhysPort {
    PhysPort(c.dstTile, c.dstPort, Dst)
  }

  /** The channel starts at the port. */
  predicate StartsAt(c: Channel, u: PhysPort) {
    c.srcTile == u.tileLoc && c.srcPort == u.port
  }

  // ---------- Neighbours ----------

  predicate IsInside(g: Fabric, u: PhysPort, c: Channel) {
    c in g && c.srcTile == u.tileLoc && c.dstTile == u.tileLoc && c.srcPort == u.port && g[c].available
  }

  function InsideAmong(g: Fabric, u: PhysPort, cs: set<Channel>): set<PhysPort> {
    set c | c in cs && IsInside(g, u, c) :: EndOf(c)
  }

  /** The ports that `u` can be connected to in its own switchbox. */
  function Inside(g: Fabric, u: PhysPort): set<PhysPort> {
    InsideAmong(g, u, g.Keys)
  }

  function TiedPort(u: PhysPort, d: Tie): PhysPort {
    PhysPort(TileLoc(u.tileLoc.col + d.deltaCol, u.tileLoc.row + d.deltaRow), Port(d.second, u.port.channel), Dst)
  }

  /** The switchbox between the tiles has the destination port. */
  predicate HasDstPort(g: Fabric, src: TileLoc, dst: TileLoc, port: Port) {
    exists c :: c in g && c.srcTile == src && c.dstTile == dst && c.dstPort == port
  }

  predicate IsTied(g: Fabric, u: PhysPort, d: Tie) {
    HasDstPort(g, u.tileLoc, TiedPort(u, d).tileLoc, TiedPort(u, d).port)
    && u.port.bundle == GetConnectingBundle(d.second)
  }

  function TiedAmong(g: Fabric, u: PhysPort, ds: seq<Tie>): set<PhysPort> {
    set d | d in ds && IsTied(g, u, d) :: TiedPort(u, d)
  }

  /** The ports of neighbouring switchboxes that `u` is tied to. */
  function Outside(g: Fabric, u: PhysPort): set<PhysPort> {
    TiedAmong(g, u, DIRECTIONS)
  }

  function Next(g: Fabric, u: PhysPort): set<PhysPort> {
    Inside(g, u) + Outside(g, u)
  }

  /**
   * `u` can be connected to `v` in its switchbox over a free channel, or `v` is at the other end of the
   * link of `u` and some channel between the two switchboxes ends there.
   */
  ghost predicate IsNeighbour(g: Fabric, u: PhysPort, v: PhysPort) {
    v.direction == Dst &&
    if v.tileLoc == u.tileLoc then
      var c := Channel(u.tileLoc, u.tileLoc, u.port, v.port);
      c in g && g[c].available
    else
      OnLink(u) && v == Wired(u) && exists c :: c in g && c.srcTile == u.tileLoc && c.dstTile == v.tileLoc && c.dstPort == v.port
  }

  lemma NextIsNeighbour(g: Fabric, u: PhysPort, v: PhysPort)
    ensures v in Next(g, u) <==> IsNeighbour(g, u, v)
  {
    if v.tileLoc == u.tileLoc {
      assert v !in Outside(g, u);
      var c := Channel(u.tileLoc, u.tileLoc, u.port, v.port);
      if IsNeighbour(g, u, v) { assert IsInside(g, u, c) && EndOf(c) == v; }
      if v in Inside(g, u) {
        var e :| e in g && IsInside(g, u, e) && EndOf(e) == v;
        assert e == c;
      }
    } else {
      assert v !in Inside(g, u);
      OutsideIsWired(g, u, v);
    }
  }

  lemma OutsideIsWired(g: Fabric, u: PhysPort, v: PhysPort)
    ensures v in Outside(g, u) <==> OnLink(u) && v == Wired(u) && HasDstPort(g, u.tileLoc, v.tileLoc, v.port)
  {
    hide HasDstPort;
    if v in Outside(g, u) {
      var d :| d in DIRECTIONS && IsTied(g, u, d) && TiedPort(u, d) == v;
    }
    if OnLink(u) && v == Wired(u) && HasDstPort(g, u.tileLoc, v.tileLoc, v.port) {
      var d := DirectionOf(u);
      assert TiedPort(u, d) == v && IsTied(g, u, d);
    }
  }

  lemma DirectionOf(u: PhysPort) returns (d: Tie)
    requires OnLink(u)
    ensures d in DIRECTIONS && d.first == u.port.bundle == GetConnectingBundle(d.second) && TiedPort(u, d) == Wired(u)
  {
    d := if u.port.bundle == South then DIRECTIONS[0] else if u.port.bundle == North then DIRECTIONS[1]
         else if u.port.bundle == West then DIRECTIONS[2] else DIRECTIONS[3];
  }

  ghost function NextList(g: Fabric, u: PhysPort): seq<PhysPort> {
    Listing(Next(g, u))
  }

  /** A tied destination port is tied to the source port of the same channel number. */
  ghost predicate WellFormed(g: Fabric) {
    forall u, d :: d in DIRECTIONS && IsTied(g, u, d) ==> ChannelOf(u, TiedPort(u, d)) in g
  }

  function Weight(g: Fabric, u: PhysPort, v: PhysPort): real {
    if ChannelOf(u, v) in g then g[ChannelOf(u, v)].demand else 0.0
  }

  ghost predicate NoNegativeDemand(g: Fabric) {
    forall c :: c in g ==> g[c].demand >= 0.0
  }

  ghost predicate DemandAtLeastOne(g: Fabric) {
    forall c :: c in g ==> g[c].demand >= 1.0
  }

  /** Every node that a search can reach. */
  ghost function Ends(g: Fabric): set<PhysPort> {
    set c | c in g :: EndOf(c)
  }

  /** The connection to a neighbour is a channel, and no connection enters a source. */
  lemma NextHasChannel(g: Fabric, u: PhysPort, v: PhysPort)
    requires WellFormed(g) && v in Next(g, u)
    ensures ChannelOf(u, v) in g && v == EndOf(ChannelOf(u, v)) && v in Ends(g)
  {
    if v in Inside(g, u) {
      var c :| c in g && IsInside(g, u, c) && EndOf(c) == v;
      assert ChannelOf(u, v) == c;
    } else {
      var d :| d in DIRECTIONS && IsTied(g, u, d) && TiedPort(u, d) == v;
    }
    assert EndOf(ChannelOf(u, v)) == v;
  }

  /** The two fabrics differ in the use of their channels only. */
  ghost predicate SameConnections(g: Fabric, h: Fabric) {
    g.Keys == h.Keys && forall c :: c in g ==> g[c].available == h[c].available
  }

  lemma SameNext(g: Fabric, h: Fabric, u: PhysPort)
    requires SameConnections(g, h)
    ensures Next(g, u) == Next(h, u)
  {
    assert forall c :: c in g ==> (IsInside(g, u, c) <==> IsInside(h, u, c));
    assert Inside(g, u) == Inside(h, u);
    forall d | d in DIRECTIONS ensures IsTied(g, u, d) <==> IsTied(h, u, d) {
      SameDstPorts(g, h, u.tileLoc, TiedPort(u, d).tileLoc, TiedPort(u, d).port);
    }
    assert Outside(g, u) == Outside(h, u);
  }

  lemma SameDstPorts(g: Fabric, h: Fabric, src: TileLoc, dst: TileLoc, port: Port)
    requires g.Keys == h.Keys
    ensures HasDstPort(g, src, dst, port) <==> HasDstPort(h, src, dst, port)
  {
    if c :| c in g && c.srcTile == src && c.dstTile == dst && c.dstPort == port { assert c in h; }
    if c :| c in h && c.srcTile == src && c.dstTile == dst && c.dstPort == port { assert c in g; }
  }

  lemma SameWellFormed(g: Fabric, h: Fabric)
    requires g.Keys == h.Keys
    ensures WellFormed(g) <==> WellFormed(h)
  {
    forall u: PhysPort, d | d in DIRECTIONS ensures IsTied(g, u, d) <==> IsTied(h, u, d) {
      SameDstPorts(g, h, u.tileLoc, TiedPort(u, d).tileLoc, TiedPort(u, d).port);
    }
  }

  /** Within one switchbox nothing is tied. */
  lemma OneTileIsWellFormed(g: Fabric, tile: TileLoc)
    requires forall c :: c in g ==> c.srcTile == c.dstTile == tile
    ensures WellFormed(g)
  {
    forall u, d | d in DIRECTIONS ensures !IsTied(g, u, d) {
      if c :| c in g && c.srcTile == u.tileLoc && c.dstTile == TiedPort(u, d).tileLoc {}
    }
  }

  /** `dijkstraShortestPaths`, the listing of the neighbours of a port. */
  method ListNeighbours(g: Fabric, u: PhysPort) returns (list: seq<PhysPort>)
    ensures list == NextList(g, u)
    ensures Ascending(list) && forall v :: v in list <==> IsNeighbour(g, u, v)
  {
    hide *;
    list := ListInside(g, u);
    NothingInside(g, u);
    for i := 0 to |DIRECTIONS|
      invariant NoRepeats(list) && PortSet(list) == InsideAmong(g, u, g.Keys) + TiedAmong(g, u, DIRECTIONS[..i])
    {
      var d := DIRECTIONS[i];
      OneMoreTied(g, u, i);
      if IsTied(g, u, d) {
        Appended(list, TiedPort(u, d));
        list := list + [TiedPort(u, d)];
      }
    }
    list := SortPorts(list);
    AllListed(g, u, list);
    ListsNeighbours(g, u);
  }

  lemma ListsNeighbours(g: Fabric, u: PhysPort)
    ensures Ascending(NextList(g, u)) && forall v :: v in NextList(g, u) <==> IsNeighbour(g, u, v)
  {
    hide Next, IsNeighbour, Ascending;
    forall v ensures v in NextList(g, u) <==> IsNeighbour(g, u, v) {
      NextIsNeighbour(g, u, v);
      assert v in NextList(g, u) <==> v in PortSet(NextList(g, u));
    }
  }

  method ListInside(g: Fabric, u: PhysPort) returns (list: seq<PhysPort>)
    ensures NoRepeats(list) && PortSet(list) == InsideAmong(g, u, g.Keys)
  {
    hide *;
    list := [];
    var todo := g.Keys;
    ghost var done: set<Channel> := {};
    NothingInside(g, u);
    while todo != {}
      invariant done !! todo && done + todo == g.Keys
      invariant NoRepeats(list) && PortSet(list) == InsideAmong(g, u, done)
      decreases todo
    {
      var c :| c in todo;
      OneMoreInside(g, u, done, c);
      if IsInside(g, u, c) {
        Appended(list, EndOf(c));
        list := list + [EndOf(c)];
      }
      todo := todo - {c};
      done := done + {c};
    }
    assert done == g.Keys;
  }

  lemma AllListed(g: Fabric, u: PhysPort, list: seq<PhysPort>)
    requires Ascending(list) && PortSet(list) == InsideAmong(g, u, g.Keys) + TiedAmong(g, u, DIRECTIONS[..|DIRECTIONS|])
    ensures list == NextList(g, u)
  {
    assert DIRECTIONS[..|DIRECTIONS|] == DIRECTIONS;
    ListingIs(list);
  }

  lemma NothingInside(g: Fabric, u: PhysPort)
    ensures InsideAmong(g, u, {}) == {} == PortSet([]) && NoRepeats([])
    ensures TiedAmong(g, u, DIRECTIONS[..0]) == {}
  {
  }

  lemma OneMoreInside(g: Fabric, u: PhysPort, done: set<Channel>, c: Channel)
    requires c !in done
    ensures InsideAmong(g, u, done + {c}) == InsideAmong(g, u, done) + (if IsInside(g, u, c) then {EndOf(c)} else {})
    ensures IsInside(g, u, c) ==> EndOf(c) !in InsideAmong(g, u, done)
  {
    if IsInside(g, u, c) {
      assert forall e :: e in done && IsInside(g, u, e) && EndOf(e) == EndOf(c) ==> e == c;
    }
  }

  lemma OneMoreTied(g: Fabric, u: PhysPort, i: nat)
    requires i < |DIRECTIONS|
    ensures TiedAmong(g, u, DIRECTIONS[..i + 1]) ==
            TiedAmong(g, u, DIRECTIONS[..i]) + (if IsTied(g, u, DIRECTIONS[i]) then {TiedPort(u, DIRECTIONS[i])} else {})
    ensures TiedPort(u, DIRECTIONS[i]) !in InsideAmong(g, u, g.Keys) + TiedAmong(g, u, DIRECTIONS[..i])
  {
    hide IsTied;
    assert DIRECTIONS[..i + 1] == DIRECTIONS[..i] + [DIRECTIONS[i]];
    assert TiedPort(u, DIRECTIONS[i]).tileLoc != u.tileLoc;
  }

  // ---------- Paths ----------

  ghost predicate IsPath(g: Fabric, p: seq<PhysPort>) {
    p != [] && forall i :: 0 < i < |p| ==> p[i] in Next(g, p[i - 1])
  }

  /** Every step of a path is to a neighbour. */
  lemma PathIs(g: Fabric, p: seq<PhysPort>)
    ensures IsPath(g, p) <==> p != [] && forall i :: 0 < i < |p| ==> IsNeighbour(g, p[i - 1], p[i])
  {
    hide Next, IsNeighbour;
    forall i | 0 < i < |p| ensures p[i] in Next(g, p[i - 1]) <==> IsNeighbour(g, p[i - 1], p[i]) {
      NextIsNeighbour(g, p[i - 1], p[i]);
    }
  }

  ghost function Cost(g: Fabric, p: seq<PhysPort>): real {
    if |p| <= 1 then 0.0 else Cost(g, p[..|p| - 1]) + Weight(g, p[|p| - 2], p[|p| - 1])
  }

  ghost predicate PathTo(g: Fabric, u: PhysPort, p: seq<PhysPort>, v: PhysPort) {
    IsPath(g, p) && p[0] == u && p[|p| - 1] == v
  }

  /** There is a path of at least one connection. */
  ghost predicate Reachable(g: Fabric, u: PhysPort, v: PhysPort) {
    exists p :: |p| > 1 && PathTo(g, u, p, v)
  }

  lemma StepInside(g: Fabric, u: PhysPort, v: PhysPort)
    requires ChannelOf(u, v) in g && g[ChannelOf(u, v)].available && u.tileLoc == v.tileLoc && v.direction == Dst
    ensures v in Next(g, u)
  {
    assert IsInside(g, u, ChannelOf(u, v)) && EndOf(ChannelOf(u, v)) == v;
  }

  lemma StepOver(g: Fabric, u: PhysPort, d: Tie)
    requires d in DIRECTIONS && u.port.bundle == GetConnectingBundle(d.second) && ChannelOf(u, TiedPort(u, d)) in g
    ensures TiedPort(u, d) in Next(g, u)
  {
    assert IsTied(g, u, d);
    hide TiedPort, IsTied;
  }

  lemma OneStepReaches(g: Fabric, u: PhysPort, v: PhysPort)
    requires v in Next(g, u)
    ensures Reachable(g, u, v)
  {
    hide Next;
    assert PathTo(g, u, [u, v], v);
  }

  lemma OneMoreReaches(g: Fabric, u: PhysPort, v: PhysPort, w: PhysPort)
    requires Reachable(g, u, v) && w in Next(g, v)
    ensures Reachable(g, u, w)
  {
    hide Next;
    var p :| |p| > 1 && PathTo(g, u, p, v);
    var q := p + [w];
    assert forall i :: 0 <= i < |p| ==> q[i] == p[i];
    assert PathTo(g, u, q, w);
  }

  lemma SameReachable(g: Fabric, h: Fabric, u: PhysPort, v: PhysPort)
    requires SameConnections(g, h) && Reachable(g, u, v)
    ensures Reachable(h, u, v)
  {
    var p :| |p| > 1 && PathTo(g, u, p, v);
    forall i | 0 < i < |p| ensures p[i] in Next(h, p[i - 1]) { SameNext(g, h, p[i - 1]); }
    assert PathTo(h, u, p, v);
  }
}
