/** Connections that are there before routing: circuits take channels away, packet flows are counted. */
module FixedConnections {
  import opened StreamSwitch
  import opened Wiring
  import opened SwitchFabric

  // ---------- Circuits ----------

  function ChannelIn(tile: TileLoc, connect: (Port, Port)): Channel {
    Channel(tile, tile, connect.0, connect.1)
  }

  predicate Free(g: Fabric, c: Channel) {
    c in g && g[c].available
  }

  function Take(g: Fabric, c: Channel): Fabric
    requires c in g
  {
    g[c := g[c].(available := false)]
  }

  /** The graph after the connections have been taken one by one, up to the first that is not free. */
  function TakeAll(g: Fabric, tile: TileLoc, connects: seq<(Port, Port)>): Fabric
    decreases |connects|
  {
    if connects == [] then g
    else
      var c := ChannelIn(tile, connects[0]);
      if Free(g, c) then TakeAll(Take(g, c), tile, connects[1..]) else g
  }

  predicate CanTakeAll(g: Fabric, tile: TileLoc, connects: seq<(Port, Port)>)
    decreases |connects|
  {
    connects == []
    || (Free(g, ChannelIn(tile, connects[0])) && CanTakeAll(Take(g, ChannelIn(tile, connects[0])), tile, connects[1..]))
  }

  /** All can be taken if and only if all are free and none is asked for twice. */
  lemma {:induction false} WhenAllCanBeTaken(g: Fabric, tile: TileLoc, connects: seq<(Port, Port)>)
    ensures CanTakeAll(g, tile, connects) <==>
            (forall i :: 0 <= i < |connects| ==> Free(g, ChannelIn(tile, connects[i])))
            && (forall i, j :: 0 <= i < j < |connects| ==> connects[i] != connects[j])
    decreases |connects|
  {
    if connects != [] && Free(g, ChannelIn(tile, connects[0])) {
      var c, rest := ChannelIn(tile, connects[0]), connects[1..];
      WhenAllCanBeTaken(Take(g, c), tile, rest);
      assert forall i :: 0 <= i < |rest| ==> rest[i] == connects[i + 1];
      assert forall i :: 0 < i < |connects| ==> connects[i] == rest[i - 1];
      assert forall i :: 0 <= i < |connects| ==> (ChannelIn(tile, connects[i]) == c <==> connects[i] == connects[0]);
    }
  }

  /** Exactly the given connections are not available any more, and nothing else has changed. */
  lemma {:induction false} TakenExactly(g: Fabric, tile: TileLoc, connects: seq<(Port, Port)>, c: Channel)
    requires CanTakeAll(g, tile, connects) && c in g
    ensures TakeAll(g, tile, connects).Keys == g.Keys
    ensures TakeAll(g, tile, connects)[c] ==
            if exists i :: 0 <= i < |connects| && ChannelIn(tile, connects[i]) == c then g[c].(available := false) else g[c]
    decreases |connects|
  {
    if connects != [] {
      var rest := connects[1..];
      TakenExactly(Take(g, ChannelIn(tile, connects[0])), tile, rest, c);
      assert forall i :: 0 <= i < |rest| ==> rest[i] == connects[i + 1];
      assert (exists i :: 0 <= i < |connects| && ChannelIn(tile, connects[i]) == c) <==>
             ChannelIn(tile, connects[0]) == c || (exists i :: 0 <= i < |rest| && ChannelIn(tile, rest[i]) == c) by {
        if i :| 0 <= i < |connects| && ChannelIn(tile, connects[i]) == c { assert i == 0 || rest[i - 1] == connects[i]; }
        if i :| 0 <= i < |rest| && ChannelIn(tile, rest[i]) == c { assert connects[i + 1] == rest[i]; }
      }
    }
  }

  /** Taking a free channel changes the neighbours of exactly the ports it starts at. */
  lemma TakeChangesNext(g: Fabric, c: Channel, u: PhysPort)
    requires Free(g, c) && c.srcTile == c.dstTile
    ensures Next(Take(g, c), u) == Next(g, u) <==> !StartsAt(c, u)
    ensures Next(Take(g, c), u) <= Next(g, u)
  {
    hide HasDstPort;
    var h := Take(g, c);
    forall d | d in DIRECTIONS ensures IsTied(g, u, d) <==> IsTied(h, u, d) && TiedPort(u, d).tileLoc != u.tileLoc {
      SameDstPorts(g, h, u.tileLoc, TiedPort(u, d).tileLoc, TiedPort(u, d).port);
    }
    assert Outside(g, u) == Outside(h, u);
    assert forall k :: k in g ==> (IsInside(h, u, k) <==> IsInside(g, u, k) && k != c);
    if StartsAt(c, u) {
      assert IsInside(g, u, c) && EndOf(c) in Inside(g, u);
      assert EndOf(c) !in Inside(h, u);
      assert EndOf(c) !in Outside(h, u) by {
        assert forall v :: v in Outside(h, u) ==> v.tileLoc != u.tileLoc;
      }
    } else {
      assert Inside(g, u) == Inside(h, u);
    }
  }

  /** However many channels are taken, only the neighbours of ports they start at change. */
  lemma {:induction false} TakeAllChangesNext(g: Fabric, tile: TileLoc, connects: seq<(Port, Port)>, u: PhysPort)
    requires CanTakeAll(g, tile, connects)
    ensures Next(TakeAll(g, tile, connects), u) == Next(g, u) <==>
            forall i :: 0 <= i < |connects| ==> !StartsAt(ChannelIn(tile, connects[i]), u)
    ensures Next(TakeAll(g, tile, connects), u) <= Next(g, u)
    decreases |connects|
  {
    hide Next;
    if connects != [] {
      var c, rest := ChannelIn(tile, connects[0]), connects[1..];
      TakeChangesNext(g, c, u);
      TakeAllChangesNext(Take(g, c), tile, rest, u);
      assert (forall i :: 0 <= i < |connects| ==> !StartsAt(ChannelIn(tile, connects[i]), u)) <==>
             !StartsAt(c, u) && (forall i :: 0 <= i < |rest| ==> !StartsAt(ChannelIn(tile, rest[i]), u)) by {
        assert forall i :: 0 <= i < |rest| ==> rest[i] == connects[i + 1];
        assert forall i :: 0 < i < |connects| ==> connects[i] == rest[i - 1];
      }
    }
  }

  // ---------- Packet flows ----------

  predicate InArray(tile: TileLoc, maxCol: int, maxRow: int) {
    0 <= tile.col <= maxCol && 0 <= tile.row <= maxRow
  }

  function Neighbour(tile: TileLoc, d: Tie): TileLoc {
    TileLoc(tile.col + d.deltaCol, tile.row + d.deltaRow)
  }

  /** The channel that leads into `src` from the neighbouring switchbox. */
  function LinkInto(src: PhysPort, d: Tie): Channel {
    Channel(Neighbour(src.tileLoc, d), src.tileLoc, Port(d.second, src.port.channel), Port(d.first, src.port.channel))
  }

  /** The channel that leads from `dst` to the neighbouring switchbox. */
  function LinkFrom(dst: PhysPort, d: Tie): Channel {
    Channel(dst.tileLoc, Neighbour(dst.tileLoc, d), Port(d.first, dst.port.channel), Port(d.second, dst.port.channel))
  }

  /** The links in one direction that a connection inside a switchbox uses. */
  function LinksAt(src: PhysPort, dst: PhysPort, d: Tie, maxCol: int, maxRow: int): set<Channel> {
    if src.tileLoc != dst.tileLoc || !InArray(Neighbour(src.tileLoc, d), maxCol, maxRow) then {}
    else
      (if src.port.bundle == d.first then {LinkInto(src, d)} else {})
      + (if dst.port.bundle == d.first then {LinkFrom(dst, d)} else {})
  }

  function Links(src: PhysPort, dst: PhysPort, n: nat, maxCol: int, maxRow: int): set<Channel>
    requires n <= |DIRECTIONS|
  {
    if n == 0 then {} else Links(src, dst, n - 1, maxCol, maxRow) + LinksAt(src, dst, DIRECTIONS[n - 1], maxCol, maxRow)
  }

  /** Every channel that a fixed packet flow from `src` to `dst` is counted for. */
  function FixedChannels(src: PhysPort, dst: PhysPort, maxCol: int, maxRow: int): set<Channel> {
    {ChannelOf(src, dst)} + Links(src, dst, |DIRECTIONS|, maxCol, maxRow)
  }

  predicate LinkCounts(u: PhysPort, maxCol: int, maxRow: int) {
    OnLink(u) && 0 <= Wired(u).tileLoc.col <= maxCol && 0 <= Wired(u).tileLoc.row <= maxRow
  }

  /**
   * What a fixed packet flow from `src` to `dst` is counted for: the connection itself and, when it is
   * inside a switchbox, the link that leads to its incoming port and the one that leads away from its
   * outgoing port, as long as they do not lead out of the array.
   */
  predicate CountsFor(src: PhysPort, dst: PhysPort, maxCol: int, maxRow: int, c: Channel) {
    || c == Channel(src.tileLoc, dst.tileLoc, src.port, dst.port)
    || (src.tileLoc == dst.tileLoc && LinkCounts(src, maxCol, maxRow)
        && c == Channel(Wired(src).tileLoc, src.tileLoc, Wired(src).port, src.port))
    || (src.tileLoc == dst.tileLoc && LinkCounts(dst, maxCol, maxRow)
        && c == Channel(dst.tileLoc, Wired(dst).tileLoc, dst.port, Wired(dst).port))
  }

  lemma LinkOf(u: PhysPort, d: Tie)
    requires d in DIRECTIONS && u.port.bundle == d.first
    ensures OnLink(u) && Wired(u).tileLoc == Neighbour(u.tileLoc, d)
    ensures LinkInto(u, d) == Channel(Wired(u).tileLoc, u.tileLoc, Wired(u).port, u.port)
    ensures LinkFrom(u, d) == Channel(u.tileLoc, Wired(u).tileLoc, u.port, Wired(u).port)
  {
  }

  lemma LinksCount(src: PhysPort, dst: PhysPort, d: Tie, maxCol: int, maxRow: int, c: Channel)
    requires d in DIRECTIONS && c in LinksAt(src, dst, d, maxCol, maxRow)
    ensures CountsFor(src, dst, maxCol, maxRow, c)
  {
    hide Wired, LinkInto, LinkFrom, Neighbour, OnLink;
    if src.port.bundle == d.first { LinkOf(src, d); }
    if dst.port.bundle == d.first { LinkOf(dst, d); }
  }

  lemma CountedIsLink(src: PhysPort, dst: PhysPort, maxCol: int, maxRow: int, c: Channel)
    requires CountsFor(src, dst, maxCol, maxRow, c) && c != ChannelOf(src, dst)
    ensures exists k :: 0 <= k < |DIRECTIONS| && c in LinksAt(src, dst, DIRECTIONS[k], maxCol, maxRow)
  {
    hide Wired, LinkInto, LinkFrom, Neighbour, OnLink;
    var into := LinkCounts(src, maxCol, maxRow) && c == Channel(Wired(src).tileLoc, src.tileLoc, Wired(src).port, src.port);
    var d := DirectionOf(if into then src else dst);
    LinkOf(if into then src else dst, d);
    assert c in LinksAt(src, dst, d, maxCol, maxRow);
  }

  lemma FixedChannelsCount(src: PhysPort, dst: PhysPort, maxCol: int, maxRow: int, c: Channel)
    ensures c in FixedChannels(src, dst, maxCol, maxRow) <==> CountsFor(src, dst, maxCol, maxRow, c)
  {
    hide LinksAt, LinkCounts, Links;
    AllLinks(src, dst, |DIRECTIONS|, maxCol, maxRow, c);
    if c != ChannelOf(src, dst) {
      if k :| 0 <= k < |DIRECTIONS| && c in LinksAt(src, dst, DIRECTIONS[k], maxCol, maxRow) {
        LinksCount(src, dst, DIRECTIONS[k], maxCol, maxRow, c);
      }
      if CountsFor(src, dst, maxCol, maxRow, c) { CountedIsLink(src, dst, maxCol, maxRow, c); }
    }
  }

  lemma {:induction false} AllLinks(src: PhysPort, dst: PhysPort, n: nat, maxCol: int, maxRow: int, c: Channel)
    requires n <= |DIRECTIONS|
    ensures c in Links(src, dst, n, maxCol, maxRow) <==> exists k :: 0 <= k < n && c in LinksAt(src, dst, DIRECTIONS[k], maxCol, maxRow)
  {
    hide LinksAt;
    if n > 0 { AllLinks(src, dst, n - 1, maxCol, maxRow, c); }
  }

  function CountedOnce(cell: Cell): Cell {
    cell.(fixedPacketFlowCount := cell.fixedPacketFlowCount + 1)
  }

  /** One more fixed packet flow on each of the channels. */
  ghost function CountFixed(g: Fabric, cs: set<Channel>): Fabric {
    map c | c in g :: if c in cs then CountedOnce(g[c]) else g[c]
  }

  lemma CountOneMore(g: Fabric, cs: set<Channel>, c: Channel)
    requires c in g && c !in cs
    ensures c in CountFixed(g, cs)
    ensures CountFixed(g, cs)[c := CountedOnce(CountFixed(g, cs)[c])] == CountFixed(g, cs + {c})
    ensures CountFixed(g, {}) == g
  {
  }

  /** The links in different directions are different, and different from the connection inside the switchbox. */
  lemma LinksAreNew(src: PhysPort, dst: PhysPort, n: nat, maxCol: int, maxRow: int)
    requires n < |DIRECTIONS| && src.tileLoc == dst.tileLoc
    ensures var before, d := {ChannelOf(src, dst)} + Links(src, dst, n, maxCol, maxRow), DIRECTIONS[n];
            && LinkInto(src, d) !in before && LinkFrom(dst, d) !in before && LinkInto(src, d) != LinkFrom(dst, d)
  {
    LinksLead(src, dst, n, maxCol, maxRow);
  }

  lemma {:induction false} LinksLead(src: PhysPort, dst: PhysPort, n: nat, maxCol: int, maxRow: int)
    requires n <= |DIRECTIONS| && src.tileLoc == dst.tileLoc
    ensures forall c :: c in Links(src, dst, n, maxCol, maxRow) ==>
              exists k :: 0 <= k < n && (c == LinkInto(src, DIRECTIONS[k]) || c == LinkFrom(dst, DIRECTIONS[k]))
  {
    if n > 0 { LinksLead(src, dst, n - 1, maxCol, maxRow); }
  }

  /** Counting in terms of single channels. */
  lemma CountedFor(g: Fabric, src: PhysPort, dst: PhysPort, maxCol: int, maxRow: int)
    ensures FixedChannels(src, dst, maxCol, maxRow) <= g.Keys <==> forall c :: CountsFor(src, dst, maxCol, maxRow, c) ==> c in g
    ensures var h := CountFixed(g, FixedChannels(src, dst, maxCol, maxRow));
            h.Keys == g.Keys && forall c :: c in g ==>
              h[c] == if CountsFor(src, dst, maxCol, maxRow, c)
                      then g[c].(fixedPacketFlowCount := g[c].fixedPacketFlowCount + 1) else g[c]
  {
    hide FixedChannels, CountsFor;
    forall c ensures c in FixedChannels(src, dst, maxCol, maxRow) <==> CountsFor(src, dst, maxCol, maxRow, c) {
      FixedChannelsCount(src, dst, maxCol, maxRow, c);
    }
  }

  /** When counting stopped, some of these channels have been counted. */
  lemma CountedSome(g: Fabric, some: set<Channel>, src: PhysPort, dst: PhysPort, maxCol: int, maxRow: int)
    requires some <= FixedChannels(src, dst, maxCol, maxRow)
    ensures var h := CountFixed(g, some);
            h.Keys == g.Keys && forall c :: c in g ==>
              h[c] == g[c] || (CountsFor(src, dst, maxCol, maxRow, c)
                               && h[c] == g[c].(fixedPacketFlowCount := g[c].fixedPacketFlowCount + 1))
  {
    hide FixedChannels, CountsFor;
    forall c | c in some ensures CountsFor(src, dst, maxCol, maxRow, c) { FixedChannelsCount(src, dst, maxCol, maxRow, c); }
  }

  // ---------- Circuits, connection by connection ----------

  /** All connections are free, and none is asked for twice. */
  ghost predicate AllFree(g: Fabric, tile: TileLoc, connects: seq<(Port, Port)>) {
    && (forall i :: 0 <= i < |connects| ==>
          var c := Channel(tile, tile, connects[i].0, connects[i].1);
          c in g && g[c].available)
    && (forall i, j :: 0 <= i < j < |connects| ==> connects[i] != connects[j])
  }

  /** Exactly these connections of the tile are not available any more. */
  ghost predicate TakenFrom(g: Fabric, h: Fabric, tile: TileLoc, connects: seq<(Port, Port)>) {
    h.Keys == g.Keys && forall c :: c in g ==>
      h[c] == if c.srcTile == c.dstTile == tile && (c.srcPort, c.dstPort) in connects then g[c].(available := false) else g[c]
  }

  lemma CanTakeIsFree(g: Fabric, tile: TileLoc, connects: seq<(Port, Port)>)
    ensures CanTakeAll(g, tile, connects) <==> AllFree(g, tile, connects)
  {
    WhenAllCanBeTaken(g, tile, connects);
    hide CanTakeAll;
    forall i | 0 <= i < |connects|
      ensures Free(g, ChannelIn(tile, connects[i])) <==>
              var c := Channel(tile, tile, connects[i].0, connects[i].1); c in g && g[c].available {}
  }

  lemma TakenAll(g: Fabric, tile: TileLoc, connects: seq<(Port, Port)>)
    requires CanTakeAll(g, tile, connects)
    ensures TakenFrom(g, TakeAll(g, tile, connects), tile, connects)
  {
    hide TakeAll, CanTakeAll;
    TakeAllKeys(g, tile, connects);
    forall c | c in g
      ensures TakeAll(g, tile, connects)[c] ==
              if c.srcTile == c.dstTile == tile && (c.srcPort, c.dstPort) in connects then g[c].(available := false) else g[c]
    {
      TakenExactly(g, tile, connects, c);
      if i :| 0 <= i < |connects| && ChannelIn(tile, connects[i]) == c { assert connects[i] == (c.srcPort, c.dstPort); }
      if (c.srcPort, c.dstPort) in connects {
        var i :| 0 <= i < |connects| && connects[i] == (c.srcPort, c.dstPort);
        assert c.srcTile == c.dstTile == tile ==> ChannelIn(tile, connects[i]) == c;
      }
    }
  }

  lemma {:induction false} TakeAllKeys(g: Fabric, tile: TileLoc, connects: seq<(Port, Port)>)
    ensures TakeAll(g, tile, connects).Keys == g.Keys
    decreases |connects|
  {
    if connects != [] && Free(g, ChannelIn(tile, connects[0])) {
      TakeAllKeys(Take(g, ChannelIn(tile, connects[0])), tile, connects[1..]);
    }
  }

  /** When not all are free, the connections in front of the first that cannot be taken are taken. */
  lemma {:induction false} TakenPrefix(g: Fabric, tile: TileLoc, connects: seq<(Port, Port)>) returns (n: nat)
    requires !CanTakeAll(g, tile, connects)
    ensures n < |connects| && AllFree(g, tile, connects[..n]) && !AllFree(g, tile, connects[..n + 1])
    ensures TakenFrom(g, TakeAll(g, tile, connects), tile, connects[..n])
  {
    n := FirstNotFree(g, tile, connects);
    CanTakeIsFree(g, tile, connects[..n]);
    CanTakeIsFree(g, tile, connects[..n + 1]);
    TakenAll(g, tile, connects[..n]);
  }

  lemma {:induction false} FirstNotFree(g: Fabric, tile: TileLoc, connects: seq<(Port, Port)>) returns (n: nat)
    requires !CanTakeAll(g, tile, connects)
    ensures n < |connects| && CanTakeAll(g, tile, connects[..n]) && !CanTakeAll(g, tile, connects[..n + 1])
    ensures TakeAll(g, tile, connects) == TakeAll(g, tile, connects[..n])
    decreases |connects|
  {
    var c, rest := ChannelIn(tile, connects[0]), connects[1..];
    if Free(g, c) {
      var m := FirstNotFree(Take(g, c), tile, rest);
      n := m + 1;
      assert connects[..n][0] == connects[0] && connects[..n][1..] == rest[..m];
      assert connects[..n + 1][0] == connects[0] && connects[..n + 1][1..] == rest[..m + 1];
    } else {
      n := 0;
      assert connects[..0] == [] && connects[..1] == [connects[0]];
    }
  }
}
