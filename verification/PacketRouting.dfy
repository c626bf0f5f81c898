/**
 * Master sets and slave pairs for the packet flows of all tiles (`emitPacketRoutingConfiguration`),
 * the programming of the master ports, and what the switch then delivers.
 */
module PacketRouting {
  import PortOrder
  import opened Words
  import opened StreamSwitch
  import opened MSel
  import opened Connections
  import opened ComponentSearch
  import opened TileAMSel
  import opened AMSel
  import opened Placement

  datatype Entry = Entry(src: PhysPortAndID, dsts: seq<PhysPortAndID>)

  type MasterSets = map<PhysPort, seq<(nat, nat)>>

  /** Sources enter a switch and destinations leave it. */
  ghost predicate FlowsDirected(flows: PacketFlowMap) {
    forall s :: s in flows ==> s.physPort.direction == Src && forall d :: d in flows[s] ==> d.physPort.direction == Dst
  }

  ghost predicate EntriesDirected(entries: seq<Entry>) {
    forall i :: 0 <= i < |entries| ==> entries[i].src.physPort.direction == Src
                                       && forall d :: d in entries[i].dsts ==> d.physPort.direction == Dst
  }

  /** Some entry, among the first `n`, routes `src` to `dst`. */
  ghost predicate Routes(entries: seq<Entry>, n: nat, src: PhysPortAndID, dst: PhysPortAndID) {
    exists i :: 0 <= i < n && i < |entries| && entries[i].src == src && dst in entries[i].dsts
  }

  /** The connections of the first `n` entries on one tile. */
  ghost function Gather(entries: seq<Entry>, n: nat, tile: TileLoc): Conns
    requires n <= |entries|
  {
    if n == 0 then map[]
    else
      var c, e := Gather(entries, n - 1, tile), entries[n - 1];
      if e.src.physPort.tileLoc == tile then c[e.src := Get(c, e.src) + e.dsts] else c
  }

  /** The destination ports of the first `n` entries on one tile, in their order. */
  ghost function GatherPorts(entries: seq<Entry>, n: nat, tile: TileLoc): PortList
    requires n <= |entries|
  {
    if n == 0 then []
    else
      var ports, e := GatherPorts(entries, n - 1, tile), entries[n - 1];
      if e.src.physPort.tileLoc == tile then ports + PortsOf(e.dsts) else ports
  }

  lemma {:induction false} GatherRoutes(entries: seq<Entry>, n: nat, tile: TileLoc, s: PhysPortAndID, d: PhysPortAndID)
    requires n <= |entries|
    ensures Has(Gather(entries, n, tile), s, d) <==> s.physPort.tileLoc == tile && Routes(entries, n, s, d)
  {
    if n > 0 {
      GatherRoutes(entries, n - 1, tile, s, d);
      var e := entries[n - 1];
      if e.src == s && d in e.dsts { assert Routes(entries, n, s, d); }
      if Routes(entries, n - 1, s, d) { assert Routes(entries, n, s, d); }
    }
  }

  lemma {:induction false} GatherKeys(entries: seq<Entry>, n: nat, tile: TileLoc, s: PhysPortAndID)
    requires n <= |entries|
    ensures s in Gather(entries, n, tile) <==> s.physPort.tileLoc == tile && exists i :: 0 <= i < n && entries[i].src == s
  {
    if n > 0 { GatherKeys(entries, n - 1, tile, s); }
  }

  /** Source `src` has a destination on port `port` of its tile. */
  ghost predicate SendsTo(entries: seq<Entry>, n: nat, src: PhysPortAndID, port: Port) {
    exists d :: Routes(entries, n, src, d) && d.physPort.port == port
  }

  lemma GatherTargets(entries: seq<Entry>, tile: TileLoc, s: PhysPortAndID, port: Port)
    ensures Targets(Gather(entries, |entries|, tile), s, port) <==>
            s.physPort.tileLoc == tile && SendsTo(entries, |entries|, s, port)
  {
    var c := Gather(entries, |entries|, tile);
    if Targets(c, s, port) {
      var d: PhysPortAndID :| d in c[s] && d.physPort.port == port;
      assert Has(c, s, d);
      GatherRoutes(entries, |entries|, tile, s, d);
    }
    if s.physPort.tileLoc == tile && SendsTo(entries, |entries|, s, port) {
      var d :| Routes(entries, |entries|, s, d) && d.physPort.port == port;
      GatherRoutes(entries, |entries|, tile, s, d);
      assert Has(c, s, d);
    }
  }

  // ---------- The pairs ----------

  /** The pairs of all tiles: within limits, one arbiter per destination port, shared only by equal connections. */
  ghost predicate PairsSolved(entries: seq<Entry>, amsels: AMSelMap, numArbiters: TileLoc -> nat, numMSels: TileLoc -> nat) {
    && (forall s :: s in amsels ==> amsels[s].0 < numArbiters(s.physPort.tileLoc) && amsels[s].1 < numMSels(s.physPort.tileLoc))
    && (forall s, t :: s in amsels && t in amsels && s.physPort.tileLoc == t.physPort.tileLoc ==> PairsFit(entries, amsels, s, t))
  }

  ghost predicate PairsFit(entries: seq<Entry>, amsels: AMSelMap, s: PhysPortAndID, t: PhysPortAndID)
    requires s in amsels && t in amsels
  {
    && (forall p :: SendsTo(entries, |entries|, s, p) && SendsTo(entries, |entries|, t, p) ==> amsels[s].0 == amsels[t].0)
    && (amsels[s] == amsels[t] ==> forall p :: SendsTo(entries, |entries|, s, p) ==> SendsTo(entries, |entries|, t, p))
  }

  lemma SamePortsSameTargets(c: Conns, s: PhysPortAndID, t: PhysPortAndID, port: Port)
    requires s in c && t in c && PortsOf(c[s]) == PortsOf(c[t]) && Targets(c, s, port)
    ensures Targets(c, t, port)
  {
    var d: PhysPortAndID :| d in c[s] && d.physPort.port == port;
    var i :| 0 <= i < |c[s]| && c[s][i] == d;
    assert PortsOf(c[s])[i] == PortsOf(c[t])[i] == port;
    assert c[t][i] in c[t] && c[t][i].physPort.port == port;
  }

  lemma SolvedPairsFit(entries: seq<Entry>, tile: TileLoc, amsels: AMSelMap, numArbiters: nat, numMSels: nat, s: PhysPortAndID, t: PhysPortAndID)
    requires Solves(Gather(entries, |entries|, tile), amsels, numArbiters, numMSels)
    requires s in amsels && t in amsels && s.physPort.tileLoc == tile && t.physPort.tileLoc == tile
    ensures PairsFit(entries, amsels, s, t)
  {
    hide SendsTo;
    var c := Gather(entries, |entries|, tile);
    forall p ensures Targets(c, s, p) <==> SendsTo(entries, |entries|, s, p)
             ensures Targets(c, t, p) <==> SendsTo(entries, |entries|, t, p)
    {
      GatherTargets(entries, tile, s, p);
      GatherTargets(entries, tile, t, p);
    }
    hide Gather;
    forall p | SendsTo(entries, |entries|, s, p) && SendsTo(entries, |entries|, t, p) ensures amsels[s].0 == amsels[t].0 {
      assert Shares(c, s, t);
    }
    forall p | amsels[s] == amsels[t] && SendsTo(entries, |entries|, s, p) ensures SendsTo(entries, |entries|, t, p) {
      assert HasDest(c, s) && HasDest(c, t);
      SamePortsSameTargets(c, s, t, p);
    }
  }

  // ---------- The master sets ----------

  ghost predicate HasPort(dsts: seq<PhysPortAndID>, port: Port) {
    exists d :: d in dsts && d.physPort.port == port
  }

  /** One of the first `n` entries has this tile, this pair and a destination on this port. */
  ghost predicate Drives(entries: seq<Entry>, n: nat, amsels: AMSelMap, tile: TileLoc, pair: (nat, nat), port: Port) {
    exists i :: 0 <= i < n && i < |entries| && entries[i].src.physPort.tileLoc == tile
                && entries[i].src in amsels && amsels[entries[i].src] == pair && HasPort(entries[i].dsts, port)
  }

  lemma DrivesIsSendsTo(entries: seq<Entry>, amsels: AMSelMap, tile: TileLoc, pair: (nat, nat), port: Port)
    ensures Drives(entries, |entries|, amsels, tile, pair, port) <==>
            exists s :: s in amsels && s.physPort.tileLoc == tile && amsels[s] == pair && SendsTo(entries, |entries|, s, port)
  {
    if i :| 0 <= i < |entries| && entries[i].src.physPort.tileLoc == tile
            && entries[i].src in amsels && amsels[entries[i].src] == pair && HasPort(entries[i].dsts, port) {
      var d :| d in entries[i].dsts && d.physPort.port == port;
      assert Routes(entries, |entries|, entries[i].src, d);
      assert SendsTo(entries, |entries|, entries[i].src, port);
    }
    if s :| s in amsels && s.physPort.tileLoc == tile && amsels[s] == pair && SendsTo(entries, |entries|, s, port) {
      var d :| Routes(entries, |entries|, s, d) && d.physPort.port == port;
      var i :| 0 <= i < |entries| && entries[i].src == s && d in entries[i].dsts;
      assert HasPort(entries[i].dsts, port);
    }
  }

  /** The pairs listed for a master port are those of the sources that are to reach it, in ascending order. */
  ghost predicate MastersSet(entries: seq<Entry>, amsels: AMSelMap, masters: MasterSets) {
    && (forall p :: p in masters ==> p.direction == Dst && masters[p] != [] && PairsAscending(masters[p]))
    && (forall tile, port, pair :: Has(masters, PhysPort(tile, port, Dst), pair) <==>
                                   Drives(entries, |entries|, amsels, tile, pair, port))
  }

  // ---------- What the switch delivers ----------

  /** The arbiter and the msel enable bits of a master port. */
  datatype Master = Master(arbiterId: int, masterSelect: nat)

  /** `configureSwitchPacketMasters`: the arbiter of the last pair and, in a byte, a bit for each msel. */
  method ConfigureSwitchPacketMasters(amSels: seq<(nat, nat)>) returns (m: Master)
    requires forall k :: 0 <= k < |amSels| ==> amSels[k].1 < 32
    ensures m == MasterOf(amSels)
  {
    var masterSelect := 0;
    var arbiterId: int := -1;
    for n := 0 to |amSels|
      invariant Master(arbiterId, masterSelect) == MasterOf(amSels[..n])
    {
      assert amSels[..n + 1][..n] == amSels[..n];
      arbiterId := amSels[n].0;
      masterSelect := Truncate(Or(masterSelect, Pow2(amSels[n].1)), 8);
    }
    assert amSels[..|amSels|] == amSels;
    m := Master(arbiterId, masterSelect);
  }

  function MasterOf(amSels: seq<(nat, nat)>): Master {
    if amSels == [] then Master(-1, 0)
    else
      var last := amSels[|amSels| - 1];
      Master(last.0, Truncate(Or(MasterOf(amSels[..|amSels| - 1]).masterSelect, Pow2(last.1)), 8))
  }

  lemma {:induction false} MasterBit(amSels: seq<(nat, nat)>, i: nat)
    ensures Bit(MasterOf(amSels).masterSelect, i) <==> i < 8 && exists k :: 0 <= k < |amSels| && amSels[k].1 == i
  {
    if amSels == [] {
      ZeroHasNoBits(i);
    } else {
      var init, last := amSels[..|amSels| - 1], amSels[|amSels| - 1];
      MasterBit(init, i);
      TruncateBit(Or(MasterOf(init).masterSelect, Pow2(last.1)), 8, i);
      OrBit(MasterOf(init).masterSelect, Pow2(last.1), i);
      PowerBit(last.1, i);
      if k :| 0 <= k < |init| && init[k].1 == i { assert amSels[k].1 == i; }
      if k :| 0 <= k < |amSels| && amSels[k].1 == i { assert k < |init| ==> init[k].1 == i; }
    }
  }

  /** Packets of a slave slot (a, m) go to all masters of arbiter a whose bit m is set. */
  ghost predicate Delivers(masters: MasterSets, tile: TileLoc, pair: (nat, nat), port: Port) {
    var p := PhysPort(tile, port, Dst);
    p in masters && MasterOf(masters[p]).arbiterId == pair.0 && Bit(MasterOf(masters[p]).masterSelect, pair.1)
  }

  /**
   * A packet of a source reaches exactly the destination ports of that source; if its msel does not
   * fit into the byte of enable bits, it reaches none.
   */
  lemma ExactDelivery(entries: seq<Entry>, amsels: AMSelMap, masters: MasterSets,
                      numArbiters: TileLoc -> nat, numMSels: TileLoc -> nat, s: PhysPortAndID, port: Port)
    requires PairsSolved(entries, amsels, numArbiters, numMSels) && MastersSet(entries, amsels, masters)
    requires s in amsels
    ensures Delivers(masters, s.physPort.tileLoc, amsels[s], port) <==>
            amsels[s].1 < 8 && SendsTo(entries, |entries|, s, port)
  {
    hide SendsTo;
    hide Drives;
    hide MasterOf;
    var tile, pair := s.physPort.tileLoc, amsels[s];
    var p := PhysPort(tile, port, Dst);
    if p in masters {
      var list := masters[p];
      LastPair(list);
      assert Has(masters, p, list[|list| - 1]);
      DrivesIsSendsTo(entries, amsels, tile, list[|list| - 1], port);
      var t :| t in amsels && t.physPort.tileLoc == tile && amsels[t] == list[|list| - 1] && SendsTo(entries, |entries|, t, port);
      MasterBit(list, pair.1);
      if Delivers(masters, tile, pair, port) {
        var k :| 0 <= k < |list| && list[k].1 == pair.1;
        assert list[k] in list;
        assert Has(masters, p, list[k]);
        DrivesIsSendsTo(entries, amsels, tile, list[k], port);
        var u :| u in amsels && u.physPort.tileLoc == tile && amsels[u] == list[k] && SendsTo(entries, |entries|, u, port);
        assert PairsFit(entries, amsels, u, t) && PairsFit(entries, amsels, u, s);
      }
      assert PairsFit(entries, amsels, s, t);
    }
    if SendsTo(entries, |entries|, s, port) {
      DrivesIsSendsTo(entries, amsels, tile, pair, port);
      assert Has(masters, p, pair);
    }
  }

  lemma LastPair(amSels: seq<(nat, nat)>)
    requires amSels != []
    ensures MasterOf(amSels).arbiterId == amSels[|amSels| - 1].0
  {
  }

  // ---------- emitPacketRoutingConfiguration ----------

  ghost predicate Listed(entries: seq<Entry>, src: PhysPortAndID) {
    exists i :: 0 <= i < |entries| && entries[i].src == src
  }

  /** The entries are those of the two maps. */
  ghost predicate EntriesOf(entries: seq<Entry>, packetFlows: PacketFlowMap, priorPacketFlows: PacketFlowMap) {
    && (forall s :: Listed(entries, s) <==> s in packetFlows || s in priorPacketFlows)
    && (forall s, d :: Routes(entries, |entries|, s, d) <==> Has(packetFlows, s, d) || Has(priorPacketFlows, s, d))
  }

  /** `operator<`: the port first, then the id. */
  predicate SrcLess(a: PhysPortAndID, b: PhysPortAndID) {
    if a.physPort != b.physPort then PortOrder.PortLess(a.physPort, b.physPort) else a.id < b.id
  }

  lemma SrcLessTotal(a: PhysPortAndID, b: PhysPortAndID)
    ensures a == b || SrcLess(a, b) || SrcLess(b, a)
  {
    PortOrder.PortLessTotal(a.physPort, b.physPort);
  }

  lemma SrcLessTransitive(a: PhysPortAndID, b: PhysPortAndID, c: PhysPortAndID)
    requires SrcLess(a, b) && SrcLess(b, c)
    ensures SrcLess(a, c)
  {
    hide PortOrder.PortLess;
    PortOrder.PortLessTotal(a.physPort, b.physPort);
    if a.physPort != b.physPort && b.physPort != c.physPort {
      PortOrder.PortLessTransitive(a.physPort, b.physPort, c.physPort);
      PortOrder.PortLessTotal(b.physPort, c.physPort);
    }
  }

  /** The sources with a lower column come first, on equal tiles the lower bundles, and on equal ports the lower ids. */
  lemma SourcesInOrder(a: PhysPortAndID, b: PhysPortAndID)
    ensures a.physPort.tileLoc.col < b.physPort.tileLoc.col ==> SrcLess(a, b)
    ensures a.physPort == b.physPort && a.id < b.id ==> SrcLess(a, b)
    ensures PortOrder.PortLess(a.physPort, b.physPort) ==> SrcLess(a, b)
  {
    PortOrder.PortsInOrder(a.physPort, b.physPort);
    PortOrder.PortLessTotal(a.physPort, b.physPort);
  }

  ghost predicate Sorted(entries: seq<Entry>) {
    forall i, j :: 0 <= i < j < |entries| ==> SrcLess(entries[i].src, entries[j].src)
  }

  ghost predicate AllOf(entries: seq<Entry>, flows: PacketFlowMap) {
    forall i :: 0 <= i < |entries| ==> entries[i].src in flows && entries[i].dsts == flows[entries[i].src]
  }

  /** The entries of a map, each once, in the order of their sources. */
  ghost predicate ListsInOrder(entries: seq<Entry>, flows: PacketFlowMap) {
    Sorted(entries) && AllOf(entries, flows) && forall s :: s in flows ==> Listed(entries, s)
  }

  /** First the entries of the routed flows and then those of the new ones, each part in the order of the sources. */
  ghost predicate RoutedThenNew(entries: seq<Entry>, packetFlows: PacketFlowMap, priorPacketFlows: PacketFlowMap) {
    exists n :: 0 <= n <= |entries| && ListsInOrder(entries[..n], priorPacketFlows) && ListsInOrder(entries[n..], packetFlows)
  }

  lemma EntryInserted(entries: seq<Entry>, k: nat, e: Entry)
    requires Sorted(entries) && k <= |entries| && !Listed(entries, e.src)
    requires forall i :: 0 <= i < k ==> SrcLess(entries[i].src, e.src)
    requires k < |entries| ==> !SrcLess(entries[k].src, e.src)
    ensures Sorted(entries[..k] + [e] + entries[k..])
    ensures forall s :: Listed(entries[..k] + [e] + entries[k..], s) <==> s == e.src || Listed(entries, s)
  {
    hide SrcLess;
    var r := entries[..k] + [e] + entries[k..];
    forall i, j | 0 <= i < j < |r| ensures SrcLess(r[i].src, r[j].src) {
      if i == k {
        SrcLessTotal(entries[k].src, e.src);
        if j > k + 1 { SrcLessTransitive(e.src, entries[k].src, entries[j - 1].src); }
      }
    }
    forall s ensures Listed(r, s) <==> s == e.src || Listed(entries, s) {
      assert r[k].src == e.src;
      if i :| 0 <= i < |entries| && entries[i].src == s { assert r[if i < k then i else i + 1].src == s; }
    }
  }

  /** Where the entry belongs in a sorted list. */
  method InsertEntry(entries: seq<Entry>, e: Entry) returns (r: seq<Entry>)
    requires Sorted(entries) && !Listed(entries, e.src)
    ensures Sorted(r) && (forall s :: Listed(r, s) <==> s == e.src || Listed(entries, s))
    ensures forall x :: x in r ==> x == e || x in entries
  {
    hide SrcLess;
    var k := 0;
    while k < |entries| && SrcLess(entries[k].src, e.src)
      invariant 0 <= k <= |entries|
      invariant forall i :: 0 <= i < k ==> SrcLess(entries[i].src, e.src)
    {
      k := k + 1;
    }
    r := entries[..k] + [e] + entries[k..];
    EntryInserted(entries, k, e);
  }

  /** The entries of a map, sorted by their sources; `std::sort` is modelled by insertions. */
  method ListFlows(flows: PacketFlowMap) returns (entries: seq<Entry>)
    ensures ListsInOrder(entries, flows)
  {
    hide SrcLess;
    entries := [];
    var todo := flows.Keys;
    while todo != {}
      invariant todo <= flows.Keys
      invariant Sorted(entries)
      invariant forall e :: e in entries ==> e.src in flows && e.dsts == flows[e.src]
      invariant forall s :: Listed(entries, s) <==> s in flows && s !in todo
    {
      var s :| s in todo;
      todo := todo - {s};
      entries := InsertEntry(entries, Entry(s, flows[s]));
    }
  }

  lemma ConcatInOrder(prior: seq<Entry>, new_: seq<Entry>, packetFlows: PacketFlowMap, priorPacketFlows: PacketFlowMap)
    requires ListsInOrder(prior, priorPacketFlows) && ListsInOrder(new_, packetFlows)
    ensures RoutedThenNew(prior + new_, packetFlows, priorPacketFlows)
  {
    hide ListsInOrder;
    assert (prior + new_)[..|prior|] == prior && (prior + new_)[|prior|..] == new_;
  }

  lemma ConcatListed(prior: seq<Entry>, new_: seq<Entry>, s: PhysPortAndID)
    ensures Listed(prior + new_, s) <==> Listed(prior, s) || Listed(new_, s)
  {
    var all := prior + new_;
    if i :| 0 <= i < |prior| && prior[i].src == s { assert all[i].src == s; }
    if i :| 0 <= i < |new_| && new_[i].src == s { assert all[|prior| + i].src == s; }
  }

  lemma ConcatRoutes(prior: seq<Entry>, new_: seq<Entry>, s: PhysPortAndID, d: PhysPortAndID)
    ensures Routes(prior + new_, |prior + new_|, s, d) <==> Routes(prior, |prior|, s, d) || Routes(new_, |new_|, s, d)
  {
    var all := prior + new_;
    if i :| 0 <= i < |prior| && prior[i].src == s && d in prior[i].dsts { assert all[i].src == s && d in all[i].dsts; }
    if i :| 0 <= i < |new_| && new_[i].src == s && d in new_[i].dsts { assert all[|prior| + i].src == s && d in all[|prior| + i].dsts; }
    if i :| 0 <= i < |all| && all[i].src == s && d in all[i].dsts {
      assert i >= |prior| ==> all[i] == new_[i - |prior|];
    }
  }

  lemma ListKeys(entries: seq<Entry>, flows: PacketFlowMap, s: PhysPortAndID)
    requires ListsInOrder(entries, flows)
    ensures Listed(entries, s) <==> s in flows
  {
    hide Sorted;
  }

  lemma ListRoutes(entries: seq<Entry>, flows: PacketFlowMap, s: PhysPortAndID, d: PhysPortAndID)
    requires ListsInOrder(entries, flows)
    ensures Routes(entries, |entries|, s, d) <==> Has(flows, s, d)
  {
    hide Sorted;
    if Has(flows, s, d) {
      var i :| 0 <= i < |entries| && entries[i].src == s;
      assert d in entries[i].dsts;
    }
  }

  lemma ConcatEntries(prior: seq<Entry>, new_: seq<Entry>, packetFlows: PacketFlowMap, priorPacketFlows: PacketFlowMap)
    requires ListsInOrder(prior, priorPacketFlows) && ListsInOrder(new_, packetFlows)
    ensures EntriesOf(prior + new_, packetFlows, priorPacketFlows)
  {
    hide ListsInOrder, Listed, Routes, Has;
    var all := prior + new_;
    forall s ensures Listed(all, s) <==> s in packetFlows || s in priorPacketFlows {
      ConcatListed(prior, new_, s);
      ListKeys(prior, priorPacketFlows, s);
      ListKeys(new_, packetFlows, s);
    }
    forall s, d ensures Routes(all, |all|, s, d) <==> Has(packetFlows, s, d) || Has(priorPacketFlows, s, d) {
      ConcatRoutes(prior, new_, s, d);
      ListRoutes(prior, priorPacketFlows, s, d);
      ListRoutes(new_, packetFlows, s, d);
    }
  }

  lemma EntriesAreDirected(entries: seq<Entry>, packetFlows: PacketFlowMap, priorPacketFlows: PacketFlowMap)
    requires FlowsDirected(packetFlows) && FlowsDirected(priorPacketFlows) && EntriesOf(entries, packetFlows, priorPacketFlows)
    ensures EntriesDirected(entries)
  {
    forall i | 0 <= i < |entries|
      ensures entries[i].src.physPort.direction == Src && forall d :: d in entries[i].dsts ==> d.physPort.direction == Dst
    {
      assert Listed(entries, entries[i].src);
      forall d | d in entries[i].dsts ensures d.physPort.direction == Dst {
        assert Routes(entries, |entries|, entries[i].src, d);
      }
    }
  }

  /** Every tile of an entry has its generator, with all connections of the tile. */
  ghost predicate Added(gen: AMSelGenerator, entries: seq<Entry>, n: nat, numArbiters: TileLoc -> nat, numMSels: TileLoc -> nat)
    requires n <= |entries| && gen.Valid()
    reads gen, gen.Repr
  {
    && (forall i :: 0 <= i < n ==> entries[i].src.physPort.tileLoc in gen.tileToAMSelConfig)
    && (forall t :: gen.ConnsOn(t) == Gather(entries, n, t) && gen.PortsOn(t) == GatherPorts(entries, n, t))
    && (forall t :: t in gen.tileToAMSelConfig ==>
          gen.tileToAMSelConfig[t].numArbiters == numArbiters(t) && gen.tileToAMSelConfig[t].numMSels == numMSels(t))
  }

  method AddEntry(gen: AMSelGenerator, ghost entries: seq<Entry>, ghost n: nat, e: Entry, numArbiters: TileLoc -> nat, numMSels: TileLoc -> nat)
    requires EntriesDirected(entries) && n < |entries| && e == entries[n]
    requires gen.Valid() && Added(gen, entries, n, numArbiters, numMSels)
    modifies gen, gen.Repr
    ensures fresh(gen.Repr - old(gen.Repr))
    ensures gen.Valid() && Added(gen, entries, n + 1, numArbiters, numMSels)
  {
    hide AMSelGenerator.Valid;
    var tileLoc := e.src.physPort.tileLoc;
    gen.AddOn(tileLoc, numArbiters(tileLoc), numMSels(tileLoc), e.src, e.dsts);
  }

  lemma NothingAdded(gen: AMSelGenerator, entries: seq<Entry>, numArbiters: TileLoc -> nat, numMSels: TileLoc -> nat)
    requires gen.Valid() && gen.tileToAMSelConfig == map[]
    ensures Added(gen, entries, 0, numArbiters, numMSels)
  {
  }

  method AddAll(entries: seq<Entry>, numArbiters: TileLoc -> nat, numMSels: TileLoc -> nat) returns (gen: AMSelGenerator)
    requires EntriesDirected(entries)
    ensures fresh(gen) && fresh(gen.Repr)
    ensures gen.Valid() && Added(gen, entries, |entries|, numArbiters, numMSels)
  {
    hide AMSelGenerator.Valid;
    hide Added;
    hide EntriesDirected;
    gen := new AMSelGenerator();
    NothingAdded(gen, entries, numArbiters, numMSels);
    for n := 0 to |entries|
      invariant fresh(gen) && fresh(gen.Repr)
      invariant gen.Valid() && Added(gen, entries, n, numArbiters, numMSels)
    {
      AddEntry(gen, entries, n, entries[n], numArbiters, numMSels);
    }
  }

  type MasterAMSels = map<(TileLoc, (nat, nat)), set<Port>>

  ghost predicate MasterAt(m: MasterAMSels, tile: TileLoc, pair: (nat, nat), port: Port) {
    (tile, pair) in m && port in m[(tile, pair)]
  }

  /** The pairs taken over so far are those of the solved tiles. */
  ghost predicate TakenFrom(gen: AMSelGenerator, amsels: AMSelMap)
    requires gen.Valid()
    reads gen, gen.Repr
  {
    forall s :: s in amsels ==>
      var tile := s.physPort.tileLoc;
      tile in gen.tileToAMSelConfig && s in gen.tileToAMSelConfig[tile].portsToAMSels
      && amsels[s] == gen.tileToAMSelConfig[tile].portsToAMSels[s]
  }

  lemma DrivesNext(entries: seq<Entry>, n: nat, amsels: AMSelMap, pair: (nat, nat), t: TileLoc, q: (nat, nat), port: Port)
    requires n < |entries| && forall i :: 0 <= i < n ==> entries[i].src in amsels
    requires entries[n].src in amsels ==> amsels[entries[n].src] == pair
    ensures Drives(entries, n + 1, amsels[entries[n].src := pair], t, q, port) <==>
            Drives(entries, n, amsels, t, q, port)
            || (entries[n].src.physPort.tileLoc == t && pair == q && HasPort(entries[n].dsts, port))
  {
    hide HasPort;
    var next := amsels[entries[n].src := pair];
    if i :| 0 <= i < n && entries[i].src.physPort.tileLoc == t && entries[i].src in amsels
            && amsels[entries[i].src] == q && HasPort(entries[i].dsts, port) {
      assert next[entries[i].src] == q;
    }
    if entries[n].src.physPort.tileLoc == t && pair == q && HasPort(entries[n].dsts, port) {
      assert next[entries[n].src] == q;
    }
  }

  lemma MastersNext(entries: seq<Entry>, n: nat, amsels: AMSelMap, pair: (nat, nat), m0: MasterAMSels, m: MasterAMSels)
    requires n < |entries| && forall i :: 0 <= i < n ==> entries[i].src in amsels
    requires entries[n].src in amsels ==> amsels[entries[n].src] == pair
    requires forall t, q, port :: MasterAt(m0, t, q, port) <==> Drives(entries, n, amsels, t, q, port)
    requires forall t, q, port :: MasterAt(m, t, q, port) <==>
               MasterAt(m0, t, q, port) || (t == entries[n].src.physPort.tileLoc && q == pair && HasPort(entries[n].dsts, port))
    ensures forall t, q, port :: MasterAt(m, t, q, port) <==> Drives(entries, n + 1, amsels[entries[n].src := pair], t, q, port)
  {
    hide MasterAt;
    hide Drives;
    hide HasPort;
    forall t, q, port
      ensures MasterAt(m, t, q, port) <==> Drives(entries, n + 1, amsels[entries[n].src := pair], t, q, port)
    {
      DrivesNext(entries, n, amsels, pair, t, q, port);
    }
  }

  ghost predicate HasPortBefore(dsts: seq<PhysPortAndID>, n: nat, port: Port)
    requires n <= |dsts|
  {
    n > 0 && (dsts[n - 1].physPort.port == port || HasPortBefore(dsts, n - 1, port))
  }

  lemma {:induction false} HasPortBeforeIs(dsts: seq<PhysPortAndID>, n: nat, port: Port)
    requires n <= |dsts|
    ensures HasPortBefore(dsts, n, port) <==> exists k :: 0 <= k < n && dsts[k].physPort.port == port
  {
    if n > 0 { HasPortBeforeIs(dsts, n - 1, port); }
  }

  lemma MasterPut(m: MasterAMSels, tile: TileLoc, pair: (nat, nat), port: Port)
    ensures var ports := if (tile, pair) in m then m[(tile, pair)] else {};
            forall t, q, p :: MasterAt(m[(tile, pair) := ports + {port}], t, q, p) <==>
              MasterAt(m, t, q, p) || (t == tile && q == pair && p == port)
  {
    var ports := if (tile, pair) in m then m[(tile, pair)] else {};
    var r := m[(tile, pair) := ports + {port}];
    forall t, q, p ensures MasterAt(r, t, q, p) <==> MasterAt(m, t, q, p) || (t == tile && q == pair && p == port) {
      if (t, q) == (tile, pair) {
        assert t == tile && q == pair;
      }
    }
  }

  /** The ports of one entry are entered under its tile and pair. */
  method EnterPorts(m0: MasterAMSels, tile: TileLoc, pair: (nat, nat), dsts: seq<PhysPortAndID>) returns (m: MasterAMSels)
    ensures forall t, q, port :: MasterAt(m, t, q, port) <==>
              MasterAt(m0, t, q, port) || (t == tile && q == pair && HasPort(dsts, port))
  {
    m := m0;
    for n := 0 to |dsts|
      invariant forall t, q, port :: MasterAt(m, t, q, port) <==>
                  MasterAt(m0, t, q, port) || (t == tile && q == pair && HasPortBefore(dsts, n, port))
    {
      MasterPut(m, tile, pair, dsts[n].physPort.port);
      hide MasterAt;
      var ports := if (tile, pair) in m then m[(tile, pair)] else {};
      m := m[(tile, pair) := ports + {dsts[n].physPort.port}];
    }
    forall port ensures HasPort(dsts, port) <==> HasPortBefore(dsts, |dsts|, port) {
      HasPortBeforeIs(dsts, |dsts|, port);
      if k :| 0 <= k < |dsts| && dsts[k].physPort.port == port { assert dsts[k] in dsts; }
    }
  }

  /** The loop that looks up the pair of every entry. */
  method TakePairs(gen: AMSelGenerator, entries: seq<Entry>)
      returns (ok: bool, slaveAMSels: AMSelMap, masterAMSels: MasterAMSels)
    requires gen.Valid()
    ensures ok ==> forall s :: s in slaveAMSels <==> Listed(entries, s)
    ensures ok ==> TakenFrom(gen, slaveAMSels)
    ensures ok ==> forall t, q, port :: MasterAt(masterAMSels, t, q, port) <==> Drives(entries, |entries|, slaveAMSels, t, q, port)
    ensures !ok ==> exists i :: 0 <= i < |entries| && NoPair(gen, entries[i].src)
  {
    hide AMSelGenerator.Valid;
    hide Drives;
    hide MasterAt;
    slaveAMSels, masterAMSels := map[], map[];
    NoDrives(entries);
    for n := 0 to |entries|
      invariant forall i :: 0 <= i < n ==> entries[i].src in slaveAMSels
      invariant forall s :: s in slaveAMSels ==> Listed(entries, s)
      invariant TakenFrom(gen, slaveAMSels)
      invariant forall t, q, port :: MasterAt(masterAMSels, t, q, port) <==> Drives(entries, n, slaveAMSels, t, q, port)
    {
      var src := entries[n].src;
      var tileLoc := src.physPort.tileLoc;
      var maybeAMSel := gen.GetAMSel(tileLoc, src);
      if maybeAMSel.None? {
        assert NoPair(gen, entries[n].src);
        return false, slaveAMSels, masterAMSels;
      }
      ghost var before := masterAMSels;
      masterAMSels := EnterPorts(masterAMSels, tileLoc, maybeAMSel.value, entries[n].dsts);
      MastersNext(entries, n, slaveAMSels, maybeAMSel.value, before, masterAMSels);
      slaveAMSels := slaveAMSels[src := maybeAMSel.value];
    }
    ok := true;
  }

  ghost predicate NoPair(gen: AMSelGenerator, s: PhysPortAndID)
    requires gen.Valid()
    reads gen, gen.Repr
  {
    s.physPort.tileLoc in gen.tileToAMSelConfig ==> s !in gen.tileToAMSelConfig[s.physPort.tileLoc].portsToAMSels
  }

  lemma NoDrives(entries: seq<Entry>)
    ensures forall t, q, port :: !MasterAt(map[], t, q, port) && !Drives(entries, 0, map[], t, q, port)
  {
  }

  // ---------- Listing the pairs of the masters ----------

  ghost predicate NoTwice(pairs: seq<(nat, nat)>) {
    forall i, j :: 0 <= i < j < |pairs| ==> pairs[i] != pairs[j]
  }

  /** The lists are not empty, belong to outgoing ports, and have no pair twice. */
  ghost predicate Lists(masters: MasterSets) {
    forall p :: p in masters ==> p.direction == Dst && masters[p] != [] && NoTwice(masters[p])
  }

  lemma PushLists(masters: MasterSets, p: PhysPort, pair: (nat, nat))
    requires Lists(masters) && p.direction == Dst && !Has(masters, p, pair)
    ensures Lists(Push(masters, p, pair))
  {
  }

  method AddToMasters(m0: MasterSets, tile: TileLoc, pair: (nat, nat), ports: set<Port>) returns (masters: MasterSets)
    requires Lists(m0) && forall port :: port in ports ==> !Has(m0, PhysPort(tile, port, Dst), pair)
    ensures Lists(masters)
    ensures forall t, q, port :: Has(masters, PhysPort(t, port, Dst), q) <==>
              Has(m0, PhysPort(t, port, Dst), q) || (t == tile && q == pair && port in ports)
  {
    hide Lists;
    masters := m0;
    var todo := ports;
    while todo != {}
      invariant todo <= ports
      invariant Lists(masters)
      invariant forall t, q, port :: Has(masters, PhysPort(t, port, Dst), q) <==>
                  Has(m0, PhysPort(t, port, Dst), q) || (t == tile && q == pair && port in ports && port !in todo)
    {
      var port :| port in todo;
      todo := todo - {port};
      PushAdds(masters, PhysPort(tile, port, Dst), pair);
      PushLists(masters, PhysPort(tile, port, Dst), pair);
      masters := Push(masters, PhysPort(tile, port, Dst), pair);
    }
  }

  /** The first loop of the master sets: every pair is listed for the ports that it targets. */
  method ListMasters(masterAMSels: MasterAMSels) returns (masters: MasterSets)
    ensures Lists(masters)
    ensures forall t, q, port :: Has(masters, PhysPort(t, port, Dst), q) <==> MasterAt(masterAMSels, t, q, port)
  {
    masters := map[];
    var todo := masterAMSels.Keys;
    while todo != {}
      invariant todo <= masterAMSels.Keys
      invariant Lists(masters)
      invariant forall t, q, port :: Has(masters, PhysPort(t, port, Dst), q) <==>
                  MasterAt(masterAMSels, t, q, port) && (t, q) !in todo
    {
      hide Lists;
      var key :| key in todo;
      masters := AddToMasters(masters, key.0, key.1, masterAMSels[key]);
      todo := todo - {key};
    }
  }

  predicate PairLess(a: (nat, nat), b: (nat, nat)) {
    a.0 < b.0 || (a.0 == b.0 && a.1 < b.1)
  }

  /** By arbiter first and then by msel, without repetitions. */
  ghost predicate PairsAscending(pairs: seq<(nat, nat)>) {
    forall i, j :: 0 <= i < j < |pairs| ==>
      pairs[i].0 < pairs[j].0 || (pairs[i].0 == pairs[j].0 && pairs[i].1 < pairs[j].1)
  }

  /** `std::sort`, modelled by an insertion sort. */
  method SortPairs(pairs: seq<(nat, nat)>) returns (r: seq<(nat, nat)>)
    requires NoTwice(pairs)
    ensures PairsAscending(r) && (forall q :: q in r <==> q in pairs)
  {
    r := [];
    for n := 0 to |pairs|
      invariant PairsAscending(r) && (forall q :: q in r <==> q in pairs[..n])
    {
      assert pairs[..n + 1] == pairs[..n] + [pairs[n]];
      r := InsertPair(r, pairs[n]);
    }
    assert pairs[..|pairs|] == pairs;
  }

  method InsertPair(pairs: seq<(nat, nat)>, pair: (nat, nat)) returns (r: seq<(nat, nat)>)
    requires PairsAscending(pairs) && pair !in pairs
    ensures PairsAscending(r) && (forall q :: q in r <==> q == pair || q in pairs)
  {
    hide PairsAscending;
    var k := 0;
    while k < |pairs| && PairLess(pairs[k], pair)
      invariant 0 <= k <= |pairs|
      invariant forall i :: 0 <= i < k ==> PairLess(pairs[i], pair)
    {
      k := k + 1;
    }
    r := pairs[..k] + [pair] + pairs[k..];
    PairInserted(pairs, k, pair);
  }

  lemma PairInserted(pairs: seq<(nat, nat)>, k: nat, pair: (nat, nat))
    requires PairsAscending(pairs) && k <= |pairs| && pair !in pairs
    requires forall i :: 0 <= i < k ==> PairLess(pairs[i], pair)
    requires k < |pairs| ==> !PairLess(pairs[k], pair)
    ensures PairsAscending(pairs[..k] + [pair] + pairs[k..])
    ensures forall q :: q in pairs[..k] + [pair] + pairs[k..] <==> q == pair || q in pairs
  {
    var r := pairs[..k] + [pair] + pairs[k..];
    forall i, j | 0 <= i < j < |r| ensures r[i].0 < r[j].0 || (r[i].0 == r[j].0 && r[i].1 < r[j].1) {
      if i < k && j == k { assert PairLess(pairs[i], pair); }
    }
    assert pairs == pairs[..k] + pairs[k..];
  }

  /** The master set ids: for every port its pairs, sorted. */
  method ComputeMasterSets(masterAMSels: MasterAMSels) returns (masters: MasterSets)
    ensures forall p :: p in masters ==> p.direction == Dst && masters[p] != [] && PairsAscending(masters[p])
    ensures forall t, q, port :: Has(masters, PhysPort(t, port, Dst), q) <==> MasterAt(masterAMSels, t, q, port)
  {
    hide MasterAt, PairsAscending, NoTwice;
    masters := ListMasters(masterAMSels);
    var todo := masters.Keys;
    while todo != {}
      invariant todo <= masters.Keys
      invariant forall p :: p in todo ==> NoTwice(masters[p])
      invariant forall p :: p in masters ==> p.direction == Dst && masters[p] != [] && (p in todo || PairsAscending(masters[p]))
      invariant forall t, q, port :: Has(masters, PhysPort(t, port, Dst), q) <==> MasterAt(masterAMSels, t, q, port)
    {
      var p :| p in todo;
      var sorted := SortPairs(masters[p]);
      SameMembers(masters, p, sorted);
      masters := masters[p := sorted];
      todo := todo - {p};
    }
  }

  lemma SameMembers(masters: MasterSets, p: PhysPort, sorted: seq<(nat, nat)>)
    requires p in masters && masters[p] != [] && forall q :: q in sorted <==> q in masters[p]
    ensures sorted != [] && forall p', q :: Has(masters[p := sorted], p', q) <==> Has(masters, p', q)
  {
    assert masters[p][0] in masters[p];
  }

  lemma AddedUnsolvable(gen: AMSelGenerator, entries: seq<Entry>, numArbiters: TileLoc -> nat, numMSels: TileLoc -> nat)
    requires gen.Valid() && Added(gen, entries, |entries|, numArbiters, numMSels)
    ensures (exists t :: t in gen.tileToAMSelConfig && gen.tileToAMSelConfig[t].Unsolvable()) ==>
              NoConfiguration(entries, numArbiters, numMSels)
  {
    hide Gather;
    hide TileAMSelGenerator.Valid;
    if t :| t in gen.tileToAMSelConfig && gen.tileToAMSelConfig[t].Unsolvable() {
      assert gen.ConnsOn(t) == Gather(entries, |entries|, t) && gen.PortsOn(t) == GatherPorts(entries, |entries|, t);
    }
  }

  lemma NoPairNoDest(gen: AMSelGenerator, entries: seq<Entry>, numArbiters: TileLoc -> nat, numMSels: TileLoc -> nat)
    requires gen.Valid() && Added(gen, entries, |entries|, numArbiters, numMSels)
    requires forall t :: t in gen.tileToAMSelConfig ==> gen.tileToAMSelConfig[t].Solved()
    requires exists i :: 0 <= i < |entries| && NoPair(gen, entries[i].src)
    ensures NoConfiguration(entries, numArbiters, numMSels)
  {
    hide Gather;
    hide TileAMSelGenerator.Valid;
    var i :| 0 <= i < |entries| && NoPair(gen, entries[i].src);
    var s := entries[i].src;
    var tile := s.physPort.tileLoc;
    var c := Gather(entries, |entries|, tile);
    assert gen.ConnsOn(tile) == c;
    assert tile in gen.tileToAMSelConfig && gen.tileToAMSelConfig[tile].Solved();
    assert !HasDest(c, s);
    forall d ensures !Routes(entries, |entries|, s, d) {
      GatherRoutes(entries, |entries|, tile, s, d);
    }
  }

  lemma SolvedTilesFit(gen: AMSelGenerator, entries: seq<Entry>, amsels: AMSelMap, numArbiters: TileLoc -> nat, numMSels: TileLoc -> nat)
    requires gen.Valid() && Added(gen, entries, |entries|, numArbiters, numMSels) && TakenFrom(gen, amsels)
    requires forall t :: t in gen.tileToAMSelConfig ==> gen.tileToAMSelConfig[t].Solved()
    ensures PairsSolved(entries, amsels, numArbiters, numMSels)
  {
    hide Gather, GatherPorts, FirstFitPairs;
    hide TileAMSelGenerator.Valid;
    forall s | s in amsels
      ensures amsels[s].0 < numArbiters(s.physPort.tileLoc) && amsels[s].1 < numMSels(s.physPort.tileLoc)
    {
      assert gen.tileToAMSelConfig[s.physPort.tileLoc].Solved();
    }
    forall s, t | s in amsels && t in amsels && s.physPort.tileLoc == t.physPort.tileLoc ensures PairsFit(entries, amsels, s, t) {
      var tile := s.physPort.tileLoc;
      var g := gen.tileToAMSelConfig[tile];
      assert g.Solved();
      assert gen.ConnsOn(tile) == Gather(entries, |entries|, tile);
      SolvedPairsFit(entries, tile, g.portsToAMSels, g.numArbiters, g.numMSels, s, t);
      hide Solves;
    }
  }

  /** On every tile the first-fit search over the groups, in the order of the entries, gave the arbiters. */
  ghost predicate PairsPlaced(entries: seq<Entry>, amsels: AMSelMap, numArbiters: TileLoc -> nat, numMSels: TileLoc -> nat) {
    forall t :: FirstFitPairs(Gather(entries, |entries|, t), GatherPorts(entries, |entries|, t), amsels, numArbiters(t), numMSels(t))
  }

  lemma NothingToPlace(amsels: AMSelMap, numArbiters: nat, numMSels: nat)
    ensures FirstFitPairs(map[], [], amsels, numArbiters, numMSels)
  {
    hide Linked;
    assert Grouped(map[], [], []);
    assert PlaceAll(map[], [], 0, numArbiters, numMSels) == Some(Placed([], []));
  }

  lemma SamePairsPlaced(c: Conns, ports: PortList, own: AMSelMap, amsels: AMSelMap, numArbiters: nat, numMSels: nat)
    requires FirstFitPairs(c, ports, own, numArbiters, numMSels)
    requires forall s :: s in c ==> s in amsels && (s in own ==> amsels[s] == own[s])
    ensures FirstFitPairs(c, ports, amsels, numArbiters, numMSels)
  {
    hide PlaceAll, InOrderOf;
    var groups :| Grouped(c, ports, groups) &&
                  var p := PlaceAll(c, groups, |groups|, numArbiters, numMSels); p.Some? && ArePlaced(groups, p.value, own);
    ComponentsAreSources(c, groups);
    hide Grouped;
  }

  lemma SolvedTilesPlaced(gen: AMSelGenerator, entries: seq<Entry>, amsels: AMSelMap, numArbiters: TileLoc -> nat, numMSels: TileLoc -> nat)
    requires gen.Valid() && Added(gen, entries, |entries|, numArbiters, numMSels) && TakenFrom(gen, amsels)
    requires forall t :: t in gen.tileToAMSelConfig ==> gen.tileToAMSelConfig[t].Solved()
    requires forall s :: s in amsels <==> Listed(entries, s)
    ensures PairsPlaced(entries, amsels, numArbiters, numMSels)
  {
    hide Gather, GatherPorts, FirstFitPairs, Solves;
    hide TileAMSelGenerator.Valid;
    forall t ensures FirstFitPairs(Gather(entries, |entries|, t), GatherPorts(entries, |entries|, t), amsels, numArbiters(t), numMSels(t)) {
      assert gen.ConnsOn(t) == Gather(entries, |entries|, t) && gen.PortsOn(t) == GatherPorts(entries, |entries|, t);
      if t in gen.tileToAMSelConfig {
        var g := gen.tileToAMSelConfig[t];
        assert g.Solved();
        forall s | s in g.srcToDstPorts ensures s in amsels && (s in g.portsToAMSels ==> amsels[s] == g.portsToAMSels[s]) {
          GatherKeys(entries, |entries|, t, s);
          assert Listed(entries, s);
        }
        SamePairsPlaced(g.srcToDstPorts, g.dstPorts, g.portsToAMSels, amsels, g.numArbiters, g.numMSels);
      } else {
        NothingToPlace(amsels, numArbiters(t), numMSels(t));
      }
    }
  }

  /** Why no configuration is found: some source has no destination, or the search fails on some tile. */
  ghost predicate NoConfiguration(entries: seq<Entry>, numArbiters: TileLoc -> nat, numMSels: TileLoc -> nat) {
    || (exists i :: 0 <= i < |entries| && forall d :: !Routes(entries, |entries|, entries[i].src, d))
    || (exists tile :: NoFirstFit(Gather(entries, |entries|, tile), GatherPorts(entries, |entries|, tile), numArbiters(tile), numMSels(tile)))
  }

  /** All tiles are filled and solved. */
  method SolveTiles(entries: seq<Entry>, numArbiters: TileLoc -> nat, numMSels: TileLoc -> nat)
      returns (ok: bool, gen: AMSelGenerator)
    requires EntriesDirected(entries)
    ensures gen.Valid() && Added(gen, entries, |entries|, numArbiters, numMSels)
    ensures ok ==> forall t :: t in gen.tileToAMSelConfig ==> gen.tileToAMSelConfig[t].Solved()
    ensures !ok ==> NoConfiguration(entries, numArbiters, numMSels)
  {
    hide AMSelGenerator.Valid;
    hide Gather;
    hide TileAMSelGenerator.Unsolvable;
    hide TileAMSelGenerator.Solved;
    hide NoConfiguration;
    gen := AddAll(entries, numArbiters, numMSels);
    ok := gen.Solve();
    AddedUnsolvable(gen, entries, numArbiters, numMSels);
  }

  lemma MastersAreSet(entries: seq<Entry>, amsels: AMSelMap, masterAMSels: MasterAMSels, masters: MasterSets)
    requires forall p :: p in masters ==> p.direction == Dst && masters[p] != [] && PairsAscending(masters[p])
    requires forall t, q, port :: Has(masters, PhysPort(t, port, Dst), q) <==> MasterAt(masterAMSels, t, q, port)
    requires forall t, q, port :: MasterAt(masterAMSels, t, q, port) <==> Drives(entries, |entries|, amsels, t, q, port)
    ensures MastersSet(entries, amsels, masters)
  {
    hide Has, MasterAt, Drives, PairsAscending;
  }


  /** `emitPacketRoutingConfiguration` */
  method EmitPacketRoutingConfiguration(numArbiters: TileLoc -> nat, numMSels: TileLoc -> nat,
                                        packetFlows: PacketFlowMap, priorPacketFlows: PacketFlowMap)
      returns (r: Option<(MasterSets, AMSelMap)>, entries: seq<Entry>)
    requires FlowsDirected(packetFlows) && FlowsDirected(priorPacketFlows)
    ensures EntriesOf(entries, packetFlows, priorPacketFlows) && RoutedThenNew(entries, packetFlows, priorPacketFlows)
    ensures r.Some? ==> forall s :: s in r.value.1 <==> Listed(entries, s)
    ensures r.Some? ==> PairsSolved(entries, r.value.1, numArbiters, numMSels)
    ensures r.Some? ==> PairsPlaced(entries, r.value.1, numArbiters, numMSels)
    ensures r.Some? ==> MastersSet(entries, r.value.1, r.value.0)
    ensures r.None? ==> NoConfiguration(entries, numArbiters, numMSels)
  {
    hide AMSelGenerator.Valid;
    hide Added;
    hide TileAMSelGenerator.Solved;
    hide PairsSolved, PairsPlaced;
    hide EntriesOf;
    hide TakenFrom;
    hide NoPair;
    hide NoConfiguration;
    var prior := ListFlows(priorPacketFlows);
    var unrouted := ListFlows(packetFlows);
    ConcatInOrder(prior, unrouted, packetFlows, priorPacketFlows);
    ConcatEntries(prior, unrouted, packetFlows, priorPacketFlows);
    EntriesAreDirected(prior + unrouted, packetFlows, priorPacketFlows);
    hide RoutedThenNew, ListsInOrder;
    var sortedPacketFlows := prior + unrouted;
    entries := sortedPacketFlows;
    hide Listed;
    hide FlowsDirected;
    hide MastersSet, Drives, MasterAt;
    var ok, amselGenerator := SolveTiles(sortedPacketFlows, numArbiters, numMSels);
    if !ok { return None, entries; }
    var slaveAMSels, masterAMSels;
    ok, slaveAMSels, masterAMSels := TakePairs(amselGenerator, sortedPacketFlows);
    if !ok {
      NoPairNoDest(amselGenerator, entries, numArbiters, numMSels);
      return None, entries;
    }
    SolvedTilesFit(amselGenerator, entries, slaveAMSels, numArbiters, numMSels);
    SolvedTilesPlaced(amselGenerator, entries, slaveAMSels, numArbiters, numMSels);
    var mastersets := ComputeMasterSets(masterAMSels);
    MastersAreSet(entries, slaveAMSels, masterAMSels, mastersets);
    r := Some((mastersets, slaveAMSels));
  }
}
