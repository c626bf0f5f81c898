/** The switch settings that are recorded for a flow while its paths are traced back. */
module FlowSettings {
  import opened StreamSwitch
  import opened PortOrder
  import opened ShortestPaths
  import opened ShortestTrees
  import opened TraceBack

  /** The incoming and the outgoing ports of a switchbox; the ones at the same index belong together. */
  datatype SwitchSetting = SwitchSetting(srcs: seq<Port>, dsts: seq<Port>)

  type SwitchSettings = map<TileLoc, SwitchSetting>

  function SettingAt(settings: SwitchSettings, tile: TileLoc): SwitchSetting {
    if tile in settings then settings[tile] else SwitchSetting([], [])
  }

  function PushSrc(settings: SwitchSettings, tile: TileLoc, port: Port): SwitchSettings {
    var x := SettingAt(settings, tile);
    settings[tile := x.(srcs := x.srcs + [port])]
  }

  function PushDst(settings: SwitchSettings, tile: TileLoc, port: Port): SwitchSettings {
    var x := SettingAt(settings, tile);
    settings[tile := x.(dsts := x.dsts + [port])]
  }

  function RouteToSelf(settings: SwitchSettings, source: PhysPort): SwitchSettings {
    PushDst(PushSrc(settings, source.tileLoc, source.port), source.tileLoc, source.port)
  }

  /** The connection from the predecessor of `v` is recorded when it is inside a switchbox. */
  function Recorded(settings: SwitchSettings, pred: PhysPort, v: PhysPort): SwitchSettings {
    if pred.tileLoc == v.tileLoc then PushDst(PushSrc(settings, pred.tileLoc, pred.port), v.tileLoc, v.port) else settings
  }

  ghost function RecordedAll(settings: SwitchSettings, s: Search, nodes: seq<PhysPort>, n: nat): SwitchSettings
    requires n <= |nodes|
  {
    if n == 0 then settings
    else
      var before := RecordedAll(settings, s, nodes, n - 1);
      if nodes[n - 1] in s.preds then Recorded(before, s.preds[nodes[n - 1]], nodes[n - 1]) else before
  }

  lemma {:induction false} RecordPrefix(settings: SwitchSettings, s: Search, nodes: seq<PhysPort>, more: seq<PhysPort>, n: nat)
    requires n <= |nodes| && n <= |more| && nodes[..n] == more[..n]
    ensures RecordedAll(settings, s, nodes, n) == RecordedAll(settings, s, more, n)
  {
    if n > 0 {
      assert nodes[..n][..n - 1] == nodes[..n - 1] && more[..n][..n - 1] == more[..n - 1];
      assert nodes[n - 1] == nodes[..n][n - 1] && more[n - 1] == more[..n][n - 1];
      RecordPrefix(settings, s, nodes, more, n - 1);
    }
  }

  /** One more node. */
  lemma RecordOneMore(settings: SwitchSettings, s: Search, nodes: seq<PhysPort>, v: PhysPort)
    requires v in s.preds
    ensures RecordedAll(settings, s, nodes + [v], |nodes| + 1) == Recorded(RecordedAll(settings, s, nodes, |nodes|), s.preds[v], v)
  {
    hide Recorded;
    assert (nodes + [v])[..|nodes|] == nodes == nodes[..|nodes|];
    RecordPrefix(settings, s, nodes, nodes + [v], |nodes|);
  }

  /** The settings after the first `n` destinations. */
  ghost function SettingsOf(s: Search, source: PhysPort, dsts: seq<PhysPort>, n: nat): SwitchSettings
    requires n <= |dsts|
  {
    if n == 0 then map[]
    else
      var before := SettingsOf(s, source, dsts, n - 1);
      var walk := Walk(s, PortSet(Traced(s, source, dsts, n - 1)) + {source}, dsts[n - 1]);
      RecordedAll(if dsts[n - 1] == source then RouteToSelf(before, source) else before, s, walk, |walk|)
  }

  // ---------- What the settings say ----------

  ghost predicate HasPair(settings: SwitchSettings, tile: TileLoc, p: Port, q: Port) {
    var x := SettingAt(settings, tile);
    exists i :: 0 <= i < |x.srcs| && i < |x.dsts| && x.srcs[i] == p && x.dsts[i] == q
  }

  /** Incoming and outgoing ports are equally many. */
  ghost predicate Balanced(settings: SwitchSettings) {
    forall t :: |SettingAt(settings, t).srcs| == |SettingAt(settings, t).dsts|
  }

  /** No outgoing port is set twice. */
  ghost predicate DrivenOnce(settings: SwitchSettings) {
    forall t, i, j :: 0 <= i < j < |SettingAt(settings, t).dsts| ==> SettingAt(settings, t).dsts[i] != SettingAt(settings, t).dsts[j]
  }

  /** The predecessor of `v` is at port `p`, and `v` at port `q`, of the same tile. */
  ghost predicate ConnectsTo(s: Search, v: PhysPort, tile: TileLoc, p: Port, q: Port) {
    v in s.preds && s.preds[v] == PhysPort(tile, p, s.preds[v].direction) && v == PhysPort(tile, q, v.direction)
  }

  ghost predicate SelfPair(source: PhysPort, tile: TileLoc, p: Port, q: Port) {
    tile == source.tileLoc && p == source.port && q == source.port
  }

  /** The settings have exactly the connections of `nodes` that are inside a switchbox. */
  ghost predicate Records(s: Search, settings: SwitchSettings, nodes: set<PhysPort>, source: PhysPort, toSelf: bool) {
    && Balanced(settings)
    && forall t, p, q :: HasPair(settings, t, p, q) <==>
         (exists v :: v in nodes && ConnectsTo(s, v, t, p, q)) || (toSelf && SelfPair(source, t, p, q))
  }

  lemma PairPushed(settings: SwitchSettings, tile: TileLoc, port: Port, port2: Port, t: TileLoc, p: Port, q: Port)
    requires Balanced(settings)
    ensures var after := PushDst(PushSrc(settings, tile, port), tile, port2);
            && |SettingAt(after, t).srcs| == |SettingAt(after, t).dsts|
            && (HasPair(after, t, p, q) <==> HasPair(settings, t, p, q) || (t == tile && p == port && q == port2))
  {
    var after := PushDst(PushSrc(settings, tile, port), tile, port2);
    var x, y := SettingAt(settings, t), SettingAt(after, t);
    if t == tile {
      assert y.srcs == x.srcs + [port] && y.dsts == x.dsts + [port2];
      var n := |x.srcs|;
      assert |x.dsts| == n;
      if HasPair(settings, t, p, q) {
        var i :| 0 <= i < n && x.srcs[i] == p && x.dsts[i] == q;
        assert y.srcs[i] == p && y.dsts[i] == q;
      }
      assert y.srcs[n] == port && y.dsts[n] == port2;
    } else {
      assert x == y;
    }
  }

  lemma RecordStep(s: Search, settings: SwitchSettings, nodes: set<PhysPort>, source: PhysPort, toSelf: bool, v: PhysPort)
    requires Records(s, settings, nodes, source, toSelf) && v in s.preds
    ensures Records(s, Recorded(settings, s.preds[v], v), nodes + {v}, source, toSelf)
  {
    hide HasPair, PushDst, PushSrc, SettingAt;
    var u := s.preds[v];
    var after := Recorded(settings, u, v);
    forall t ensures |SettingAt(after, t).srcs| == |SettingAt(after, t).dsts| {
      if u.tileLoc == v.tileLoc { PairPushed(settings, u.tileLoc, u.port, v.port, t, u.port, u.port); }
    }
    forall t, p, q
      ensures HasPair(after, t, p, q) <==>
        (exists w :: w in nodes + {v} && ConnectsTo(s, w, t, p, q)) || (toSelf && SelfPair(source, t, p, q))
    {
      if u.tileLoc == v.tileLoc { PairPushed(settings, u.tileLoc, u.port, v.port, t, p, q); }
      assert ConnectsTo(s, v, t, p, q) <==> u.tileLoc == v.tileLoc == t && u.port == p && v.port == q;
      OneMore(s, nodes, v, t, p, q);
    }
  }

  lemma OneMore(s: Search, nodes: set<PhysPort>, v: PhysPort, t: TileLoc, p: Port, q: Port)
    ensures (exists w :: w in nodes + {v} && ConnectsTo(s, w, t, p, q)) <==>
            (exists w :: w in nodes && ConnectsTo(s, w, t, p, q)) || ConnectsTo(s, v, t, p, q)
  {
    if w :| w in nodes && ConnectsTo(s, w, t, p, q) { assert w in nodes + {v}; }
    if ConnectsTo(s, v, t, p, q) { assert v in nodes + {v}; }
  }

  lemma SelfStep(s: Search, settings: SwitchSettings, nodes: set<PhysPort>, source: PhysPort, toSelf: bool)
    requires Records(s, settings, nodes, source, toSelf)
    ensures Records(s, RouteToSelf(settings, source), nodes, source, true)
  {
    hide HasPair, PushDst, PushSrc, SettingAt;
    var after := RouteToSelf(settings, source);
    forall t ensures |SettingAt(after, t).srcs| == |SettingAt(after, t).dsts| {
      PairPushed(settings, source.tileLoc, source.port, source.port, t, source.port, source.port);
    }
    forall t, p, q
      ensures HasPair(after, t, p, q) <==>
        (exists w :: w in nodes && ConnectsTo(s, w, t, p, q)) || SelfPair(source, t, p, q)
    {
      PairPushed(settings, source.tileLoc, source.port, source.port, t, p, q);
    }
  }

  lemma {:induction false} RecordedAllKeeps(s: Search, settings: SwitchSettings, nodes: set<PhysPort>, source: PhysPort, toSelf: bool,
                                            walk: seq<PhysPort>, n: nat)
    requires Records(s, settings, nodes, source, toSelf) && n <= |walk| && forall v :: v in walk ==> v in s.preds
    ensures Records(s, RecordedAll(settings, s, walk, n), nodes + PortSet(walk[..n]), source, toSelf)
  {
    hide Records;
    if n > 0 {
      RecordedAllKeeps(s, settings, nodes, source, toSelf, walk, n - 1);
      RecordStep(s, RecordedAll(settings, s, walk, n - 1), nodes + PortSet(walk[..n - 1]), source, toSelf, walk[n - 1]);
      assert nodes + PortSet(walk[..n]) == nodes + PortSet(walk[..n - 1]) + {walk[n - 1]};
    } else {
      assert nodes + PortSet(walk[..0]) == nodes;
    }
  }

  /** One more destination. */
  lemma SettingsStep(s: Search, before: SwitchSettings, t: seq<PhysPort>, walk: seq<PhysPort>, source: PhysPort, toSelf: bool, self: bool)
    requires Records(s, before, PortSet(t), source, toSelf) && forall v :: v in t + walk ==> v in s.preds
    ensures Records(s, RecordedAll(if self then RouteToSelf(before, source) else before, s, walk, |walk|),
                    PortSet(t + walk), source, toSelf || self)
  {
    hide Records;
    if self { SelfStep(s, before, PortSet(t), source, toSelf); }
    assert forall v :: v in walk ==> v in t + walk;
    RecordedAllKeeps(s, if self then RouteToSelf(before, source) else before, PortSet(t), source, toSelf || self, walk, |walk|);
    assert walk[..|walk|] == walk;
    assert PortSet(t + walk) == PortSet(t) + PortSet(walk);
  }

  /** For all destinations the settings are exactly the connections inside switchboxes on the tree paths. */
  lemma {:induction false} SettingsRecordPaths(s: Search, source: PhysPort, dsts: seq<PhysPort>, n: nat)
    requires IsTree(s, source) && Found(s, source, dsts) && n <= |dsts|
    ensures Records(s, SettingsOf(s, source, dsts, n), PortSet(Traced(s, source, dsts, n)), source, source in dsts[..n])
  {
    hide IsTree, Records, Walk, PortSet, RecordedAll, RouteToSelf, OnPaths, ClosedUnderChain, Chain;
    if n == 0 {
      NothingRecorded(s, source);
    } else {
      SettingsRecordPaths(s, source, dsts, n - 1);
      var d := dsts[n - 1];
      var t := Traced(s, source, dsts, n - 1);
      TracedIsOnPaths(s, source, dsts, n);
      SettingsStep(s, SettingsOf(s, source, dsts, n - 1), t, Walk(s, PortSet(t) + {source}, d), source, source in dsts[..n - 1], d == source);
      assert dsts[..n] == dsts[..n - 1] + [d];
    }
  }

  lemma NothingRecorded(s: Search, source: PhysPort)
    ensures Records(s, map[], PortSet([]), source, false)
  {
  }

  // ---------- Every outgoing port is set once ----------

  /** Different nodes of one direction have different ports. */
  ghost predicate AllDst(nodes: set<PhysPort>) {
    forall v :: v in nodes ==> v.direction == Dst
  }

  lemma DrivenStep(s: Search, settings: SwitchSettings, nodes: set<PhysPort>, source: PhysPort, v: PhysPort)
    requires Records(s, settings, nodes, source, false) && DrivenOnce(settings) && AllDst(nodes + {v})
    requires v in s.preds && v !in nodes
    ensures DrivenOnce(Recorded(settings, s.preds[v], v))
  {
    var u := s.preds[v];
    var after := Recorded(settings, u, v);
    if u.tileLoc == v.tileLoc {
      var x := SettingAt(settings, v.tileLoc);
      forall i | 0 <= i < |x.dsts| ensures x.dsts[i] != v.port {
        assert HasPair(settings, v.tileLoc, x.srcs[i], x.dsts[i]);
        var w :| w in nodes && ConnectsTo(s, w, v.tileLoc, x.srcs[i], x.dsts[i]);
        assert w in nodes + {v} && v in nodes + {v};
      }
      assert SettingAt(after, v.tileLoc).dsts == x.dsts + [v.port];
      assert forall t :: t != v.tileLoc ==> SettingAt(after, t) == SettingAt(settings, t);
    }
  }

  lemma {:induction false} RecordedAllDrivesOnce(s: Search, settings: SwitchSettings, nodes: set<PhysPort>, source: PhysPort,
                                                 walk: seq<PhysPort>, n: nat)
    requires Records(s, settings, nodes, source, false) && DrivenOnce(settings) && n <= |walk|
    requires NoRepeats(walk) && PortSet(walk) !! nodes && AllDst(nodes + PortSet(walk)) && forall v :: v in walk ==> v in s.preds
    ensures DrivenOnce(RecordedAll(settings, s, walk, n))
  {
    hide Records, DrivenOnce;
    if n > 0 {
      RecordedAllDrivesOnce(s, settings, nodes, source, walk, n - 1);
      RecordedAllKeeps(s, settings, nodes, source, false, walk, n - 1);
      assert walk[n - 1] in PortSet(walk) && forall p :: p in PortSet(walk[..n - 1]) ==> p in PortSet(walk);
      DrivenStep(s, RecordedAll(settings, s, walk, n - 1), nodes + PortSet(walk[..n - 1]), source, walk[n - 1]);
    }
  }

  /** No outgoing port is set twice, as long as the source is not one of its own destinations. */
  lemma {:induction false} SettingsDriveOnce(s: Search, source: PhysPort, dsts: seq<PhysPort>, n: nat)
    requires IsTree(s, source) && Found(s, source, dsts) && n <= |dsts| && AllDst(s.preds.Keys)
    requires source !in dsts
    ensures DrivenOnce(SettingsOf(s, source, dsts, n))
  {
    hide IsTree, Records, Walk, RecordedAll, RouteToSelf, OnPaths, ClosedUnderChain, Chain, DrivenOnce;
    if n == 0 {
      NothingDriven();
    } else {
      SettingsDriveOnce(s, source, dsts, n - 1);
      SettingsRecordPaths(s, source, dsts, n - 1);
      var t := Traced(s, source, dsts, n - 1);
      var walk := Walk(s, PortSet(t) + {source}, dsts[n - 1]);
      TracedIsOnPaths(s, source, dsts, n);
      Parts(t, walk, s.preds.Keys);
      RecordedAllDrivesOnce(s, SettingsOf(s, source, dsts, n - 1), PortSet(t), source, walk, |walk|);
    }
  }

  lemma NothingDriven()
    ensures DrivenOnce(map[])
  {
  }

  lemma Parts(t: seq<PhysPort>, walk: seq<PhysPort>, all: set<PhysPort>)
    requires NoRepeats(t + walk) && (forall v :: v in t + walk ==> v in all) && AllDst(all)
    ensures NoRepeats(walk) && PortSet(walk) !! PortSet(t) && AllDst(PortSet(t) + PortSet(walk))
    ensures forall v :: v in walk ==> v in all
  {
    var j := t + walk;
    assert forall i :: 0 <= i < |walk| ==> walk[i] == j[|t| + i];
    assert forall i :: 0 <= i < |t| ==> t[i] == j[i];
    assert forall v :: v in walk ==> v in j;
    assert forall v :: v in t ==> v in j;
  }
}
