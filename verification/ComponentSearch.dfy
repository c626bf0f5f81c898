/** The work-list search of `TileAMSelGenerator::solve` that collects one component at a time. */
module ComponentSearch {
  import opened StreamSwitch
  import opened Connections

  /** `k` has `v` in its list. */
  predicate Has<K, V(==)>(m: map<K, seq<V>>, k: K, v: V) {
    k in m && v in m[k]
  }

  function Get<K, V>(m: map<K, seq<V>>, k: K): seq<V> {
    if k in m then m[k] else []
  }

  /** `m[k].push_back(v)` */
  function Push<K, V>(m: map<K, seq<V>>, k: K, v: V): map<K, seq<V>> {
    m[k := Get(m, k) + [v]]
  }

  lemma PushAdds<K, V>(m: map<K, seq<V>>, k: K, v: V)
    ensures forall k', v' :: Has(Push(m, k, v), k', v') <==> Has(m, k', v') || (k' == k && v' == v)
    ensures Push(m, k, v).Keys == m.Keys + {k}
    ensures (forall k' :: k' in m ==> m[k'] != []) ==> forall k' :: k' in Push(m, k, v) ==> Push(m, k, v)[k'] != []
  {
  }

  /** The maps that `addConnection` fills. */
  datatype Index = Index(
    c: Conns, dstToSrc: map<PhysPortAndID, seq<PhysPortAndID>>,
    byPort: map<Port, seq<PhysPortAndID>>, dstPorts: seq<Port>)
  {
    ghost predicate BothWays() {
      && (forall s, d :: Has(c, s, d) <==> Has(dstToSrc, d, s))
      && (forall d :: d in dstToSrc ==> dstToSrc[d] != [])
    }

    ghost predicate PortsListed() {
      && (forall p, d :: Has(byPort, p, d) <==> d in dstToSrc && d.physPort.port == p)
      && (forall p :: p in byPort ==> byPort[p] != [])
      && (forall p :: p in dstPorts <==> p in byPort)
    }

    ghost predicate Directed() {
      && (forall s :: s in c ==> s.physPort.direction == Src)
      && (forall d :: d in dstToSrc ==> d.physPort.direction == Dst)
    }

    /** The three other maps list the connections `c` from the side of their destinations. */
    ghost predicate Consistent() {
      BothWays() && PortsListed() && Directed()
    }

    ghost function Ends(): set<PhysPortAndID> {
      c.Keys + dstToSrc.Keys
    }
  }

  /** The queue, the visited sets and the group collected so far. */
  datatype Search = Search(q: seq<PhysPortAndID>, seen: set<PhysPortAndID>, ports: set<Port>, group: seq<PhysPortAndID>)

  /** What is visited is visited together with everything it shares a port with. */
  ghost predicate SeenClosed(ix: Index, seen: set<PhysPortAndID>, ports: set<Port>) {
    && seen <= ix.Ends()
    && (forall s, p :: s in seen && Targets(ix.c, s, p) ==> p in ports)
    && (forall s, p :: p in ports && Targets(ix.c, s, p) ==> s in seen)
    && (forall d :: d in seen && d in ix.dstToSrc ==> d.physPort.port in ports)
  }

  ghost predicate ReachesFrom(c: Conns, p0: Port, s: PhysPortAndID) {
    exists s0 :: Targets(c, s0, p0) && Linked(c, s0, s)
  }

  ghost predicate PortReached(c: Conns, p0: Port, p: Port) {
    exists s :: ReachesFrom(c, p0, s) && Targets(c, s, p)
  }

  ghost predicate NoRepeats(s: seq<PhysPortAndID>) {
    forall i, j :: 0 <= i < j < |s| ==> s[i] != s[j]
  }

  /** The group holds the sources visited in this search, and no others. */
  ghost predicate GroupIsNew(ix: Index, seen0: set<PhysPortAndID>, sr: Search) {
    && NoRepeats(sr.group)
    && seen0 <= sr.seen <= ix.Ends()
    && (forall s :: s in sr.group <==> s in ix.c && s in sr.seen && s !in seen0)
  }

  /** Everything that is reached is visited or queued. */
  ghost predicate Pending(ix: Index, ports0: set<Port>, sr: Search) {
    && ports0 <= sr.ports
    && (forall s, d :: s in sr.group && s in ix.c && d in ix.c[s] ==> d in sr.seen || d in sr.q)
    && (forall d :: d in sr.seen && d in ix.dstToSrc ==> d.physPort.port in sr.ports)
    && (forall p, s :: p in sr.ports && p !in ports0 && Targets(ix.c, s, p) ==> s in sr.seen || s in sr.q)
  }

  /** Everything that is visited or queued is reached from port `p0`. */
  ghost predicate Reached(ix: Index, p0: Port, sr: Search) {
    && (forall s :: s in sr.group ==> ReachesFrom(ix.c, p0, s) && HasDest(ix.c, s))
    && (forall x :: x in sr.q ==> Queued(ix, p0, x))
  }

  ghost predicate Queued(ix: Index, p0: Port, x: PhysPortAndID) {
    if x in ix.c then ReachesFrom(ix.c, p0, x) && HasDest(ix.c, x)
    else x in ix.dstToSrc && PortReached(ix.c, p0, x.physPort.port)
  }

  ghost predicate StartVisited(ix: Index, p0: Port, sr: Search) {
    p0 in sr.ports || exists d :: d in sr.q && d !in ix.c && d.physPort.port == p0
  }

  ghost predicate SearchOk(ix: Index, p0: Port, seen0: set<PhysPortAndID>, ports0: set<Port>, sr: Search) {
    && GroupIsNew(ix, seen0, sr)
    && Pending(ix, ports0, sr)
    && Reached(ix, p0, sr)
    && StartVisited(ix, p0, sr)
  }

  lemma ListedTargets(ix: Index, d: PhysPortAndID, s: PhysPortAndID)
    requires ix.Consistent() && d in ix.dstToSrc && s in ix.dstToSrc[d]
    ensures Targets(ix.c, s, d.physPort.port) && HasDest(ix.c, s)
  {
    assert Has(ix.dstToSrc, d, s) && Has(ix.c, s, d);
  }

  lemma SearchStarts(ix: Index, p0: Port, seen0: set<PhysPortAndID>, ports0: set<Port>)
    requires ix.Consistent() && p0 in ix.byPort && SeenClosed(ix, seen0, ports0)
    ensures SearchOk(ix, p0, seen0, ports0, Search(ix.byPort[p0], seen0, ports0, []))
  {
    forall d | d in ix.byPort[p0] ensures Queued(ix, p0, d) && d !in ix.c && d.physPort.port == p0 {
      assert Has(ix.byPort, p0, d);
      assert ix.dstToSrc[d][0] in ix.dstToSrc[d];
      var s := ix.dstToSrc[d][0];
      ListedTargets(ix, d, s);
      LinkedToSelf(ix.c, s);
      assert ReachesFrom(ix.c, p0, s);
    }
    assert ix.byPort[p0][0] in ix.byPort[p0];
  }

  lemma RestOf(q: seq<PhysPortAndID>)
    requires q != []
    ensures forall x :: x in q <==> x == q[0] || x in q[1..]
  {
  }

  lemma PopVisited(ix: Index, p0: Port, seen0: set<PhysPortAndID>, ports0: set<Port>, sr: Search)
    requires ix.Consistent() && SearchOk(ix, p0, seen0, ports0, sr)
    requires sr.q != [] && sr.q[0] in sr.seen
    ensures SearchOk(ix, p0, seen0, ports0, sr.(q := sr.q[1..]))
  {
    hide ReachesFrom;
    hide PortReached;
    hide Targets;
    hide Index.BothWays;
    hide Index.PortsListed;
    RestOf(sr.q);
    assert Queued(ix, p0, sr.q[0]);
  }

  lemma PopSource(ix: Index, p0: Port, seen0: set<PhysPortAndID>, ports0: set<Port>, sr: Search)
    requires ix.Consistent() && SearchOk(ix, p0, seen0, ports0, sr)
    requires sr.q != [] && sr.q[0] !in sr.seen && sr.q[0] in ix.c
    ensures var s := sr.q[0];
            SearchOk(ix, p0, seen0, ports0, Search(sr.q[1..] + ix.c[s], sr.seen + {s}, sr.ports, sr.group + [s]))
  {
    hide ReachesFrom;
    var s := sr.q[0];
    assert Queued(ix, p0, s);
    RestOf(sr.q);
    forall d | d in ix.c[s] ensures d in ix.dstToSrc && Queued(ix, p0, d) {
      assert Has(ix.c, s, d) && Has(ix.dstToSrc, d, s);
      assert Targets(ix.c, s, d.physPort.port);
    }
    hide Targets;
    hide PortReached;
    hide Index.BothWays;
    hide Index.PortsListed;
  }

  lemma PopKnownPort(ix: Index, p0: Port, seen0: set<PhysPortAndID>, ports0: set<Port>, sr: Search)
    requires ix.Consistent() && SearchOk(ix, p0, seen0, ports0, sr)
    requires sr.q != [] && sr.q[0] !in sr.seen && sr.q[0] !in ix.c && sr.q[0].physPort.port in sr.ports
    ensures SearchOk(ix, p0, seen0, ports0, sr.(q := sr.q[1..], seen := sr.seen + {sr.q[0]}))
  {
    hide ReachesFrom;
    hide PortReached;
    hide Targets;
    hide Index.BothWays;
    hide Index.PortsListed;
    assert Queued(ix, p0, sr.q[0]);
    RestOf(sr.q);
  }

  lemma SourceOfReachedPort(ix: Index, p0: Port, p: Port, t: PhysPortAndID)
    requires PortReached(ix.c, p0, p) && Targets(ix.c, t, p)
    ensures ReachesFrom(ix.c, p0, t)
  {
    var s :| ReachesFrom(ix.c, p0, s) && Targets(ix.c, s, p);
    var s0 :| Targets(ix.c, s0, p0) && Linked(ix.c, s0, s);
    assert Shares(ix.c, s, t);
    LinkedStep(ix.c, s0, s, t);
  }

  /** `more` lists the destinations on port `p` and their sources. */
  ghost predicate AllOnPort(ix: Index, p: Port, more: seq<PhysPortAndID>) {
    forall x :: x in more <==> (x in ix.dstToSrc && x.physPort.port == p) || Targets(ix.c, x, p)
  }

  lemma NewPortReached(ix: Index, p0: Port, sr: Search, more: seq<PhysPortAndID>)
    requires ix.Consistent() && Reached(ix, p0, sr)
    requires sr.q != [] && sr.q[0] !in ix.c && AllOnPort(ix, sr.q[0].physPort.port, more)
    ensures forall x :: x in more ==> Queued(ix, p0, x)
  {
    hide ReachesFrom;
    var d := sr.q[0];
    var p := d.physPort.port;
    assert Queued(ix, p0, d);
    forall x | x in more ensures Queued(ix, p0, x) {
      if Targets(ix.c, x, p) {
        SourceOfReachedPort(ix, p0, p, x);
        assert HasDest(ix.c, x);
      }
    }
  }

  lemma PopNewPort(ix: Index, p0: Port, seen0: set<PhysPortAndID>, ports0: set<Port>, sr: Search, more: seq<PhysPortAndID>)
    requires ix.Consistent() && SearchOk(ix, p0, seen0, ports0, sr)
    requires sr.q != [] && sr.q[0] !in sr.seen && sr.q[0] !in ix.c && sr.q[0].physPort.port !in sr.ports
    requires AllOnPort(ix, sr.q[0].physPort.port, more)
    ensures SearchOk(ix, p0, seen0, ports0,
                     Search(sr.q[1..] + more, sr.seen + {sr.q[0]}, sr.ports + {sr.q[0].physPort.port}, sr.group))
  {
    hide ReachesFrom;
    hide PortReached;
    hide Targets;
    hide Index.BothWays;
    hide Index.PortsListed;
    assert Queued(ix, p0, sr.q[0]);
    RestOf(sr.q);
    NewPortReached(ix, p0, sr, more);
    hide Queued;
  }

  lemma EndIsClosed(ix: Index, seen0: set<PhysPortAndID>, ports0: set<Port>, sr: Search)
    requires ix.Consistent() && GroupIsNew(ix, seen0, sr) && Pending(ix, ports0, sr) && SeenClosed(ix, seen0, ports0)
    requires sr.q == []
    ensures SeenClosed(ix, sr.seen, sr.ports) && Closed(ix.c, sr.group)
  {
    hide Index.PortsListed;
    forall s, p | s in sr.seen && Targets(ix.c, s, p) ensures p in sr.ports {
      if s !in seen0 {
        assert s in sr.group;
        var d :| d in ix.c[s] && d.physPort.port == p;
        assert Has(ix.c, s, d) && Has(ix.dstToSrc, d, s);
      }
    }
    forall s, t | s in sr.group && Shares(ix.c, s, t) ensures t in sr.group {
      var p :| Targets(ix.c, s, p) && Targets(ix.c, t, p);
      hide Targets;
    }
  }

  /** When the queue is empty, the group is a whole component. */
  lemma SearchEnds(ix: Index, p0: Port, seen0: set<PhysPortAndID>, ports0: set<Port>, sr: Search)
    requires ix.Consistent() && SearchOk(ix, p0, seen0, ports0, sr) && SeenClosed(ix, seen0, ports0)
    requires sr.q == [] && p0 !in ports0 && p0 in ix.byPort
    ensures p0 in sr.ports && SeenClosed(ix, sr.seen, sr.ports)
    ensures Closed(ix.c, sr.group) && AllLinked(ix.c, sr.group) && sr.group != []
  {
    hide ReachesFrom;
    EndIsClosed(ix, seen0, ports0, sr);
    hide Closed;
    forall s, t | s in sr.group && t in sr.group ensures Linked(ix.c, s, t) {
      ReachedAreLinked(ix.c, p0, s, t);
    }
    var d := ix.byPort[p0][0];
    assert Has(ix.byPort, p0, d) && ix.dstToSrc[d][0] in ix.dstToSrc[d];
    ListedTargets(ix, d, ix.dstToSrc[d][0]);
    hide Targets;
    hide Index.PortsListed;
    assert ix.dstToSrc[d][0] in sr.group;
  }

  lemma ReachedAreLinked(c: Conns, p0: Port, s: PhysPortAndID, t: PhysPortAndID)
    requires ReachesFrom(c, p0, s) && ReachesFrom(c, p0, t)
    ensures Linked(c, s, t)
  {
    var s0 :| Targets(c, s0, p0) && Linked(c, s0, s);
    var t0 :| Targets(c, t0, p0) && Linked(c, t0, t);
    assert Shares(c, s0, t0);
    LinkedSymmetric(c, s0, s);
    LinkedStep(c, s, s0, t0);
    LinkedTransitive(c, s, t0, t);
  }

  // ---------- The order of the groups ----------

  ghost predicate GroupTargets(c: Conns, group: seq<PhysPortAndID>, port: Port) {
    exists s :: s in group && Targets(c, s, port)
  }

  /** Some port of the list leads to group `a`, and neither it nor an earlier one leads to group `b`. */
  ghost predicate ComesFirst(c: Conns, ports: seq<Port>, n: nat, a: seq<PhysPortAndID>, b: seq<PhysPortAndID>) {
    exists k :: 0 <= k < n && k < |ports| && GroupTargets(c, a, ports[k]) && forall j :: 0 <= j <= k ==> !GroupTargets(c, b, ports[j])
  }

  /** The groups are in the order of the first ports of the list that lead to them. */
  ghost predicate InOrderOf(c: Conns, ports: seq<Port>, n: nat, groups: seq<seq<PhysPortAndID>>) {
    forall g, h :: 0 <= g < h < |groups| ==> ComesFirst(c, ports, n, groups[g], groups[h])
  }

  ghost predicate FoundBefore(c: Conns, ports: seq<Port>, n: nat, group: seq<PhysPortAndID>) {
    exists k :: 0 <= k < n && k < |ports| && GroupTargets(c, group, ports[k])
  }

  /** One of the first `n` ports leads to every group. */
  ghost predicate AllFound(c: Conns, ports: seq<Port>, n: nat, groups: seq<seq<PhysPortAndID>>) {
    forall g :: 0 <= g < |groups| ==> FoundBefore(c, ports, n, groups[g])
  }

  /** No port before `n` leads to the group that is found at `n`. */
  lemma FoundAtPort(ix: Index, seen0: set<PhysPortAndID>, ports0: set<Port>, sr: Search, n: nat)
    requires ix.Consistent() && SeenClosed(ix, seen0, ports0) && SeenClosed(ix, sr.seen, sr.ports) && GroupIsNew(ix, seen0, sr)
    requires n < |ix.dstPorts| && ix.dstPorts[n] !in ports0 && ix.dstPorts[n] in sr.ports
    requires forall j :: 0 <= j < n ==> ix.dstPorts[j] in ports0
    ensures GroupTargets(ix.c, sr.group, ix.dstPorts[n])
    ensures forall j :: 0 <= j < n ==> !GroupTargets(ix.c, sr.group, ix.dstPorts[j])
  {
    var p := ix.dstPorts[n];
    assert p in ix.byPort;
    var d := ix.byPort[p][0];
    assert Has(ix.byPort, p, d) && ix.dstToSrc[d][0] in ix.dstToSrc[d];
    ListedTargets(ix, d, ix.dstToSrc[d][0]);
    hide Targets;
    assert ix.dstToSrc[d][0] in sr.group;
  }

  lemma GroupComesNext(c: Conns, ports: seq<Port>, n: nat, groups: seq<seq<PhysPortAndID>>, group: seq<PhysPortAndID>)
    requires n < |ports| && InOrderOf(c, ports, n, groups) && AllFound(c, ports, n, groups)
    requires GroupTargets(c, group, ports[n]) && forall j :: 0 <= j < n ==> !GroupTargets(c, group, ports[j])
    ensures InOrderOf(c, ports, n + 1, groups + [group]) && AllFound(c, ports, n + 1, groups + [group])
  {
    hide GroupTargets;
    forall g, h | 0 <= g < h < |groups + [group]| ensures ComesFirst(c, ports, n + 1, (groups + [group])[g], (groups + [group])[h]) {
      if h < |groups| {
        assert ComesFirst(c, ports, n, groups[g], groups[h]);
      } else {
        assert FoundBefore(c, ports, n, groups[g]);
      }
    }
    forall g | 0 <= g < |groups| ensures FoundBefore(c, ports, n + 1, groups[g]) {
      assert FoundBefore(c, ports, n, groups[g]);
    }
    assert FoundBefore(c, ports, n + 1, group);
  }

  lemma StillInOrder(c: Conns, ports: seq<Port>, n: nat, groups: seq<seq<PhysPortAndID>>)
    requires InOrderOf(c, ports, n, groups) && AllFound(c, ports, n, groups)
    ensures InOrderOf(c, ports, n + 1, groups) && AllFound(c, ports, n + 1, groups)
  {
    hide GroupTargets;
    forall g, h | 0 <= g < h < |groups| ensures ComesFirst(c, ports, n + 1, groups[g], groups[h]) {
      assert ComesFirst(c, ports, n, groups[g], groups[h]);
    }
    forall g | 0 <= g < |groups| ensures FoundBefore(c, ports, n + 1, groups[g]) {
      assert FoundBefore(c, ports, n, groups[g]);
    }
  }
}
