/** The connections requested on one tile, and when two sources are tied together by shared ports. */
module Connections {
  import opened StreamSwitch

  /** From each source to the list of its destinations. */
  type Conns = map<PhysPortAndID, seq<PhysPortAndID>>

  ghost predicate HasDest(c: Conns, s: PhysPortAndID) {
    s in c && c[s] != []
  }

  ghost predicate Targets(c: Conns, s: PhysPortAndID, port: Port) {
    s in c && exists d :: d in c[s] && d.physPort.port == port
  }

  ghost predicate Shares(c: Conns, s: PhysPortAndID, t: PhysPortAndID) {
    exists p :: Targets(c, s, p) && Targets(c, t, p)
  }

  ghost predicate Chain(c: Conns, path: seq<PhysPortAndID>) {
    path != [] && forall i :: 0 <= i < |path| - 1 ==> Shares(c, path[i], path[i + 1])
  }

  ghost predicate ChainBetween(c: Conns, s: PhysPortAndID, t: PhysPortAndID, path: seq<PhysPortAndID>) {
    Chain(c, path) && path[0] == s && path[|path| - 1] == t
  }

  /** A chain of shared destination ports leads from `s` to `t`. */
  ghost predicate Linked(c: Conns, s: PhysPortAndID, t: PhysPortAndID) {
    exists path :: ChainBetween(c, s, t, path)
  }

  lemma LinkedToSelf(c: Conns, s: PhysPortAndID)
    ensures Linked(c, s, s)
  {
    assert ChainBetween(c, s, s, [s]);
  }

  lemma LinkedStep(c: Conns, s: PhysPortAndID, t: PhysPortAndID, u: PhysPortAndID)
    requires Linked(c, s, t) && Shares(c, t, u)
    ensures Linked(c, s, u)
  {
    var path :| ChainBetween(c, s, t, path);
    assert ChainBetween(c, s, u, path + [u]);
  }

  lemma LinkedTransitive(c: Conns, s: PhysPortAndID, t: PhysPortAndID, u: PhysPortAndID)
    requires Linked(c, s, t) && Linked(c, t, u)
    ensures Linked(c, s, u)
  {
    var p :| ChainBetween(c, s, t, p);
    var q :| ChainBetween(c, t, u, q);
    var r := p + q[1..];
    forall i | 0 <= i < |r| - 1 ensures Shares(c, r[i], r[i + 1]) {
      if i >= |p| - 1 { assert Shares(c, q[i + 1 - |p|], q[i + 2 - |p|]); }
    }
    assert ChainBetween(c, s, u, r);
  }

  lemma {:induction false} ChainBackwards(c: Conns, s: PhysPortAndID, t: PhysPortAndID, path: seq<PhysPortAndID>)
    requires ChainBetween(c, s, t, path)
    ensures Linked(c, t, s)
    decreases |path|
  {
    if |path| == 1 {
      LinkedToSelf(c, s);
    } else {
      ChainBackwards(c, path[1], t, path[1..]);
      assert Shares(c, path[1], s);
      LinkedStep(c, t, path[1], s);
    }
  }

  lemma LinkedSymmetric(c: Conns, s: PhysPortAndID, t: PhysPortAndID)
    requires Linked(c, s, t)
    ensures Linked(c, t, s)
  {
    var path :| ChainBetween(c, s, t, path);
    ChainBackwards(c, s, t, path);
  }

  /** No source outside of `group` shares a port with one inside. */
  ghost predicate Closed(c: Conns, group: seq<PhysPortAndID>) {
    forall s, t :: s in group && Shares(c, s, t) ==> t in group
  }

  lemma {:induction false} ChainStaysInside(c: Conns, group: seq<PhysPortAndID>, path: seq<PhysPortAndID>)
    requires Closed(c, group) && Chain(c, path) && path[0] in group
    ensures path[|path| - 1] in group
    decreases |path|
  {
    if |path| > 1 {
      assert Shares(c, path[0], path[1]);
      ChainStaysInside(c, group, path[1..]);
    }
  }

  lemma LinkedStaysInside(c: Conns, group: seq<PhysPortAndID>, s: PhysPortAndID, t: PhysPortAndID)
    requires Closed(c, group) && s in group && Linked(c, s, t)
    ensures t in group
  {
    var path :| ChainBetween(c, s, t, path);
    ChainStaysInside(c, group, path);
  }

  // ---------- Connected components ----------

  ghost predicate AllLinked(c: Conns, group: seq<PhysPortAndID>) {
    forall s, t :: s in group && t in group ==> Linked(c, s, t)
  }

  ghost predicate InGroup(groups: seq<seq<PhysPortAndID>>, s: PhysPortAndID) {
    exists i :: 0 <= i < |groups| && s in groups[i]
  }

  /** No source is listed twice, neither in one group nor in two. */
  ghost predicate ListedOnce(groups: seq<seq<PhysPortAndID>>) {
    forall i, j, k, l :: 0 <= i < |groups| && 0 <= j < |groups| && 0 <= k < |groups[i]| && 0 <= l < |groups[j]|
                         && groups[i][k] == groups[j][l] ==>
      i == j && k == l
  }

  /** The groups are the connected components of the sources that have a destination. */
  ghost predicate AreComponents(c: Conns, groups: seq<seq<PhysPortAndID>>) {
    && ListedOnce(groups)
    && (forall s :: InGroup(groups, s) <==> HasDest(c, s))
    && (forall i :: 0 <= i < |groups| ==> groups[i] != [])
    && (forall i, j, s, t :: 0 <= i < |groups| && 0 <= j < |groups| && s in groups[i] && t in groups[j] ==>
          (i == j <==> Linked(c, s, t)))
  }

  lemma ClosedGroupsAreComponents(c: Conns, groups: seq<seq<PhysPortAndID>>)
    requires ListedOnce(groups)
    requires forall s :: InGroup(groups, s) <==> HasDest(c, s)
    requires forall i :: 0 <= i < |groups| ==> groups[i] != [] && AllLinked(c, groups[i]) && Closed(c, groups[i])
    ensures AreComponents(c, groups)
  {
    forall i, j, s, t | 0 <= i < |groups| && 0 <= j < |groups| && s in groups[i] && t in groups[j]
      ensures i == j <==> Linked(c, s, t)
    {
      if Linked(c, s, t) {
        LinkedStaysInside(c, groups[i], s, t);
        var k :| 0 <= k < |groups[i]| && groups[i][k] == t;
        var l :| 0 <= l < |groups[j]| && groups[j][l] == t;
      } else {
        assert AllLinked(c, groups[i]);
      }
    }
  }
}
