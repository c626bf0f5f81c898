/** How the groups of a tile are spread over its arbiters: first-fit once all arbiters are in use. */
module Placement {
  import opened StreamSwitch
  import opened MSel
  import opened Connections

  /** The connections that each arbiter in use has been given. */
  type Loads = seq<set<PortList>>

  function DstsOf(c: Conns, group: seq<PhysPortAndID>): (r: seq<seq<PhysPortAndID>>)
    ensures |r| == |group|
  {
    seq(|group|, i requires 0 <= i < |group| => if group[i] in c then c[group[i]] else [])
  }

  /** The capacity test of a merge; the number of needed msels is an unsigned byte. */
  ghost predicate HasRoom(known: set<PortList>, dsts: seq<seq<PhysPortAndID>>, numMSels: nat) {
    |known| + CountNew(known, dsts, |dsts|) % 256 < numMSels
  }

  /** The first arbiter, from `from` on, that passes the capacity test. */
  ghost function FirstFit(loads: Loads, dsts: seq<seq<PhysPortAndID>>, numMSels: nat, from: nat): (r: Option<nat>)
    requires from <= |loads|
    ensures r.Some? ==> from <= r.value < |loads| && HasRoom(loads[r.value], dsts, numMSels)
    ensures r.Some? ==> forall a :: from <= a < r.value ==> !HasRoom(loads[a], dsts, numMSels)
    ensures r.None? ==> forall a :: from <= a < |loads| ==> !HasRoom(loads[a], dsts, numMSels)
    decreases |loads| - from
  {
    if from == |loads| then None
    else if HasRoom(loads[from], dsts, numMSels) then Some(from)
    else FirstFit(loads, dsts, numMSels, from + 1)
  }

  /** The arbiter for a group, and the loads after it has been added there. */
  ghost function Place(loads: Loads, dsts: seq<seq<PhysPortAndID>>, numArbiters: nat, numMSels: nat): (r: Option<(nat, Loads)>)
    ensures r.Some? ==> r.value.0 < |r.value.1| && |loads| <= |r.value.1| <= |loads| + 1
  {
    if |loads| < numArbiters then
      if |LoadAfter({}, dsts)| <= numMSels then Some((|loads|, loads + [LoadAfter({}, dsts)])) else None
    else
      match FirstFit(loads, dsts, numMSels, 0)
      case None => None
      case Some(a) =>
        if |LoadAfter(loads[a], dsts)| <= numMSels then Some((a, loads[a := LoadAfter(loads[a], dsts)])) else None
  }

  datatype Placed = Placed(arbiters: seq<nat>, loads: Loads)

  /** The arbiters of the first `n` groups, unless one of them finds no place. */
  ghost function PlaceAll(c: Conns, groups: seq<seq<PhysPortAndID>>, n: nat, numArbiters: nat, numMSels: nat): (r: Option<Placed>)
    requires n <= |groups|
    ensures r.Some? ==> |r.value.arbiters| == n && forall i :: 0 <= i < n ==> r.value.arbiters[i] < |r.value.loads|
  {
    if n == 0 then Some(Placed([], []))
    else
      match PlaceAll(c, groups, n - 1, numArbiters, numMSels)
      case None => None
      case Some(p) =>
        match Place(p.loads, DstsOf(c, groups[n - 1]), numArbiters, numMSels)
        case None => None
        case Some(r) => Some(Placed(p.arbiters + [r.0], r.1))
  }

  /** A merge that passes the capacity test never runs out of msels, if the byte does not wrap. */
  lemma RoomIsEnough(known: set<PortList>, dsts: seq<seq<PhysPortAndID>>, numMSels: nat)
    requires HasRoom(known, dsts, numMSels) && CountNew(known, dsts, |dsts|) < 256
    ensures |LoadAfter(known, dsts)| < numMSels
  {
    CountNewBounds(known, dsts, |dsts|);
  }

  /** A merge that would use up the msels of an arbiter exactly is refused: one msel stays unused. */
  lemma ExactFitIsRefused(known: set<PortList>, dsts: seq<seq<PhysPortAndID>>, numMSels: nat)
    requires CountNew(known, dsts, |dsts|) < 256 && numMSels <= |LoadAfter(known, dsts)|
    ensures !HasRoom(known, dsts, numMSels)
  {
    CountNewBounds(known, dsts, |dsts|);
  }

  /** The port lists are all different, and not known. */
  ghost predicate AllNew(known: set<PortList>, dsts: seq<seq<PhysPortAndID>>) {
    && (forall i :: 0 <= i < |dsts| ==> PortsOf(dsts[i]) !in known)
    && (forall i, j :: 0 <= i < j < |dsts| ==> PortsOf(dsts[i]) != PortsOf(dsts[j]))
  }

  lemma {:induction false} AllNewCounts(known: set<PortList>, dsts: seq<seq<PhysPortAndID>>, n: nat)
    requires AllNew(known, dsts) && n <= |dsts|
    ensures CountNew(known, dsts, n) == n && |KnownAfter(known, dsts, n)| == |known| + n
    ensures forall p :: p in KnownAfter(known, dsts, n) <==> p in known || exists i :: 0 <= i < n && PortsOf(dsts[i]) == p
  {
    hide PortsOf;
    if n > 0 {
      AllNewCounts(known, dsts, n - 1);
      assert PortsOf(dsts[n - 1]) !in KnownAfter(known, dsts, n - 1);
    }
  }

  /**
   * A group of different new lists passes the test without having room exactly when the byte wraps
   * around to a small count, which the assertion in the counting loop does not allow.
   */
  lemma WrappedTest(known: set<PortList>, dsts: seq<seq<PhysPortAndID>>, numMSels: nat)
    requires AllNew(known, dsts) && numMSels < 256
    ensures HasRoom(known, dsts, numMSels) && |LoadAfter(known, dsts)| > numMSels <==>
            |dsts| >= 256 && |known| + |dsts| % 256 < numMSels
    ensures CountAsserted(known, dsts) <==> |dsts| < 256
  {
    AllNewCounts(known, dsts, |dsts|);
    if dsts != [] { AllNewCounts(known, dsts, |dsts| - 1); }
    AssertionStopsWrap(known, dsts);
  }

  lemma {:induction false} PrefixPlaced(c: Conns, groups: seq<seq<PhysPortAndID>>, m: nat, n: nat, numArbiters: nat, numMSels: nat)
    requires m <= n <= |groups| && PlaceAll(c, groups, n, numArbiters, numMSels).Some?
    ensures PlaceAll(c, groups, m, numArbiters, numMSels).Some?
  {
    if m < n { PrefixPlaced(c, groups, m, n - 1, numArbiters, numMSels); }
  }

  /** No arbiter is loaded beyond its msels, and no more arbiters are used than there are. */
  lemma {:induction false} PlacedWithinLimits(c: Conns, groups: seq<seq<PhysPortAndID>>, n: nat, numArbiters: nat, numMSels: nat)
    requires n <= |groups| && PlaceAll(c, groups, n, numArbiters, numMSels).Some?
    ensures var p := PlaceAll(c, groups, n, numArbiters, numMSels).value;
            |p.loads| <= numArbiters && |p.loads| <= n && (n <= numArbiters ==> |p.loads| == n) &&
            forall a :: 0 <= a < |p.loads| ==> |p.loads[a]| <= numMSels
  {
    hide LoadAfter;
    hide DstsOf;
    hide HasRoom;
    if n > 0 { PlacedWithinLimits(c, groups, n - 1, numArbiters, numMSels); }
  }

  /**
   * With an arbiter for every group, all groups are placed exactly when each of them has at most
   * `numMSels` different destination port lists.
   */
  lemma {:induction false} EnoughArbiters(c: Conns, groups: seq<seq<PhysPortAndID>>, n: nat, numArbiters: nat, numMSels: nat)
    requires n <= |groups| && n <= numArbiters
    ensures PlaceAll(c, groups, n, numArbiters, numMSels).Some? <==>
            forall i :: 0 <= i < n ==> |LoadAfter({}, DstsOf(c, groups[i]))| <= numMSels
  {
    hide LoadAfter;
    hide DstsOf;
    hide FirstFit;
    if n > 0 {
      EnoughArbiters(c, groups, n - 1, numArbiters, numMSels);
      if PlaceAll(c, groups, n - 1, numArbiters, numMSels).Some? {
        PlacedWithinLimits(c, groups, n - 1, numArbiters, numMSels);
      }
    }
  }
}
