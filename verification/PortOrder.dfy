/** The order of physical ports by which the neighbours of a port are listed. */
module PortOrder {
  import opened StreamSwitch

  function BundleRank(b: Bundle): nat {
    match b
    case Core => 0
    case Dma => 1
    case Ctrl => 2
    case Fifo => 3
    case South => 4
    case West => 5
    case North => 6
    case East => 7
    case Trace => 8
    case Uctrlr => 9
  }

  /** `operator<`: tile, then bundle, then channel, then direction. */
  predicate PortLess(a: PhysPort, b: PhysPort) {
    if a.tileLoc.col != b.tileLoc.col then a.tileLoc.col < b.tileLoc.col
    else if a.tileLoc.row != b.tileLoc.row then a.tileLoc.row < b.tileLoc.row
    else if a.port.bundle != b.port.bundle then BundleRank(a.port.bundle) < BundleRank(b.port.bundle)
    else if a.port.channel != b.port.channel then a.port.channel < b.port.channel
    else a.direction == Src && b.direction == Dst
  }

  lemma PortLessTotal(a: PhysPort, b: PhysPort)
    ensures a == b || PortLess(a, b) || PortLess(b, a)
    ensures !(PortLess(a, b) && PortLess(b, a))
  {
    assert BundleRank(a.port.bundle) == BundleRank(b.port.bundle) ==> a.port.bundle == b.port.bundle;
  }

  const BUNDLES := [Core, Dma, Ctrl, Fifo, South, West, North, East, Trace, Uctrlr]

  /** Columns first, then rows, then bundles in the order of their numbers, then channels, and incoming before outgoing. */
  lemma PortsInOrder(a: PhysPort, b: PhysPort)
    ensures a.tileLoc.col < b.tileLoc.col ==> PortLess(a, b)
    ensures a.tileLoc.col == b.tileLoc.col && a.tileLoc.row < b.tileLoc.row ==> PortLess(a, b)
    ensures forall i, j :: 0 <= i < j < |BUNDLES| && a.tileLoc == b.tileLoc && a.port.bundle == BUNDLES[i] && b.port.bundle == BUNDLES[j] ==>
              PortLess(a, b)
    ensures a.tileLoc == b.tileLoc && a.port.bundle == b.port.bundle && a.port.channel < b.port.channel ==> PortLess(a, b)
    ensures a.tileLoc == b.tileLoc && a.port == b.port && a.direction == Src && b.direction == Dst ==> PortLess(a, b)
  {
    forall i | 0 <= i < |BUNDLES| ensures BundleRank(BUNDLES[i]) == i {}
  }

  lemma PortLessTransitive(a: PhysPort, b: PhysPort, c: PhysPort)
    requires PortLess(a, b) && PortLess(b, c)
    ensures PortLess(a, c)
  {
  }

  /** Strictly ascending; so there are no repetitions. */
  predicate Ascending(s: seq<PhysPort>) {
    forall i, j :: 0 <= i < j < |s| ==> PortLess(s[i], s[j])
  }

  ghost function PortSet(s: seq<PhysPort>): set<PhysPort> {
    set p | p in s
  }

  predicate NoRepeats(s: seq<PhysPort>) {
    forall i, j :: 0 <= i < j < |s| ==> s[i] != s[j]
  }

  lemma Appended(s: seq<PhysPort>, p: PhysPort)
    requires NoRepeats(s) && p !in PortSet(s)
    ensures NoRepeats(s + [p]) && PortSet(s + [p]) == PortSet(s) + {p}
  {
    assert forall i :: 0 <= i < |s| ==> s[i] in PortSet(s);
  }

  /** A set has at most one ascending listing. */
  lemma {:induction false} AscendingIsUnique(s: seq<PhysPort>, t: seq<PhysPort>)
    requires Ascending(s) && Ascending(t) && PortSet(s) == PortSet(t)
    ensures s == t
  {
    hide PortLess;
    SameEmptiness(s, t);
    if s != [] {
      assert s[0] in PortSet(s) && t[0] in PortSet(t);
      PortLessTotal(s[0], t[0]);
      TailSet(s);
      TailSet(t);
      AscendingIsUnique(s[1..], t[1..]);
      assert s == [s[0]] + s[1..] && t == [t[0]] + t[1..];
    }
  }

  lemma SameEmptiness(s: seq<PhysPort>, t: seq<PhysPort>)
    requires PortSet(s) == PortSet(t)
    ensures s == [] <==> t == []
  {
    assert s != [] ==> s[0] in PortSet(s);
    assert t != [] ==> t[0] in PortSet(t);
  }

  lemma TailSet(s: seq<PhysPort>)
    requires s != [] && Ascending(s)
    ensures PortSet(s[1..]) == PortSet(s) - {s[0]}
  {
    hide PortLess;
    forall p | p in s[1..] ensures p != s[0] {
      var i :| 0 <= i < |s| - 1 && s[1..][i] == p;
      assert PortLess(s[0], s[i + 1]);
      PortLessTotal(s[0], p);
    }
    assert s == [s[0]] + s[1..];
  }

  /** Where `p` belongs in an ascending list without it. */
  method InsertPort(s: seq<PhysPort>, p: PhysPort) returns (r: seq<PhysPort>)
    requires Ascending(s) && p !in s
    ensures Ascending(r) && PortSet(r) == PortSet(s) + {p}
  {
    hide PortLess;
    var k := 0;
    while k < |s| && PortLess(s[k], p)
      invariant 0 <= k <= |s|
      invariant forall i :: 0 <= i < k ==> PortLess(s[i], p)
    {
      k := k + 1;
    }
    r := s[..k] + [p] + s[k..];
    InsertedAscending(s, k, p);
  }

  lemma InsertedAscending(s: seq<PhysPort>, k: nat, p: PhysPort)
    requires Ascending(s) && k <= |s| && p !in s
    requires forall i :: 0 <= i < k ==> PortLess(s[i], p)
    requires k < |s| ==> !PortLess(s[k], p)
    ensures Ascending(s[..k] + [p] + s[k..])
    ensures PortSet(s[..k] + [p] + s[k..]) == PortSet(s) + {p}
  {
    hide PortLess;
    var r := s[..k] + [p] + s[k..];
    forall i, j | 0 <= i < j < |r| ensures PortLess(r[i], r[j]) {
      if i == k {
        PortLessTotal(s[k], p);
        if j > k + 1 { PortLessTransitive(p, s[k], s[j - 1]); }
      }
    }
    assert s == s[..k] + s[k..];
  }

  /** `std::sort` on a list without repetitions, modelled by an insertion sort. */
  method SortPorts(s: seq<PhysPort>) returns (r: seq<PhysPort>)
    requires NoRepeats(s)
    ensures Ascending(r) && PortSet(r) == PortSet(s)
  {
    r := [];
    for n := 0 to |s|
      invariant Ascending(r) && PortSet(r) == PortSet(s[..n])
    {
      assert s[..n + 1] == s[..n] + [s[n]];
      assert s[n] !in PortSet(s[..n]);
      r := InsertPort(r, s[n]);
    }
    assert s[..|s|] == s;
  }

  lemma {:induction false} LeastExists(s: set<PhysPort>) returns (m: PhysPort)
    requires s != {}
    ensures m in s && forall p :: p in s && p != m ==> PortLess(m, p)
  {
    hide PortLess;
    var first :| first in s;
    m := first;
    if s != {first} {
      var k := LeastExists(s - {first});
      PortLessTotal(first, k);
      m := if PortLess(k, first) then k else first;
      forall p | p in s && p != m ensures PortLess(m, p) {
        if p != first && p != k {
          assert PortLess(k, p);
          if m == first { PortLessTransitive(first, k, p); }
        }
      }
    }
  }

  lemma {:induction false} ListingExists(s: set<PhysPort>) returns (l: seq<PhysPort>)
    ensures Ascending(l) && PortSet(l) == s
  {
    hide PortLess;
    if s == {} {
      l := [];
    } else {
      var m := LeastExists(s);
      var rest := ListingExists(s - {m});
      l := [m] + rest;
      assert forall i :: 0 <= i < |rest| ==> rest[i] in PortSet(rest);
      assert forall p :: p in s <==> p == m || p in PortSet(rest);
    }
  }

  /** The ascending listing of a set of ports. */
  ghost function Listing(s: set<PhysPort>): (l: seq<PhysPort>)
    ensures Ascending(l) && PortSet(l) == s
  {
    assert exists l :: Ascending(l) && PortSet(l) == s by {
      var l := ListingExists(s);
    }
    var l :| Ascending(l) && PortSet(l) == s;
    l
  }

  lemma ListingIs(l: seq<PhysPort>)
    requires Ascending(l)
    ensures Listing(PortSet(l)) == l
  {
    AscendingIsUnique(Listing(PortSet(l)), l);
  }
}
