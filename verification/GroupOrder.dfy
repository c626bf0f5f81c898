/** The order in which the groups of a slave port become rules: by size, then by content. */
module GroupOrder {
  import opened PacketIds

  /** `operator<` of `std::set`: lexicographic on the ascending elements. */
  predicate LexLess(a: Group, b: Group) {
    if b == [] then false
    else if a == [] then true
    else if a[0] != b[0] then a[0] < b[0]
    else LexLess(a[1..], b[1..])
  }

  predicate GroupLess(a: Group, b: Group) {
    if |a| != |b| then |a| < |b| else LexLess(a, b)
  }

  /** The groups agree up to place `k`, and there `a` ends or has the smaller id. */
  predicate SmallerAt(a: Group, b: Group, k: nat) {
    k <= |a| && k < |b| && a[..k] == b[..k] && (k == |a| || a[k] < b[k])
  }

  /** Fewer ids, or as many and the smaller id where they first differ. */
  ghost predicate ComesBefore(a: Group, b: Group) {
    |a| < |b| || (|a| == |b| && exists k: nat :: SmallerAt(a, b, k))
  }

  lemma {:induction false} LexLessIs(a: Group, b: Group)
    ensures LexLess(a, b) <==> exists k: nat :: SmallerAt(a, b, k)
  {
    if a != [] && b != [] && a[0] == b[0] {
      LexLessIs(a[1..], b[1..]);
      if k: nat :| SmallerAt(a[1..], b[1..], k) {
        assert a[..k + 1] == [a[0]] + a[1..][..k] && b[..k + 1] == [b[0]] + b[1..][..k];
        assert SmallerAt(a, b, k + 1);
      }
      if k: nat :| SmallerAt(a, b, k) {
        assert k > 0;
        assert a[1..][..k - 1] == a[..k][1..] && b[1..][..k - 1] == b[..k][1..];
        assert SmallerAt(a[1..], b[1..], k - 1);
      }
    } else if b != [] && (a == [] || a[0] < b[0]) {
      assert SmallerAt(a, b, 0);
    } else if k: nat :| SmallerAt(a, b, k) {
      FirstDiffers(a, b, k);
    }
  }

  lemma FirstDiffers(a: Group, b: Group, k: nat)
    requires SmallerAt(a, b, k)
    ensures b != [] && (a == [] || a[0] <= b[0])
  {
    if k > 0 { assert a[..k][0] == b[..k][0]; }
  }

  lemma GroupLessIs(a: Group, b: Group)
    ensures GroupLess(a, b) <==> ComesBefore(a, b)
  {
    LexLessIs(a, b);
  }

  lemma {:induction false} LexTotal(a: Group, b: Group)
    ensures a == b || LexLess(a, b) || LexLess(b, a)
    ensures !(LexLess(a, b) && LexLess(b, a))
    ensures !LexLess(a, a)
  {
    if a != [] && b != [] {
      LexTotal(a[1..], b[1..]);
      assert a == [a[0]] + a[1..] && b == [b[0]] + b[1..];
    }
    if a != [] { LexTotal(a[1..], a[1..]); }
  }

  lemma {:induction false} LexTransitive(a: Group, b: Group, c: Group)
    requires LexLess(a, b) && LexLess(b, c)
    ensures LexLess(a, c)
  {
    if a != [] && a[0] == b[0] == c[0] { LexTransitive(a[1..], b[1..], c[1..]); }
  }

  /** `a` may come before `b`. */
  predicate AtMost(a: Group, b: Group) {
    !GroupLess(b, a)
  }

  lemma AtMostTransitive(a: Group, b: Group, c: Group)
    requires AtMost(a, b) && AtMost(b, c)
    ensures AtMost(a, c)
  {
    if |a| == |b| == |c| {
      LexTotal(a, b);
      LexTotal(b, c);
      LexTotal(a, c);
      if a != b && b != c { LexTransitive(a, b, c); }
    }
  }

  lemma AtMostTotal(a: Group, b: Group)
    ensures AtMost(a, b) || AtMost(b, a)
    ensures AtMost(a, b) && AtMost(b, a) ==> a == b
    ensures AtMost(a, a)
  {
    LexTotal(a, b);
  }

  predicate Sorted(s: seq<Group>) {
    forall i, j :: 0 <= i < j < |s| ==> AtMost(s[i], s[j])
  }

  /** `s` with `g` put in front of the first group that may follow it. */
  function InsertGroup(s: seq<Group>, g: Group): seq<Group> {
    if s == [] || AtMost(g, s[0]) then [g] + s else [s[0]] + InsertGroup(s[1..], g)
  }

  /** The sorted list of the groups. */
  function SortBySize(groups: seq<Group>): seq<Group> {
    if groups == [] then []
    else InsertGroup(SortBySize(groups[..|groups| - 1]), groups[|groups| - 1])
  }

  lemma {:induction false} InsertGroupAt(s: seq<Group>, g: Group) returns (k: nat)
    ensures k <= |s| && InsertGroup(s, g) == s[..k] + [g] + s[k..]
    ensures forall i :: 0 <= i < k ==> !AtMost(g, s[i])
    ensures k < |s| ==> AtMost(g, s[k])
  {
    if s == [] || AtMost(g, s[0]) {
      k := 0;
    } else {
      k := InsertGroupAt(s[1..], g);
      k := k + 1;
    }
  }

  lemma {:induction false} InsertGroupAdds(s: seq<Group>, g: Group)
    ensures multiset(InsertGroup(s, g)) == multiset(s) + multiset{g}
  {
    if s != [] && !AtMost(g, s[0]) {
      InsertGroupAdds(s[1..], g);
      assert s == [s[0]] + s[1..];
    }
  }

  lemma {:induction false} SortBySizeAdds(groups: seq<Group>)
    ensures multiset(SortBySize(groups)) == multiset(groups)
  {
    if groups != [] {
      var init, g := groups[..|groups| - 1], groups[|groups| - 1];
      SortBySizeAdds(init);
      InsertGroupAdds(SortBySize(init), g);
      assert groups == init + [g];
    }
  }

  lemma {:induction false} SortBySizeSorts(groups: seq<Group>)
    ensures Sorted(SortBySize(groups))
  {
    if groups != [] {
      var init, g := groups[..|groups| - 1], groups[|groups| - 1];
      SortBySizeSorts(init);
      var k := InsertGroupAt(SortBySize(init), g);
      InsertionSorted(SortBySize(init), k, g);
    }
  }

  lemma SortedIsFixed(groups: seq<Group>)
    requires Sorted(groups)
    ensures SortBySize(groups) == groups
  {
    SortBySizeSorts(groups);
    SortBySizeAdds(groups);
    SortedUnique(SortBySize(groups), groups);
  }

  lemma HeadAtMost(s: seq<Group>, g: Group)
    requires s != [] && Sorted(s) && g in s
    ensures AtMost(s[0], g)
  {
    AtMostTotal(g, g);
  }

  lemma TailMultiset(s: seq<Group>, t: seq<Group>)
    requires s != [] && t != [] && s[0] == t[0] && multiset(s) == multiset(t)
    ensures multiset(s[1..]) == multiset(t[1..])
  {
    assert s == [s[0]] + s[1..] && t == [t[0]] + t[1..];
    assert multiset(s[1..]) == multiset(s) - multiset{s[0]};
    assert multiset(t[1..]) == multiset(t) - multiset{t[0]};
  }

  /** There is only one way to sort a list of groups. */
  lemma {:induction false} SortedUnique(s: seq<Group>, t: seq<Group>)
    requires Sorted(s) && Sorted(t) && multiset(s) == multiset(t)
    ensures s == t
  {
    assert |multiset(s)| == |s| && |multiset(t)| == |t|;
    if s != [] {
      assert s[0] in multiset(s) && t[0] in multiset(t);
      HeadAtMost(s, t[0]);
      HeadAtMost(t, s[0]);
      AtMostTotal(s[0], t[0]);
      TailMultiset(s, t);
      SortedUnique(s[1..], t[1..]);
      assert s == [s[0]] + s[1..] && t == [t[0]] + t[1..];
    }
  }

  method PutInOrder(s: seq<Group>, g: Group) returns (r: seq<Group>)
    ensures r == InsertGroup(s, g)
  {
    var k := 0;
    while k < |s| && !AtMost(g, s[k])
      invariant 0 <= k <= |s|
      invariant InsertGroup(s, g) == s[..k] + InsertGroup(s[k..], g)
    {
      k := k + 1;
    }
    r := s[..k] + [g] + s[k..];
  }

  /** `sortGroupsBySize`; `std::sort` is modelled by an insertion sort. */
  method SortGroupsBySize(groups: seq<Group>) returns (sorted: seq<Group>)
    ensures sorted == SortBySize(groups)
    ensures multiset(sorted) == multiset(groups)
    ensures forall i, j :: 0 <= i < j < |sorted| ==> sorted[i] == sorted[j] || ComesBefore(sorted[i], sorted[j])
  {
    sorted := [];
    for n := 0 to |groups|
      invariant sorted == SortBySize(groups[..n])
    {
      assert groups[..n + 1][..n] == groups[..n];
      sorted := PutInOrder(sorted, groups[n]);
    }
    assert groups[..|groups|] == groups;
    SortBySizeSorts(groups);
    SortBySizeAdds(groups);
    SortedComesBefore(sorted);
  }

  lemma SortedComesBefore(s: seq<Group>)
    requires Sorted(s)
    ensures forall i, j :: 0 <= i < j < |s| ==> s[i] == s[j] || ComesBefore(s[i], s[j])
  {
    hide ComesBefore, LexLess;
    forall i, j | 0 <= i < j < |s| ensures s[i] == s[j] || ComesBefore(s[i], s[j]) {
      GroupLessIs(s[i], s[j]);
      LexTotal(s[i], s[j]);
    }
  }

  lemma InsertionSorted(s: seq<Group>, k: nat, g: Group)
    requires Sorted(s) && k <= |s|
    requires forall i :: 0 <= i < k ==> !AtMost(g, s[i])
    requires k < |s| ==> AtMost(g, s[k])
    ensures Sorted(s[..k] + [g] + s[k..])
  {
    var r := s[..k] + [g] + s[k..];
    forall i, j | 0 <= i < j < |r| ensures AtMost(r[i], r[j]) {
      if j == k {
        AtMostTotal(s[i], g);
      } else if i == k && j > k + 1 {
        AtMostTransitive(g, s[k], s[j - 1]);
      }
    }
  }
}
