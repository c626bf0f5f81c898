/** Distances, and the order of an array heap of any arity over an external distance map. */
module HeapOrder {
  import opened Division

  datatype Distance = Finite(value: real) | Infinite

  predicate Less(a: Distance, b: Distance) {
    a.Finite? && (b.Infinite? || a.value < b.value)
  }

  lemma LessTransitive(a: Distance, b: Distance, c: Distance)
    ensures !Less(b, a) && !Less(c, b) ==> !Less(c, a)
    ensures Less(a, b) ==> !Less(b, a)
    ensures Less(a, b) && !Less(c, b) ==> Less(a, c)
  {
  }

  function Key<V>(keys: map<V, Distance>, v: V): Distance {
    if v in keys then keys[v] else Infinite
  }

  // ---------- Parents and children ----------

  function Parent(index: nat, arity: nat): nat
    requires index > 0 && arity > 0
  {
    (index - 1) / arity
  }

  function Child(index: nat, childIdx: nat, arity: nat): nat {
    index * arity + childIdx + 1
  }

  lemma ParentIsSmaller(index: nat, arity: nat)
    requires index > 0 && arity > 0
    ensures Parent(index, arity) < index
  {
    DivBounds(index - 1, arity);
  }

  /** The children of `index` are the `arity` positions from its first child on. */
  lemma ChildOf(index: nat, arity: nat, j: nat)
    requires arity > 0
    ensures j > 0 && Parent(j, arity) == index <==> Child(index, 0, arity) <= j < Child(index, 0, arity) + arity
    ensures index < Child(index, 0, arity)
  {
    if index > 0 {
      MulAtLeast(arity, index);
    }
    if j > 0 {
      DivBounds(j - 1, arity);
      if Child(index, 0, arity) <= j < Child(index, 0, arity) + arity {
        QuotientIsUnique(Parent(j, arity), index, arity, j - 1);
      }
    }
  }

  // ---------- Heap order ----------

  /** The element at `i` is not less than its parent. */
  predicate OrderedAt<V>(s: seq<V>, keys: map<V, Distance>, arity: nat, i: nat)
    requires arity > 0 && i < |s|
  {
    i > 0 ==> (ParentIsSmaller(i, arity); !Less(Key(keys, s[i]), Key(keys, s[Parent(i, arity)])))
  }

  predicate HeapOrdered<V>(s: seq<V>, keys: map<V, Distance>, arity: nat)
    requires arity > 0
  {
    forall i :: 0 <= i < |s| ==> OrderedAt(s, keys, arity, i)
  }

  /** The elements whose parent is `k` are not less than the parent of `k`. */
  predicate GrandchildrenOrdered<V>(s: seq<V>, keys: map<V, Distance>, arity: nat, k: nat)
    requires arity > 0
  {
    0 < k < |s| ==>
      (ParentIsSmaller(k, arity);
       forall i :: 0 < i < |s| && Parent(i, arity) == k ==> !Less(Key(keys, s[i]), Key(keys, s[Parent(k, arity)])))
  }

  /** Only the element at `k` may be less than its parent. */
  predicate OrderedButAt<V>(s: seq<V>, keys: map<V, Distance>, arity: nat, k: nat)
    requires arity > 0
  {
    && (forall i :: 0 <= i < |s| && i != k ==> OrderedAt(s, keys, arity, i))
    && GrandchildrenOrdered(s, keys, arity, k)
  }

  /** Only the children of `k` may be less than their parent. */
  predicate OrderedButBelow<V>(s: seq<V>, keys: map<V, Distance>, arity: nat, k: nat)
    requires arity > 0
  {
    && (forall i :: 0 <= i < |s| && (i > 0 ==> Parent(i, arity) != k) ==> OrderedAt(s, keys, arity, i))
    && GrandchildrenOrdered(s, keys, arity, k)
  }

  /** The first element of an ordered heap is a least one. */
  lemma {:induction false} TopIsLeast<V>(s: seq<V>, keys: map<V, Distance>, arity: nat, i: nat)
    requires arity > 0 && HeapOrdered(s, keys, arity) && i < |s|
    ensures !Less(Key(keys, s[i]), Key(keys, s[0]))
  {
    if i > 0 {
      var p := Parent(i, arity);
      ParentIsSmaller(i, arity);
      TopIsLeast(s, keys, arity, p);
      assert OrderedAt(s, keys, arity, i);
      LessTransitive(Key(keys, s[0]), Key(keys, s[p]), Key(keys, s[i]));
    }
  }

  /** Lowering one key of an ordered heap leaves it ordered but at that element. */
  lemma LoweredKey<V>(s: seq<V>, keys: map<V, Distance>, arity: nat, k: nat, d: Distance)
    requires arity > 0 && HeapOrdered(s, keys, arity) && k < |s|
    requires forall i :: 0 <= i < |s| && i != k ==> s[i] != s[k]
    requires !Less(Key(keys, s[k]), d)
    ensures OrderedButAt(s, keys[s[k] := d], arity, k)
  {
    var keys' := keys[s[k] := d];
    forall i | 0 <= i < |s| && i != k ensures OrderedAt(s, keys', arity, i) {
      assert OrderedAt(s, keys, arity, i);
      if i > 0 { ParentIsSmaller(i, arity); LessTransitive(d, Key(keys, s[k]), Key(keys, s[i])); }
    }
    if k > 0 {
      ParentIsSmaller(k, arity);
      forall i | 0 < i < |s| && Parent(i, arity) == k ensures !Less(Key(keys', s[i]), Key(keys', s[Parent(k, arity)])) {
        assert OrderedAt(s, keys, arity, i) && OrderedAt(s, keys, arity, k);
        ParentIsSmaller(i, arity);
        LessTransitive(Key(keys, s[Parent(k, arity)]), Key(keys, s[k]), Key(keys, s[i]));
      }
    }
  }

  /**
   * A key that is lowered without an update leaves the heap ordered exactly when the element stays
   * at least as large as its parent.
   */
  lemma LoweredWithoutUpdate<V>(s: seq<V>, keys: map<V, Distance>, arity: nat, k: nat, d: Distance)
    requires arity > 0 && HeapOrdered(s, keys, arity) && k < |s|
    requires forall i :: 0 <= i < |s| && i != k ==> s[i] != s[k]
    requires !Less(Key(keys, s[k]), d)
    ensures HeapOrdered(s, keys[s[k] := d], arity) <==>
            k == 0 || (ParentIsSmaller(k, arity); !Less(d, Key(keys, s[Parent(k, arity)])))
  {
    LoweredKey(s, keys, arity, k, d);
    if k > 0 {
      ParentIsSmaller(k, arity);
      assert OrderedAt(s, keys[s[k] := d], arity, k) <==> !Less(d, Key(keys, s[Parent(k, arity)]));
    } else {
      assert OrderedAt(s, keys[s[k] := d], arity, 0);
    }
  }

  // ---------- Moving one element ----------

  function Swap<V>(s: seq<V>, i: nat, j: nat): seq<V>
    requires i < |s| && j < |s|
  {
    s[i := s[j]][j := s[i]]
  }

  lemma SwapKeeps<V>(s: seq<V>, i: nat, j: nat)
    requires i < |s| && j < |s|
    ensures multiset(Swap(s, i, j)) == multiset(s)
  {
  }

  /** One step up: an element that is less than its parent changes places with it. */
  lemma StepUp<V>(s: seq<V>, keys: map<V, Distance>, arity: nat, k: nat)
    requires arity > 0 && 0 < k < |s| && OrderedButAt(s, keys, arity, k)
    requires Parent(k, arity) < k && Less(Key(keys, s[k]), Key(keys, s[Parent(k, arity)]))
    ensures OrderedButAt(Swap(s, k, Parent(k, arity)), keys, arity, Parent(k, arity))
  {
    var p := Parent(k, arity);
    var t := Swap(s, k, p);
    forall i | 0 <= i < |s| && i != p ensures OrderedAt(t, keys, arity, i) {
      if i > 0 {
        ParentIsSmaller(i, arity);
        if i != k {
          assert OrderedAt(s, keys, arity, i);
          LessTransitive(Key(keys, s[k]), Key(keys, s[p]), Key(keys, s[i]));
        } else {
          LessTransitive(Key(keys, s[k]), Key(keys, s[p]), Key(keys, s[p]));
        }
      }
    }
    if p > 0 {
      ParentIsSmaller(p, arity);
      assert OrderedAt(s, keys, arity, p);
      forall i | 0 < i < |s| && Parent(i, arity) == p ensures !Less(Key(keys, t[i]), Key(keys, t[Parent(p, arity)])) {
        ParentIsSmaller(i, arity);
        if i != k {
          assert OrderedAt(s, keys, arity, i);
          LessTransitive(Key(keys, s[Parent(p, arity)]), Key(keys, s[p]), Key(keys, s[i]));
        }
      }
    }
  }

  /** One step down: an element changes places with its smallest child, which is less. */
  lemma StepDown<V>(s: seq<V>, keys: map<V, Distance>, arity: nat, k: nat, c: nat)
    requires arity > 0 && k < |s| && OrderedButBelow(s, keys, arity, k)
    requires 0 < c < |s| && Parent(c, arity) == k && k < c && Less(Key(keys, s[c]), Key(keys, s[k]))
    requires forall i :: 0 < i < |s| && Parent(i, arity) == k ==> !Less(Key(keys, s[i]), Key(keys, s[c]))
    ensures OrderedButBelow(Swap(s, c, k), keys, arity, c)
  {
    var t := Swap(s, c, k);
    forall i | 0 <= i < |s| && (i > 0 ==> Parent(i, arity) != c) ensures OrderedAt(t, keys, arity, i) {
      if i > 0 {
        ParentIsSmaller(i, arity);
        if i == c {
          LessTransitive(Key(keys, s[c]), Key(keys, s[k]), Key(keys, s[k]));
        } else if i == k {
          assert OrderedAt(s, keys, arity, k);
        } else if Parent(i, arity) != k {
          assert OrderedAt(s, keys, arity, i);
        }
      }
    }
    forall i | 0 < i < |s| && Parent(i, arity) == c ensures !Less(Key(keys, t[i]), Key(keys, t[k])) {
      ParentIsSmaller(i, arity);
      assert OrderedAt(s, keys, arity, i);
    }
  }

  // ---------- Moving an element all the way ----------

  /** The element at `k` changes places with its parent for as long as it is less. */
  function SiftUp<V>(s: seq<V>, keys: map<V, Distance>, arity: nat, k: nat): (t: seq<V>)
    requires arity > 0 && k < |s|
    ensures |t| == |s|
    decreases k
  {
    if k == 0 then s
    else
      ParentIsSmaller(k, arity);
      var p := Parent(k, arity);
      if Less(Key(keys, s[k]), Key(keys, s[p])) then SiftUp(Swap(s, k, p), keys, arity, p) else s
  }

  /** The first of the least elements among the `n` from `first` on. */
  function Smallest<V>(s: seq<V>, keys: map<V, Distance>, first: nat, n: nat): (c: nat)
    requires n > 0 && first + n <= |s|
    ensures first <= c < first + n
  {
    if n == 1 then first
    else
      var c := Smallest(s, keys, first, n - 1);
      if Less(Key(keys, s[first + n - 1]), Key(keys, s[c])) then first + n - 1 else c
  }

  lemma {:induction false} SmallestIsLeast<V>(s: seq<V>, keys: map<V, Distance>, first: nat, n: nat, i: nat)
    requires n > 0 && first + n <= |s| && first <= i < first + n
    ensures !Less(Key(keys, s[i]), Key(keys, s[Smallest(s, keys, first, n)]))
  {
    if n > 1 && i < first + n - 1 {
      SmallestIsLeast(s, keys, first, n - 1, i);
      var c, last := Smallest(s, keys, first, n - 1), first + n - 1;
      LessTransitive(Key(keys, s[last]), Key(keys, s[c]), Key(keys, s[i]));
    }
  }

  /** It is the first of the least ones. */
  lemma {:induction false} SmallestIsFirst<V>(s: seq<V>, keys: map<V, Distance>, first: nat, n: nat, i: nat)
    requires n > 0 && first + n <= |s| && first <= i < Smallest(s, keys, first, n)
    ensures Less(Key(keys, s[Smallest(s, keys, first, n)]), Key(keys, s[i]))
  {
    var c, last := Smallest(s, keys, first, n - 1), first + n - 1;
    if Smallest(s, keys, first, n) == c {
      SmallestIsFirst(s, keys, first, n - 1, i);
    } else {
      SmallestIsLeast(s, keys, first, n - 1, i);
      LessTransitive(Key(keys, s[last]), Key(keys, s[c]), Key(keys, s[i]));
    }
  }

  /** How many of `arity` children, from the child at `first` on, are in the heap. */
  function ChildCount(size: nat, arity: nat, first: nat): nat {
    if first >= size then 0 else if first + arity <= size then arity else size - first
  }

  /** The element at `k` changes places with its smallest child for as long as that is less. */
  function SiftDown<V>(s: seq<V>, keys: map<V, Distance>, arity: nat, k: nat): (t: seq<V>)
    requires arity > 0 && k < |s|
    ensures |t| == |s|
    decreases |s| - k
  {
    var first := Child(k, 0, arity);
    if first >= |s| then s
    else
      var c := Smallest(s, keys, first, ChildCount(|s|, arity, first));
      ChildOf(k, arity, c);
      if Less(Key(keys, s[c]), Key(keys, s[k])) then SiftDown(Swap(s, c, k), keys, arity, c) else s
  }

  /** An element that is not less than its parent stays where it is, also when both are equal. */
  lemma StaysBelow<V>(s: seq<V>, keys: map<V, Distance>, arity: nat, k: nat)
    requires arity > 0 && k < |s|
    ensures SiftUp(s, keys, arity, k) == s <==> OrderedAt(s, keys, arity, k)
  {
    if k > 0 {
      ParentIsSmaller(k, arity);
      var p := Parent(k, arity);
      if Less(Key(keys, s[k]), Key(keys, s[p])) {
        SiftUpMoves(Swap(s, k, p), keys, arity, p);
      }
    }
  }

  /** What lies behind the starting place is not touched. */
  lemma {:induction false} SiftUpMoves<V>(s: seq<V>, keys: map<V, Distance>, arity: nat, k: nat)
    requires arity > 0 && k < |s|
    ensures forall i :: k < i < |s| ==> SiftUp(s, keys, arity, k)[i] == s[i]
    decreases k
  {
    if k > 0 {
      ParentIsSmaller(k, arity);
      var p := Parent(k, arity);
      if Less(Key(keys, s[k]), Key(keys, s[p])) { SiftUpMoves(Swap(s, k, p), keys, arity, p); }
    }
  }

  lemma {:induction false} SiftUpOrders<V>(s: seq<V>, keys: map<V, Distance>, arity: nat, k: nat)
    requires arity > 0 && k < |s|
    ensures multiset(SiftUp(s, keys, arity, k)) == multiset(s)
    ensures OrderedButAt(s, keys, arity, k) ==> HeapOrdered(SiftUp(s, keys, arity, k), keys, arity)
    decreases k
  {
    if k > 0 {
      ParentIsSmaller(k, arity);
      var p := Parent(k, arity);
      if Less(Key(keys, s[k]), Key(keys, s[p])) {
        SwapKeeps(s, k, p);
        SiftUpOrders(Swap(s, k, p), keys, arity, p);
        if OrderedButAt(s, keys, arity, k) {
          StepUp(s, keys, arity, k);
        }
      }
    }
  }

  /** The smallest child is the least element whose parent is `k`. */
  lemma SmallestIsLeastChild<V>(s: seq<V>, keys: map<V, Distance>, arity: nat, k: nat)
    requires arity > 0 && Child(k, 0, arity) < |s|
    ensures var c := Smallest(s, keys, Child(k, 0, arity), ChildCount(|s|, arity, Child(k, 0, arity)));
            && k < c < |s| && Parent(c, arity) == k
            && forall i :: 0 < i < |s| && Parent(i, arity) == k ==> !Less(Key(keys, s[i]), Key(keys, s[c]))
  {
    hide Parent;
    hide Child;
    var c := Smallest(s, keys, Child(k, 0, arity), ChildCount(|s|, arity, Child(k, 0, arity)));
    ChildOf(k, arity, c);
    forall i | 0 < i < |s| && Parent(i, arity) == k ensures !Less(Key(keys, s[i]), Key(keys, s[c])) {
      ChildOf(k, arity, i);
      SmallestIsLeast(s, keys, Child(k, 0, arity), ChildCount(|s|, arity, Child(k, 0, arity)), i);
    }
  }

  lemma NoChildren<V>(s: seq<V>, keys: map<V, Distance>, arity: nat, k: nat)
    requires arity > 0 && k < |s| <= Child(k, 0, arity)
    ensures SiftDown(s, keys, arity, k) == s && forall i :: 0 < i < |s| ==> Parent(i, arity) != k
  {
    hide Parent;
    forall i | 0 < i < |s| ensures Parent(i, arity) != k { ChildOf(k, arity, i); }
  }

  /** What one call of the sift down does when there are children. */
  lemma SiftDownStep<V>(s: seq<V>, keys: map<V, Distance>, arity: nat, k: nat) returns (c: nat)
    requires arity > 0 && k < |s| && Child(k, 0, arity) < |s|
    ensures k < c < |s| && Parent(c, arity) == k
    ensures forall i :: 0 < i < |s| && Parent(i, arity) == k ==> !Less(Key(keys, s[i]), Key(keys, s[c]))
    ensures SiftDown(s, keys, arity, k) ==
            if Less(Key(keys, s[c]), Key(keys, s[k])) then SiftDown(Swap(s, c, k), keys, arity, c) else s
  {
    var first := Child(k, 0, arity);
    c := Smallest(s, keys, first, ChildCount(|s|, arity, first));
    SmallestIsLeastChild(s, keys, arity, k);
    hide Parent;
  }

  /** An element that is not greater than its least child is in order. */
  lemma NothingBelow<V>(s: seq<V>, keys: map<V, Distance>, arity: nat, k: nat)
    requires arity > 0 && k < |s| && OrderedButBelow(s, keys, arity, k)
    requires forall i :: 0 < i < |s| && Parent(i, arity) == k ==> !Less(Key(keys, s[i]), Key(keys, s[k]))
    ensures HeapOrdered(s, keys, arity)
  {
    hide Parent;
  }

  lemma {:induction false} SiftDownOrders<V>(s: seq<V>, keys: map<V, Distance>, arity: nat, k: nat)
    requires arity > 0 && k < |s|
    ensures multiset(SiftDown(s, keys, arity, k)) == multiset(s)
    ensures OrderedButBelow(s, keys, arity, k) ==> HeapOrdered(SiftDown(s, keys, arity, k), keys, arity)
    decreases |s| - k
  {
    hide SiftDown, Parent, OrderedButBelow, HeapOrdered;
    if Child(k, 0, arity) >= |s| {
      NoChildren(s, keys, arity, k);
      if OrderedButBelow(s, keys, arity, k) { NothingBelow(s, keys, arity, k); }
    } else {
      var c := SiftDownStep(s, keys, arity, k);
      if Less(Key(keys, s[c]), Key(keys, s[k])) {
        SwapKeeps(s, c, k);
        SiftDownOrders(Swap(s, c, k), keys, arity, c);
        if OrderedButBelow(s, keys, arity, k) { StepDown(s, keys, arity, k, c); }
      } else if OrderedButBelow(s, keys, arity, k) {
        forall i | 0 < i < |s| && Parent(i, arity) == k ensures !Less(Key(keys, s[i]), Key(keys, s[k])) {
          LessTransitive(Key(keys, s[k]), Key(keys, s[c]), Key(keys, s[i]));
        }
        NothingBelow(s, keys, arity, k);
      }
    }
  }

  // ---------- The operations of the heap ----------

  function Pushed<V>(s: seq<V>, keys: map<V, Distance>, arity: nat, v: V): seq<V>
    requires arity > 0
  {
    SiftUp(s + [v], keys, arity, |s|)
  }

  function Popped<V>(s: seq<V>, keys: map<V, Distance>, arity: nat): seq<V>
    requires arity > 0 && s != []
  {
    if |s| == 1 then [] else SiftDown(s[0 := s[|s| - 1]][..|s| - 1], keys, arity, 0)
  }

  lemma AppendedAtEnd<V>(s: seq<V>, keys: map<V, Distance>, arity: nat, v: V)
    requires arity > 0 && HeapOrdered(s, keys, arity)
    ensures OrderedButAt(s + [v], keys, arity, |s|)
  {
    hide Parent;
    var t := s + [v];
    forall i | 0 <= i < |s| ensures OrderedAt(t, keys, arity, i) {
      assert OrderedAt(s, keys, arity, i);
      if i > 0 { ParentIsSmaller(i, arity); }
    }
    forall i | 0 < i < |t| ensures Parent(i, arity) != |s| {
      ParentIsSmaller(i, arity);
    }
  }

  /** A pushed element is added, and an ordered heap stays ordered. */
  lemma PushOrders<V>(s: seq<V>, keys: map<V, Distance>, arity: nat, v: V)
    requires arity > 0
    ensures multiset(Pushed(s, keys, arity, v)) == multiset(s) + multiset{v}
    ensures HeapOrdered(s, keys, arity) ==> HeapOrdered(Pushed(s, keys, arity, v), keys, arity)
  {
    hide HeapOrdered;
    hide OrderedButAt;
    SiftUpOrders(s + [v], keys, arity, |s|);
    if HeapOrdered(s, keys, arity) {
      AppendedAtEnd(s, keys, arity, v);
    }
  }

  lemma LastBecomesFirst<V>(s: seq<V>, keys: map<V, Distance>, arity: nat)
    requires arity > 0 && HeapOrdered(s, keys, arity) && |s| > 1
    ensures OrderedButBelow(s[0 := s[|s| - 1]][..|s| - 1], keys, arity, 0)
  {
    hide Parent;
    var t := s[0 := s[|s| - 1]][..|s| - 1];
    forall i | 0 <= i < |t| && (i > 0 ==> Parent(i, arity) != 0) ensures OrderedAt(t, keys, arity, i) {
      assert OrderedAt(s, keys, arity, i);
      if i > 0 { ParentIsSmaller(i, arity); }
    }
  }

  lemma NothingIsOrdered<V>(keys: map<V, Distance>, arity: nat)
    requires arity > 0
    ensures HeapOrdered([], keys, arity)
  {
  }

  /** The first element is removed, nothing else, and an ordered heap stays ordered. */
  lemma PopOrders<V>(s: seq<V>, keys: map<V, Distance>, arity: nat)
    requires arity > 0 && s != []
    ensures multiset(Popped(s, keys, arity)) == multiset(s) - multiset{s[0]}
    ensures HeapOrdered(s, keys, arity) ==> HeapOrdered(Popped(s, keys, arity), keys, arity)
  {
    hide HeapOrdered;
    hide OrderedButBelow;
    var n := |s| - 1;
    if n > 0 {
      var t := s[0 := s[n]][..n];
      assert s == [s[0]] + s[1..n] + [s[n]];
      assert t == [s[n]] + s[1..n];
      SiftDownOrders(t, keys, arity, 0);
      if HeapOrdered(s, keys, arity) {
        LastBecomesFirst(s, keys, arity);
      }
    } else {
      assert s == [s[0]];
      NothingIsOrdered(keys, arity);
    }
  }

  /** Once its lowered element has been moved up, the heap is ordered by the new keys. */
  lemma UpdateOrders<V>(s: seq<V>, keys: map<V, Distance>, arity: nat, k: nat, d: Distance)
    requires arity > 0 && HeapOrdered(s, keys, arity) && k < |s|
    requires forall i :: 0 <= i < |s| && i != k ==> s[i] != s[k]
    requires !Less(Key(keys, s[k]), d)
    ensures HeapOrdered(SiftUp(s, keys[s[k] := d], arity, k), keys[s[k] := d], arity)
  {
    LoweredKey(s, keys, arity, k, d);
    SiftUpOrders(s, keys[s[k] := d], arity, k);
  }
}
