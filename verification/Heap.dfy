/** The array heap with an index map and a shared distance map (`d_ary_heap_indirect`). */
module Heap {
  import opened HeapOrder

  /** A distance map that the heap and its user share. */
  class DistanceMap<V(==)> {
    var at: map<V, Distance>

    constructor ()
      ensures at == map[]
    {
      at := map[];
    }
  }

  /** The index stored for a value that has left the heap, `size_type(-1)`. */
  const NOT_IN_HEAP: int := -1

  /** The index map is the inverse of the array, but for the value at `hole`. */
  ghost predicate InverseButAt<V>(s: seq<V>, index: map<V, int>, hole: int) {
    && (forall i :: 0 <= i < |s| && i != hole ==> s[i] in index && index[s[i]] == i)
    && (forall v :: v in index && (0 <= hole < |s| ==> v != s[hole]) ==>
          index[v] == NOT_IN_HEAP || (0 <= index[v] < |s| && s[index[v]] == v))
    && (0 <= hole < |s| ==> forall i :: 0 <= i < |s| && i != hole ==> s[i] != s[hole])
  }

  /** The index map is the inverse of the array. */
  ghost predicate Inverse<V>(s: seq<V>, index: map<V, int>) {
    InverseButAt(s, index, NOT_IN_HEAP)
  }

  ghost predicate Keyed<V>(s: seq<V>, keys: map<V, Distance>) {
    forall i :: 0 <= i < |s| ==> s[i] in keys
  }

  /** The position `m` levels above `k`. */
  ghost function Above(k: nat, arity: nat, m: nat): nat
    requires arity > 0
  {
    if m == 0 then k
    else
      var u := Above(k, arity, m - 1);
      if u == 0 then 0 else Parent(u, arity)
  }

  ghost predicate CanRise(k: nat, arity: nat, m: nat)
    requires arity > 0
  {
    forall n :: 0 <= n < m ==> Above(k, arity, n) > 0
  }

  /** Above keeps going up. */
  lemma {:induction false} AboveIsBelow(k: nat, arity: nat, m: nat)
    requires arity > 0
    ensures Above(k, arity, m) <= k
  {
    if m > 0 {
      AboveIsBelow(k, arity, m - 1);
      var u := Above(k, arity, m - 1);
      if u > 0 { ParentIsSmaller(u, arity); }
    }
  }

  /** `s` after the element at `k` has changed places with `m` parents. */
  ghost function Risen<V>(s: seq<V>, arity: nat, k: nat, m: nat): (t: seq<V>)
    requires arity > 0 && k < |s|
    ensures |t| == |s|
  {
    if m == 0 then s
    else
      AboveIsBelow(k, arity, m - 1);
      AboveIsBelow(k, arity, m);
      Swap(Risen(s, arity, k, m - 1), Above(k, arity, m - 1), Above(k, arity, m))
  }

  /** The moved element is where it has risen to, and what is before it has not been touched. */
  lemma {:induction false} RisenElements<V>(s: seq<V>, arity: nat, k: nat, m: nat)
    requires arity > 0 && k < |s| && CanRise(k, arity, m)
    ensures Above(k, arity, m) <= k
    ensures Risen(s, arity, k, m)[Above(k, arity, m)] == s[k]
    ensures forall j :: 0 <= j < Above(k, arity, m) ==> Risen(s, arity, k, m)[j] == s[j]
  {
    hide Parent;
    AboveIsBelow(k, arity, m);
    if m > 0 {
      assert Above(k, arity, m - 1) > 0;
      RisenElements(s, arity, k, m - 1);
      ParentIsSmaller(Above(k, arity, m - 1), arity);
    }
  }

  /** One more level is one more step of the sift. */
  lemma RiseOne<V>(s: seq<V>, keys: map<V, Distance>, arity: nat, k: nat, m: nat)
    requires arity > 0 && k < |s| && CanRise(k, arity, m) && Above(k, arity, m) > 0
    ensures CanRise(k, arity, m + 1)
    ensures Above(k, arity, m + 1) == Parent(Above(k, arity, m), arity) < Above(k, arity, m) <= k
    ensures var p := Above(k, arity, m + 1);
            SiftUp(Risen(s, arity, k, m), keys, arity, Above(k, arity, m)) ==
            if Less(Key(keys, s[k]), Key(keys, s[p])) then SiftUp(Risen(s, arity, k, m + 1), keys, arity, p)
            else Risen(s, arity, k, m)
  {
    RisenElements(s, arity, k, m);
    ParentIsSmaller(Above(k, arity, m), arity);
  }

  lemma NotRisen<V>(s: seq<V>, arity: nat, k: nat)
    requires arity > 0 && k < |s|
    ensures Above(k, arity, 0) == k && Risen(s, arity, k, 0) == s && CanRise(k, arity, 0)
  {
  }

  lemma SiftUpFromTop<V>(s: seq<V>, keys: map<V, Distance>, arity: nat)
    requires arity > 0 && s != []
    ensures SiftUp(s, keys, arity, 0) == s
  {
  }

  /** What one move of the second loop amounts to. */
  lemma RiseTo<V>(s: seq<V>, arity: nat, k: nat, m: nat, i: nat)
    requires arity > 0 && k < |s| && CanRise(k, arity, m) && i < m
    ensures var u, p := Above(k, arity, i), Above(k, arity, i + 1);
            && 0 < u <= k && p == Parent(u, arity) < u
            && Risen(s, arity, k, i + 1) == Swap(Risen(s, arity, k, i), u, p)
            && Risen(s, arity, k, i)[u] == s[k]
            && Risen(s, arity, k, i + 1)[p] == s[k]
  {
    assert Above(k, arity, i) > 0;
    RiseOne(s, map[], arity, k, i);
    RisenElements(s, arity, k, i);
    RisenElements(s, arity, k, i + 1);
  }

  lemma SwapInverse<V>(s: seq<V>, index: map<V, int>, i: nat, j: nat)
    requires Inverse(s, index) && i < |s| && j < |s| && i != j
    ensures Inverse(Swap(s, i, j), index[s[i] := j][s[j] := i])
  {
  }

  /** The last element takes the place of the first one, which leaves the heap. */
  lemma PoppedIs<V>(s: seq<V>, keys: map<V, Distance>, arity: nat)
    requires arity > 0 && s != []
    ensures |s| == 1 ==> Popped(s, keys, arity) == s[..0]
    ensures |s| > 1 ==> Popped(s, keys, arity) == SiftDown(s[0 := s[|s| - 1]][..|s| - 1], keys, arity, 0)
  {
    hide SiftDown;
  }

  /** So the index map stays the inverse. */
  lemma PopInverse<V>(s: seq<V>, index: map<V, int>, keys: map<V, Distance>)
    requires s != [] && Inverse(s, index) && Keyed(s, keys)
    ensures s[0] in index && s[|s| - 1] in index
    ensures |s| == 1 ==> Inverse(s[..0], index[s[0] := NOT_IN_HEAP])
    ensures |s| > 1 ==>
              && Inverse(s[0 := s[|s| - 1]][..|s| - 1], index[s[0] := NOT_IN_HEAP][s[|s| - 1] := 0])
              && Keyed(s[0 := s[|s| - 1]][..|s| - 1], keys)
  {
    assert index[s[0]] == 0;
  }

  /** Any position may be taken for a hole, and filling a hole closes it. */
  lemma HoleOpens<V>(s: seq<V>, index: map<V, int>, k: nat)
    requires k < |s|
    ensures Inverse(s, index) ==> s[k] in index && InverseButAt(s, index, k)
    ensures InverseButAt(s, index, k) ==> Inverse(s, index[s[k] := k])
  {
  }

  /** Writing the parent into the hole is the swap, with the moved element `x` held back. */
  lemma HoleSwaps<V>(data: seq<V>, x: V, t: seq<V>, k: nat, p: nat)
    requires k < |data| && p < |data| && p != k && data[k := x] == t
    ensures t[p] == data[p]
    ensures data[k := data[p]][p := x] == Swap(t, k, p)
  {
    assert t[k] == x && t[p] == data[p];
  }

  /** Moving the element of a hole's parent into the hole moves the hole up. */
  lemma HoleRises<V>(t: seq<V>, index: map<V, int>, k: nat, p: nat)
    requires k < |t| && p < |t| && p != k && InverseButAt(t, index, k)
    ensures t[p] in index && InverseButAt(Swap(t, k, p), index[t[p] := k], p)
  {
  }

  /** The first loop of the way up: it only counts the levels that the element at `index0` has to move. */
  method LevelsToMove<V(==)>(data: seq<V>, distance: map<V, Distance>, arity: nat, index0: nat) returns (numLevelsMoved: nat)
    requires arity > 0 && index0 < |data|
    requires Keyed(data, distance)
    ensures CanRise(index0, arity, numLevelsMoved)
    ensures SiftUp(data, distance, arity, index0) == Risen(data, arity, index0, numLevelsMoved)
  {
    hide Parent;
    hide SiftUp;
    hide Risen;
    hide CanRise;
    hide Above;
    hide Less;
    var index := index0;
    numLevelsMoved := 0;
    var currentlyBeingMovedDist := distance[data[index]];
    ghost var sifted := SiftUp(data, distance, arity, index0);
    NotRisen(data, arity, index0);
    while index != 0
      invariant index == Above(index0, arity, numLevelsMoved) <= index0
      invariant CanRise(index0, arity, numLevelsMoved)
      invariant sifted == SiftUp(Risen(data, arity, index0, numLevelsMoved), distance, arity, index)
      decreases index
    {
      RiseOne(data, distance, arity, index0, numLevelsMoved);
      var parentIndex := Parent(index, arity);
      var parentValue := data[parentIndex];
      if Less(currentlyBeingMovedDist, distance[parentValue]) {
        numLevelsMoved := numLevelsMoved + 1;
        index := parentIndex;
      } else {
        return;
      }
    }
    SiftUpFromTop(Risen(data, arity, index0, numLevelsMoved), distance, arity);
  }

  lemma SmallestOfOne<V>(s: seq<V>, keys: map<V, Distance>, first: nat)
    requires first < |s|
    ensures Smallest(s, keys, first, 1) == first
  {
  }

  lemma SmallestOfMore<V>(s: seq<V>, keys: map<V, Distance>, first: nat, n: nat)
    requires n > 0 && first + n < |s|
    ensures var c := Smallest(s, keys, first, n);
            Smallest(s, keys, first, n + 1) == if Less(Key(keys, s[first + n]), Key(keys, s[c])) then first + n else c
  {
  }

  /** The first of the smallest children, relative to the first child, and its distance. */
  method SmallestChild<V(==)>(data: seq<V>, distance: map<V, Distance>, arity: nat, firstChildIndex: nat)
      returns (smallestChildIndex: nat, smallestChildDist: Distance)
    requires arity > 0 && firstChildIndex < |data|
    requires Keyed(data, distance)
    ensures firstChildIndex + smallestChildIndex ==
            Smallest(data, distance, firstChildIndex, ChildCount(|data|, arity, firstChildIndex))
    ensures smallestChildDist == Key(distance, data[firstChildIndex + smallestChildIndex])
  {
    hide Less;
    hide Smallest;
    SmallestOfOne(data, distance, firstChildIndex);
    var heapSize := |data|;
    smallestChildIndex := 0;
    smallestChildDist := distance[data[firstChildIndex]];
    if firstChildIndex + arity <= heapSize {
      for i := 1 to arity
        invariant firstChildIndex + smallestChildIndex == Smallest(data, distance, firstChildIndex, i)
        invariant smallestChildDist == Key(distance, data[firstChildIndex + smallestChildIndex])
      {
        var iValue := data[firstChildIndex + i];
        var iDist := distance[iValue];
        SmallestOfMore(data, distance, firstChildIndex, i);
        if Less(iDist, smallestChildDist) {
          smallestChildIndex := i;
          smallestChildDist := iDist;
        }
      }
    } else {
      for i := 1 to heapSize - firstChildIndex
        invariant firstChildIndex + smallestChildIndex == Smallest(data, distance, firstChildIndex, i)
        invariant smallestChildDist == Key(distance, data[firstChildIndex + smallestChildIndex])
      {
        var iDist := distance[data[firstChildIndex + i]];
        SmallestOfMore(data, distance, firstChildIndex, i);
        if Less(iDist, smallestChildDist) {
          smallestChildIndex := i;
          smallestChildDist := iDist;
        }
      }
    }
  }

  class DAryHeap<V(==)> {
    const arity: nat
    const distance: DistanceMap<V>
    var data: seq<V>
    var indexInHeap: map<V, int>

    /** The index map is the exact inverse of the array; so no value is in the heap twice. */
    ghost predicate Valid()
      reads this
    {
      arity > 0 && Inverse(data, indexInHeap)
    }

    /** Every value in the heap has a distance. */
    ghost predicate HasKeys()
      reads this, distance
    {
      Keyed(data, distance.at)
    }

    /** No element is less than its parent, by the distances of this moment. */
    ghost predicate Ordered()
      reads this, distance
    {
      arity > 0 && HeapOrdered(data, distance.at, arity)
    }

    constructor (arity: nat, distance: DistanceMap<V>)
      requires arity > 0
      ensures Valid() && this.arity == arity && this.distance == distance && data == [] && indexInHeap == map[]
    {
      this.arity := arity;
      this.distance := distance;
      data := [];
      indexInHeap := map[];
    }

    method Push(v: V)
      requires Valid() && HasKeys() && v !in data && v in distance.at
      modifies this
      ensures Valid() && data == Pushed(old(data), distance.at, arity, v)
      ensures indexInHeap.Keys == old(indexInHeap.Keys) + {v}
      ensures multiset(data) == multiset(old(data)) + multiset{v}
      ensures old(Ordered()) ==> Ordered()
    {
      PushOrders(data, distance.at, arity, v);
      var index := |data|;
      data := data + [v];
      indexInHeap := indexInHeap[v := index];
      PreserveHeapPropertyUp(index);
    }

    method Top() returns (v: V)
      requires Valid() && data != []
      ensures v == data[0]
      ensures Ordered() ==> forall w :: w in data ==> !Less(Key(distance.at, w), Key(distance.at, v))
    {
      if Ordered() {
        forall w | w in data ensures !Less(Key(distance.at, w), Key(distance.at, data[0])) {
          var i :| 0 <= i < |data| && data[i] == w;
          TopIsLeast(data, distance.at, arity, i);
        }
      }
      return data[0];
    }

    method Pop()
      requires Valid() && HasKeys() && data != []
      modifies this
      ensures Valid() && data == Popped(old(data), distance.at, arity)
      ensures indexInHeap.Keys == old(indexInHeap.Keys)
      ensures multiset(data) == multiset(old(data)) - multiset{old(data[0])}
      ensures old(Ordered()) ==> Ordered()
    {
      hide HeapOrdered, Inverse, SiftDown, Parent, Child, Smallest, Popped;
      PopOrders(data, distance.at, arity);
      PoppedIs(data, distance.at, arity);
      PopInverse(data, indexInHeap, distance.at);
      hide Keyed;
      indexInHeap := indexInHeap[data[0] := NOT_IN_HEAP];
      if |data| != 1 {
        data := data[0 := data[|data| - 1]];
        indexInHeap := indexInHeap[data[0] := 0];
        data := data[..|data| - 1];
        PreserveHeapPropertyDown();
      } else {
        data := data[..|data| - 1];
      }
    }

    /** Restores the order after the distance of `v`, and no other, has become smaller. */
    method Update(v: V)
      requires Valid() && HasKeys() && v in data
      modifies this
      ensures Valid() && data == SiftUp(old(data), distance.at, arity, old(indexInHeap[v]))
      ensures indexInHeap.Keys == old(indexInHeap.Keys)
      ensures multiset(data) == multiset(old(data))
      ensures old(OrderedButAt(data, distance.at, arity, indexInHeap[v])) ==> Ordered()
    {
      var index := indexInHeap[v];
      SiftUpOrders(data, distance.at, arity, index);
      PreserveHeapPropertyUp(index);
    }

    method Contains(v: V) returns (r: bool)
      requires Valid() && v in indexInHeap
      ensures r <==> v in data
    {
      var index := indexInHeap[v];
      return index != NOT_IN_HEAP;
    }

    method PushOrUpdate(v: V)
      requires Valid() && HasKeys() && v in indexInHeap && v in distance.at
      modifies this
      ensures Valid() && indexInHeap.Keys == old(indexInHeap.Keys)
      ensures v in old(data) ==> data == SiftUp(old(data), distance.at, arity, old(indexInHeap[v]))
      ensures v !in old(data) ==> data == Pushed(old(data), distance.at, arity, v)
      ensures multiset(data) == multiset(old(data)) + if v in old(data) then multiset{} else multiset{v}
      ensures v !in old(data) && old(Ordered()) ==> Ordered()
      ensures v in old(data) && old(OrderedButAt(data, distance.at, arity, indexInHeap[v])) ==> Ordered()
    {
      var index := indexInHeap[v];
      if index == NOT_IN_HEAP {
        PushOrders(data, distance.at, arity, v);
        index := |data|;
        data := data + [v];
        indexInHeap := indexInHeap[v := index];
      } else {
        SiftUpOrders(data, distance.at, arity, index);
      }
      PreserveHeapPropertyUp(index);
    }

    method SwapHeapElements(indexA: nat, indexB: nat)
      requires Valid() && indexA < |data| && indexB < |data| && indexA != indexB
      modifies this
      ensures Valid() && data == Swap(old(data), indexA, indexB) && indexInHeap.Keys == old(indexInHeap.Keys)
    {
      SwapInverse(data, indexInHeap, indexA, indexB);
      var valueA, valueB := data[indexA], data[indexB];
      data := data[indexA := valueB];
      data := data[indexB := valueA];
      indexInHeap := indexInHeap[valueA := indexB];
      indexInHeap := indexInHeap[valueB := indexA];
    }

    /** Counts the levels first and moves afterwards; the result is that of the swaps one by one. */
    method PreserveHeapPropertyUp(index0: nat)
      requires Valid() && HasKeys() && index0 < |data|
      modifies this
      ensures Valid() && data == SiftUp(old(data), distance.at, arity, index0)
      ensures indexInHeap.Keys == old(indexInHeap.Keys)
    {
      hide Inverse;
      hide InverseButAt;
      hide Parent;
      hide SiftUp;
      hide Risen;
      hide CanRise;
      hide Above;
      if index0 == 0 { SiftUpFromTop(data, distance.at, arity); return; }
      var index := index0;
      var currentlyBeingMoved := data[index];
      var numLevelsMoved := LevelsToMove(data, distance.at, arity, index);
      ghost var s := data;
      HoleOpens(s, indexInHeap, index0);
      NotRisen(s, arity, index0);
      for i := 0 to numLevelsMoved
        invariant index == Above(index0, arity, i) <= index0 < |data| == |s|
        invariant data[index := currentlyBeingMoved] == Risen(s, arity, index0, i)
        invariant InverseButAt(Risen(s, arity, index0, i), indexInHeap, index)
        invariant indexInHeap.Keys == old(indexInHeap.Keys)
      {
        RiseTo(s, arity, index0, numLevelsMoved, i);
        var parentIndex := Parent(index, arity);
        HoleRises(Risen(s, arity, index0, i), indexInHeap, index, parentIndex);
        HoleSwaps(data, currentlyBeingMoved, Risen(s, arity, index0, i), index, parentIndex);
        var parentValue := data[parentIndex];
        indexInHeap := indexInHeap[parentValue := index];
        data := data[index := parentValue];
        index := parentIndex;
      }
      HoleOpens(data[index := currentlyBeingMoved], indexInHeap, index);
      data := data[index := currentlyBeingMoved];
      indexInHeap := indexInHeap[currentlyBeingMoved := index];
    }

    method PreserveHeapPropertyDown()
      requires Valid() && HasKeys()
      modifies this
      ensures Valid() && indexInHeap.Keys == old(indexInHeap.Keys)
      ensures data == if old(data) == [] then [] else SiftDown(old(data), distance.at, arity, 0)
    {
      hide Parent;
      hide Child;
      hide Inverse;
      hide InverseButAt;
      if data == [] { return; }
      var index := 0;
      var currentlyBeingMovedDist := distance.at[data[0]];
      var heapSize := |data|;
      while true
        invariant Valid() && HasKeys() && indexInHeap.Keys == old(indexInHeap.Keys)
        invariant 0 <= index < heapSize == |data|
        invariant currentlyBeingMovedDist == Key(distance.at, data[index])
        invariant SiftDown(data, distance.at, arity, index) == SiftDown(old(data), distance.at, arity, 0)
        decreases heapSize - index
      {
        var firstChildIndex := Child(index, 0, arity);
        if firstChildIndex >= heapSize { break; }
        var smallestChildIndex, smallestChildDist := SmallestChild(data, distance.at, arity, firstChildIndex);
        ChildOf(index, arity, firstChildIndex);
        if Less(smallestChildDist, currentlyBeingMovedDist) {
          SwapHeapElements(smallestChildIndex + firstChildIndex, index);
          index := smallestChildIndex + firstChildIndex;
        } else {
          break;
        }
      }
    }
  }
}
