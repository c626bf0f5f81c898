/** Packet ids, groups of ids and the mask that turns a group into one packet rule. */
module PacketIds {
  import opened Words

  type Id = Word

  /** A `std::set<uint32_t>`: its elements in ascending order. */
  type Group = seq<Id>

  predicate Ascending(g: Group) {
    forall i, j :: 0 <= i < j < |g| ==> g[i] < g[j]
  }

  /** `std::set::insert`. */
  function Insert(g: Group, id: Id): (r: Group)
    ensures forall x :: x in r <==> x in g || x == id
    ensures r != []
  {
    if g == [] then [id]
    else if id < g[0] then [id] + g
    else if id == g[0] then g
    else
      assert g == [g[0]] + g[1..];
      [g[0]] + Insert(g[1..], id)
  }

  lemma {:induction false} InsertKeepsOrder(g: Group, id: Id)
    requires Ascending(g)
    ensures Ascending(Insert(g, id))
  {
    if g != [] && g[0] < id {
      var tail := Insert(g[1..], id);
      InsertKeepsOrder(g[1..], id);
      forall j | 0 <= j < |tail| ensures g[0] < tail[j] {
        assert tail[j] in tail;
        if tail[j] != id { var k :| 1 <= k < |g| && g[k] == tail[j]; }
      }
    }
  }

  lemma {:induction false} InsertSize(g: Group, id: Id)
    requires Ascending(g)
    ensures id in g ==> Insert(g, id) == g
    ensures id !in g ==> |Insert(g, id)| == |g| + 1
  {
    if g != [] {
      InsertSize(g[1..], id);
      assert g == [g[0]] + g[1..];
    }
  }

  // ---------- Masks ----------

  /** The low `numMaskBits` bits. */
  function FullMask(numMaskBits: nat): (mask: Word)
    requires numMaskBits <= 32
  {
    Pow2Monotone(numMaskBits, 32);
    Pow2Of32();
    Pow2(numMaskBits) - 1
  }

  /** `mask & ~(id ^ first)` */
  function DropDifferingBits(mask: Word, first: Id, id: Id): Word {
    And(mask, Complement(Xor(id, first), 32))
  }

  /** `mask` without every bit on which an id of `g` differs from `first`. */
  function CommonBits(mask: Word, first: Id, g: Group): Word {
    if g == [] then mask
    else DropDifferingBits(CommonBits(mask, first, g[..|g| - 1]), first, g[|g| - 1])
  }

  /** `*group.begin()` */
  function First(g: Group): Id {
    if g == [] then 0 else g[0]
  }

  function GroupMask(g: Group, numMaskBits: nat): Word
    requires numMaskBits <= 32
  {
    CommonBits(FullMask(numMaskBits), First(g), g)
  }

  lemma {:induction false} CommonBitsBit(mask: Word, first: Id, g: Group, i: nat)
    ensures Bit(CommonBits(mask, first, g), i) <==>
            Bit(mask, i) && forall k :: 0 <= k < |g| ==> (Bit(g[k], i) <==> Bit(first, i))
  {
    if g != [] {
      var init, last := g[..|g| - 1], g[|g| - 1];
      var rest := CommonBits(mask, first, init);
      CommonBitsBit(mask, first, init, i);
      AndBit(rest, Complement(Xor(last, first), 32), i);
      ComplementBit(Xor(last, first), 32, i);
      XorBit(last, first, i);
      if i >= 32 { WordBits(rest, i); }
      assert forall k :: 0 <= k < |init| ==> init[k] == g[k];
      if i >= 32 { WordBits(mask, i); }
    }
  }

  /**
   * The mask of a group has a bit exactly where it may have one and all ids of the group agree: it
   * is the largest such mask.
   */
  lemma GroupMaskBit(g: Group, numMaskBits: nat, i: nat)
    requires g != [] && numMaskBits <= 32
    ensures Bit(GroupMask(g, numMaskBits), i) <==>
            i < numMaskBits && forall x, y :: x in g && y in g ==> (Bit(x, i) <==> Bit(y, i))
  {
    CommonBitsBit(FullMask(numMaskBits), g[0], g, i);
    OnesBit(numMaskBits, i);
    if Bit(GroupMask(g, numMaskBits), i) {
      forall x, y | x in g && y in g ensures Bit(x, i) <==> Bit(y, i) {
        var k :| 0 <= k < |g| && g[k] == x;
        var l :| 0 <= l < |g| && g[l] == y;
      }
    } else if i < numMaskBits {
      var k :| 0 <= k < |g| && !(Bit(g[k], i) <==> Bit(g[0], i));
      assert g[k] in g && g[0] in g;
    }
  }

  /** The mask depends on the ids of the group only, not on the one that is compared with first. */
  lemma GroupMaskOrderFree(g: Group, h: Group, numMaskBits: nat)
    requires g != [] && h != [] && numMaskBits <= 32
    requires forall x :: x in g <==> x in h
    ensures GroupMask(g, numMaskBits) == GroupMask(h, numMaskBits)
  {
    forall i: nat ensures Bit(GroupMask(g, numMaskBits), i) <==> Bit(GroupMask(h, numMaskBits), i) {
      GroupMaskBit(g, numMaskBits, i);
      GroupMaskBit(h, numMaskBits, i);
    }
    SameBitsAreEqual(GroupMask(g, numMaskBits), GroupMask(h, numMaskBits));
  }

  /** A group that grows only loses bits of its mask. */
  lemma GroupMaskShrinks(g: Group, h: Group, numMaskBits: nat, i: nat)
    requires g != [] && h != [] && numMaskBits <= 32
    requires forall x :: x in g ==> x in h
    ensures Bit(GroupMask(h, numMaskBits), i) ==> Bit(GroupMask(g, numMaskBits), i)
  {
    GroupMaskBit(g, numMaskBits, i);
    GroupMaskBit(h, numMaskBits, i);
  }

  // ---------- Rules ----------

  /** The `packet_rule` of a group: `(id & mask) == (first & mask)`. */
  predicate Matches(g: Group, numMaskBits: nat, id: Id)
    requires numMaskBits <= 32
  {
    And(id, GroupMask(g, numMaskBits)) == And(First(g), GroupMask(g, numMaskBits))
  }

  /** The ids that no rule of `numMaskBits` bits can tell apart. */
  predicate SameLowBits(x: Id, y: Id, numMaskBits: nat)
    requires numMaskBits <= 32
  {
    And(x, FullMask(numMaskBits)) == And(y, FullMask(numMaskBits))
  }

  lemma OwnRuleMatches(g: Group, numMaskBits: nat, id: Id)
    requires g != [] && numMaskBits <= 32 && id in g
    ensures Matches(g, numMaskBits, id)
  {
    var mask := GroupMask(g, numMaskBits);
    forall i: nat | Bit(mask, i) ensures Bit(id, i) <==> Bit(g[0], i) {
      GroupMaskBit(g, numMaskBits, i);
      assert g[0] in g;
    }
    MaskedEqual(id, g[0], mask);
  }

  lemma SingleMaskIsFull(x: Id, numMaskBits: nat)
    requires numMaskBits <= 32
    ensures GroupMask([x], numMaskBits) == FullMask(numMaskBits)
  {
    forall i: nat ensures Bit(GroupMask([x], numMaskBits), i) <==> Bit(FullMask(numMaskBits), i) {
      GroupMaskBit([x], numMaskBits, i);
      OnesBit(numMaskBits, i);
    }
    SameBitsAreEqual(GroupMask([x], numMaskBits), FullMask(numMaskBits));
  }

  lemma SingletonRule(x: Id, numMaskBits: nat, id: Id)
    requires numMaskBits <= 32
    ensures Matches([x], numMaskBits, id) <==> SameLowBits(id, x, numMaskBits)
  {
    SingleMaskIsFull(x, numMaskBits);
  }

  lemma RuleSeesLowBitsOnly(g: Group, numMaskBits: nat, x: Id, y: Id)
    requires g != [] && numMaskBits <= 32
    requires SameLowBits(x, y, numMaskBits)
    ensures Matches(g, numMaskBits, x) <==> Matches(g, numMaskBits, y)
  {
    var full, mask := FullMask(numMaskBits), GroupMask(g, numMaskBits);
    MaskedEqual(x, y, full);
    forall i: nat | Bit(mask, i) ensures Bit(x, i) <==> Bit(y, i) {
      GroupMaskBit(g, numMaskBits, i);
      OnesBit(numMaskBits, i);
    }
    MaskedEqual(x, y, mask);
  }

  /** Ids below 2^numMaskBits can always be told apart. */
  lemma FittingIdsDiffer(x: Id, y: Id, numMaskBits: nat)
    requires numMaskBits <= 32
    requires x < Pow2(numMaskBits) && y < Pow2(numMaskBits)
    requires SameLowBits(x, y, numMaskBits)
    ensures x == y
  {
    MaskedEqual(x, y, FullMask(numMaskBits));
    forall i: nat ensures Bit(x, i) <==> Bit(y, i) {
      OnesBit(numMaskBits, i);
      if i >= numMaskBits {
        Pow2Monotone(numMaskBits, i);
        HighBitsAreZero(x, numMaskBits, i);
        HighBitsAreZero(y, numMaskBits, i);
      }
    }
    SameBitsAreEqual(x, y);
  }
}
