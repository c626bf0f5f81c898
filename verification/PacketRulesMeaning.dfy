/** First-match lookup in the compiled rule tables gives back the flow map. */
module PacketRulesMeaning {
  import opened Words
  import opened StreamSwitch
  import opened PacketIds
  import opened GroupOrder
  import opened PacketRules

  // ---------- Conditions on the problem ----------

  /** Ids of one port that no rule can tell apart have the same destinations. */
  ghost predicate Distinguishable(pb: Problem)
    requires pb.numMaskBits <= 32
  {
    forall s, t :: s in pb.workList && t in pb.workList && s.physPort == t.physPort
                   && SameLowBits(s.id, t.id, pb.numMaskBits) ==>
      pb.DestsOf(s.physPort, s.id) == pb.DestsOf(t.physPort, t.id)
  }

  // ---------- The failing branch ----------

  /** A group with the destinations of `slave` is found, but merging fails the verification. */
  ghost predicate Rejects(t: RuleTable, pb: Problem, slave: PhysPortAndID)
    requires pb.numMaskBits <= 32
  {
    var port := slave.physPort;
    var found := FindGroup(pb, port, t.GroupsOf(port), slave.id, 0);
    found.Some? &&
    var merged := Merged(t, port, found.value, slave.id, pb.numMaskBits);
    !RulesOrdered(merged.masks, port, merged.groups[port])
  }

  /** `id` is the first id of a group in which another id has other low bits. */
  ghost predicate Leads(groups: seq<Group>, id: Id, numMaskBits: nat)
    requires numMaskBits <= 32
  {
    exists j, x :: 0 <= j < |groups| && First(groups[j]) == id && x in groups[j] && !SameLowBits(x, id, numMaskBits)
  }

  /**
   * Placing `slave` narrows a rule: the merge is rejected, and the mask of all low bits that is then
   * stored for its id is also the one with which the rule of an older group is emitted.
   */
  ghost predicate Narrows(t: RuleTable, pb: Problem, slave: PhysPortAndID)
    requires pb.numMaskBits <= 32
  {
    Rejects(t, pb, slave) && Leads(t.GroupsOf(slave.physPort), slave.id, pb.numMaskBits)
  }

  /** None of the first `k` slaves of the work list narrows a rule. */
  ghost predicate NeverNarrows(pb: Problem, k: nat)
    requires pb.numMaskBits <= 32 && k <= |pb.workList|
  {
    forall l :: 0 <= l < k ==> !Narrows(Compile(pb, l), pb, pb.workList[l])
  }

  /** The rule of every group of the port catches all ids of the group. */
  ghost predicate Whole(masks: MaskMap, port: PhysPort, groups: seq<Group>) {
    forall i, x :: 0 <= i < |groups| && x in groups[i] ==> RuleMatches(masks, port, groups[i], x)
  }

  // ---------- The invariant of one port ----------

  ghost predicate Members(pb: Problem, port: PhysPort, groups: seq<Group>) {
    forall i, x :: 0 <= i < |groups| && x in groups[i] ==> PhysPortAndID(port, x) in pb.workList
  }

  ghost predicate Alike(pb: Problem, port: PhysPort, g: Group) {
    g != [] && Ascending(g) && forall x :: x in g ==> pb.DestsOf(port, x) == pb.DestsOf(port, First(g))
  }

  ghost predicate AllAlike(pb: Problem, port: PhysPort, groups: seq<Group>) {
    forall i :: 0 <= i < |groups| ==> Alike(pb, port, groups[i])
  }

  /** The rule of `g` has the mask of the group, or all low bits while its first id also has a group of its own. */
  ghost predicate MaskKept(pb: Problem, port: PhysPort, groups: seq<Group>, masks: MaskMap, g: Group)
    requires pb.numMaskBits <= 32
  {
    || MaskOf(masks, port, First(g)) == GroupMask(g, pb.numMaskBits)
    || (MaskOf(masks, port, First(g)) == FullMask(pb.numMaskBits) && [First(g)] in groups)
  }

  ghost predicate MasksKept(pb: Problem, port: PhysPort, groups: seq<Group>, masks: MaskMap)
    requires pb.numMaskBits <= 32
  {
    forall i :: 0 <= i < |groups| ==> MaskKept(pb, port, groups, masks, groups[i])
  }

  /** An id that is in two groups is alone in one of them. */
  ghost predicate SharedIsSingle(groups: seq<Group>) {
    forall i, j, x :: 0 <= i < |groups| && 0 <= j < |groups| && i != j && x in groups[i] && x in groups[j] ==>
      groups[i] == [x] || groups[j] == [x]
  }

  /** An earlier rule catches an id of a later group only if that makes no difference. */
  ghost predicate FirstWins(pb: Problem, port: PhysPort, groups: seq<Group>)
    requires pb.numMaskBits <= 32
  {
    forall i, j, x :: 0 <= i < j < |groups| && x in groups[j] && Matches(groups[i], pb.numMaskBits, x) ==>
      pb.DestsOf(port, x) == pb.DestsOf(port, First(groups[i]))
  }

  /** An earlier rule never catches an id of a later group. */
  ghost predicate Separate(groups: seq<Group>, numMaskBits: nat)
    requires numMaskBits <= 32
  {
    forall i, j, x :: 0 <= i < j < |groups| && x in groups[j] ==> !Matches(groups[i], numMaskBits, x)
  }

  ghost predicate PortOk(pb: Problem, port: PhysPort, groups: seq<Group>, masks: MaskMap)
    requires pb.numMaskBits <= 32
  {
    && Sorted(groups)
    && Members(pb, port, groups)
    && AllAlike(pb, port, groups)
    && SharedIsSingle(groups)
    && MasksKept(pb, port, groups, masks)
    && (Distinguishable(pb) ==> FirstWins(pb, port, groups))
  }

  // ---------- Stored masks and whole rules ----------

  lemma MaskOfWith(masks: MaskMap, port: PhysPort, g: Group, mask: Word, x: Id)
    ensures MaskOf(WithMask(masks, port, g, mask), port, x) == if x in g then mask else MaskOf(masks, port, x)
  {
    assert PhysPortAndID(port, x).id == x;
  }

  lemma SameLowBitsGiveFullMask(g: Group, numMaskBits: nat)
    requires g != [] && numMaskBits <= 32
    requires forall x :: x in g ==> SameLowBits(x, First(g), numMaskBits)
    ensures GroupMask(g, numMaskBits) == FullMask(numMaskBits)
  {
    var full := FullMask(numMaskBits);
    forall x | x in g ensures AgreeOn(x, First(g), full) {
      MaskedEqual(x, First(g), full);
    }
    forall i: nat ensures Bit(GroupMask(g, numMaskBits), i) <==> Bit(full, i) {
      GroupMaskBit(g, numMaskBits, i);
      OnesBit(numMaskBits, i);
    }
    SameBitsAreEqual(GroupMask(g, numMaskBits), full);
  }

  /** A rule catches its whole group exactly when it is emitted with the mask of the group. */
  lemma WholeRuleHasGroupMask(pb: Problem, port: PhysPort, groups: seq<Group>, masks: MaskMap, g: Group)
    requires pb.numMaskBits <= 32 && g != [] && MaskKept(pb, port, groups, masks, g)
    ensures (forall x :: x in g ==> RuleMatches(masks, port, g, x)) <==>
            MaskOf(masks, port, First(g)) == GroupMask(g, pb.numMaskBits)
  {
    hide GroupMask, FullMask;
    var n := pb.numMaskBits;
    if MaskOf(masks, port, First(g)) == GroupMask(g, n) {
      forall x | x in g ensures RuleMatches(masks, port, g, x) { OwnRuleMatches(g, n, x); }
    } else if forall x :: x in g ==> RuleMatches(masks, port, g, x) {
      forall x | x in g ensures SameLowBits(x, First(g), n) { assert RuleMatches(masks, port, g, x); }
      SameLowBitsGiveFullMask(g, n);
      assert false;
    }
  }

  ghost predicate OwnMasks(pb: Problem, port: PhysPort, groups: seq<Group>, masks: MaskMap)
    requires pb.numMaskBits <= 32
  {
    forall i :: 0 <= i < |groups| ==> MaskOf(masks, port, First(groups[i])) == GroupMask(groups[i], pb.numMaskBits)
  }

  lemma WholeIsOwnMasks(pb: Problem, port: PhysPort, groups: seq<Group>, masks: MaskMap)
    requires pb.numMaskBits <= 32 && NonEmpty(groups) && MasksKept(pb, port, groups, masks)
    ensures Whole(masks, port, groups) <==> OwnMasks(pb, port, groups, masks)
  {
    hide GroupMask, FullMask, RuleMatches, MaskOf;
    forall i | 0 <= i < |groups| { WholeRuleHasGroupMask(pb, port, groups, masks, groups[i]); }
  }

  /** The verification with the stored masks asks whether the groups are separate. */
  lemma OrderedIsSeparate(pb: Problem, port: PhysPort, groups: seq<Group>, masks: MaskMap)
    requires pb.numMaskBits <= 32 && OwnMasks(pb, port, groups, masks)
    ensures RulesOrdered(masks, port, groups) <==> Separate(groups, pb.numMaskBits)
  {
    hide GroupMask;
    forall i, x | 0 <= i < |groups|
      ensures RuleMatches(masks, port, groups[i], x) <==> Matches(groups[i], pb.numMaskBits, x)
    {
    }
  }

  lemma SeparateShareNothing(pb: Problem, port: PhysPort, groups: seq<Group>)
    requires pb.numMaskBits <= 32 && NonEmpty(groups) && Separate(groups, pb.numMaskBits)
    ensures forall i, j, x :: 0 <= i < |groups| && 0 <= j < |groups| && x in groups[i] && x in groups[j] ==> i == j
    ensures FirstWins(pb, port, groups) && SharedIsSingle(groups)
  {
    hide GroupMask;
    forall i, j, x | 0 <= i < |groups| && 0 <= j < |groups| && x in groups[i] && x in groups[j] ensures i == j {
      OwnRuleMatches(groups[i], pb.numMaskBits, x);
      OwnRuleMatches(groups[j], pb.numMaskBits, x);
    }
  }

  // ---------- Positions in the sorted list ----------

  lemma SortedBySize(groups: seq<Group>, i: nat, j: nat)
    requires Sorted(groups) && i <= j < |groups|
    ensures |groups[i]| <= |groups[j]|
  {
    if i < j { assert AtMost(groups[i], groups[j]); }
  }

  lemma {:induction false} TwiceInside(s: seq<Group>, l: nat, m: nat)
    requires l < m < |s| && s[l] == s[m]
    ensures multiset(s)[s[l]] >= 2
  {
    assert s == s[..m] + s[m..];
    assert s[..m][l] == s[l] && s[m..][0] == s[m];
    assert s[l] in multiset(s[..m]) && s[m] in multiset(s[m..]);
  }

  lemma TwoPlaces(s: seq<Group>, g: Group) returns (a: nat, b: nat)
    requires multiset(s)[g] >= 2
    ensures a < |s| && b < |s| && a != b && s[a] == g && s[b] == g
  {
    assert g in multiset(s);
    a :| 0 <= a < |s| && s[a] == g;
    var rest := s[..a] + s[a + 1..];
    assert s == s[..a] + [g] + s[a + 1..];
    assert multiset(s) == multiset(rest) + multiset{g};
    assert g in multiset(rest);
    var c :| 0 <= c < |rest| && rest[c] == g;
    b := if c < a then c else c + 1;
  }

  /** Two places of a list are two places of every list of the same groups. */
  lemma PlacesIn(s: seq<Group>, r: seq<Group>, l: nat, m: nat) returns (a: nat, b: nat)
    requires multiset(s) == multiset(r) && l < |s| && m < |s| && l != m
    ensures a < |r| && b < |r| && a != b && r[a] == s[l] && r[b] == s[m]
  {
    if s[l] == s[m] {
      TwiceInside(s, if l < m then l else m, if l < m then m else l);
      a, b := TwoPlaces(r, s[l]);
    } else {
      assert s[l] in multiset(s) && s[m] in multiset(s);
      a :| 0 <= a < |r| && r[a] == s[l];
      b :| 0 <= b < |r| && r[b] == s[m];
    }
  }

  /** In a verified list no id is caught by the rules of two of its groups. */
  lemma CaughtOnce(masks: MaskMap, port: PhysPort, groups: seq<Group>, l: nat, m: nat, x: Id)
    requires RulesOrdered(masks, port, SortBySize(groups))
    requires l < |groups| && m < |groups| && x in groups[l] && x in groups[m]
    requires RuleMatches(masks, port, groups[l], x) && RuleMatches(masks, port, groups[m], x)
    ensures l == m
  {
    SortBySizeAdds(groups);
    hide SortBySize, RuleMatches;
    if l != m {
      var a, b := PlacesIn(groups, SortBySize(groups), l, m);
      assert false;
    }
  }

  // ---------- A new singleton group ----------

  /** The new group goes in front of every group of two or more ids. */
  lemma SingletonPosition(groups: seq<Group>, id: Id) returns (k: nat)
    requires Sorted(groups) && NonEmpty(groups)
    ensures k <= |groups| && SortBySize(groups + [[id]]) == groups[..k] + [[id]] + groups[k..]
    ensures forall i :: 0 <= i < k ==> |groups[i]| == 1
  {
    assert (groups + [[id]])[..|groups|] == groups;
    SortedIsFixed(groups);
    k := InsertGroupAt(groups, [id]);
    forall i | 0 <= i < k ensures |groups[i]| == 1 {
      assert !AtMost([id], groups[i]);
    }
  }

  lemma SingletonFirstWins(pb: Problem, port: PhysPort, groups: seq<Group>, k: nat, id: Id)
    requires pb.numMaskBits <= 32 && k <= |groups|
    requires Members(pb, port, groups) && PhysPortAndID(port, id) in pb.workList
    requires forall i :: 0 <= i < k ==> |groups[i]| == 1
    requires Distinguishable(pb) && FirstWins(pb, port, groups)
    ensures FirstWins(pb, port, groups[..k] + [[id]] + groups[k..])
  {
    hide GroupMask;
    var r, n := groups[..k] + [[id]] + groups[k..], pb.numMaskBits;
    forall i, j, x | 0 <= i < j < |r| && x in r[j] && Matches(r[i], n, x)
      ensures pb.DestsOf(port, x) == pb.DestsOf(port, First(r[i]))
    {
      var oldI, oldJ := if i < k then i else i - 1, if j < k then j else j - 1;
      if i == k {
        SingletonRule(id, n, x);
        assert x in groups[oldJ];
        assert SameLowBits(PhysPortAndID(port, x).id, PhysPortAndID(port, id).id, n);
      } else if j == k {
        var a := groups[i][0];
        assert groups[i] == [a] && x == id;
        SingletonRule(a, n, x);
        assert a in groups[i];
        assert SameLowBits(PhysPortAndID(port, x).id, PhysPortAndID(port, a).id, n);
      } else {
        assert r[i] == groups[oldI] && r[j] == groups[oldJ];
      }
    }
  }

  /** `masks'` differs from `masks` at `id`, which now has all low bits, and not at the first id of any group. */
  ghost predicate MasksButOne(pb: Problem, port: PhysPort, groups: seq<Group>, masks: MaskMap, masks': MaskMap, id: Id)
    requires pb.numMaskBits <= 32
  {
    && MaskOf(masks', port, id) == FullMask(pb.numMaskBits)
    && forall j :: 0 <= j < |groups| && First(groups[j]) != id ==>
         MaskOf(masks', port, First(groups[j])) == MaskOf(masks, port, First(groups[j]))
  }

  lemma SingletonMasksKept(pb: Problem, port: PhysPort, groups: seq<Group>, k: nat, masks: MaskMap, masks': MaskMap, id: Id)
    requires pb.numMaskBits <= 32 && k <= |groups|
    requires MasksKept(pb, port, groups, masks) && MasksButOne(pb, port, groups, masks, masks', id)
    ensures MasksKept(pb, port, groups[..k] + [[id]] + groups[k..], masks')
  {
    SingleMaskIsFull(id, pb.numMaskBits);
    hide GroupMask, FullMask, MaskOf;
    var r := groups[..k] + [[id]] + groups[k..];
    assert r[k] == [id];
    forall i | 0 <= i < |r| ensures MaskKept(pb, port, r, masks', r[i]) {
      if i != k {
        var j := if i < k then i else i - 1;
        assert r[i] == groups[j] && MaskKept(pb, port, groups, masks, groups[j]);
        if [First(groups[j])] in groups {
          var l :| 0 <= l < |groups| && groups[l] == [First(groups[j])];
          assert r[if l < k then l else l + 1] == groups[l];
        }
      }
    }
  }

  lemma SingletonStructure(pb: Problem, port: PhysPort, groups: seq<Group>, k: nat, id: Id)
    requires k <= |groups| && PhysPortAndID(port, id) in pb.workList
    requires Members(pb, port, groups) && AllAlike(pb, port, groups) && SharedIsSingle(groups)
    ensures var r := groups[..k] + [[id]] + groups[k..];
            Members(pb, port, r) && AllAlike(pb, port, r) && SharedIsSingle(r)
  {
    var r := groups[..k] + [[id]] + groups[k..];
    forall i | 0 <= i < |r| && i != k ensures r[i] == groups[if i < k then i else i - 1] {}
    forall i | 0 <= i < |r| ensures Alike(pb, port, r[i]) {
      if i != k { assert Alike(pb, port, groups[if i < k then i else i - 1]); }
    }
    forall i, j, x | 0 <= i < |r| && 0 <= j < |r| && i != j && x in r[i] && x in r[j]
      ensures r[i] == [x] || r[j] == [x]
    {
      if i != k && j != k {
        var i', j' := if i < k then i else i - 1, if j < k then j else j - 1;
        assert groups[i'] == [x] || groups[j'] == [x];
      }
    }
  }

  /** The unverified insertion of a singleton group. */
  lemma AddSingletonOk(pb: Problem, port: PhysPort, groups: seq<Group>, masks: MaskMap, masks': MaskMap, id: Id)
    requires pb.numMaskBits <= 32 && PhysPortAndID(port, id) in pb.workList
    requires PortOk(pb, port, groups, masks) && MasksButOne(pb, port, groups, masks, masks', id)
    ensures PortOk(pb, port, SortBySize(groups + [[id]]), masks')
  {
    hide GroupMask, SortBySize, Distinguishable, MasksKept, MasksButOne, SharedIsSingle, FirstWins, Members;
    forall i | 0 <= i < |groups| ensures groups[i] != [] { assert Alike(pb, port, groups[i]); }
    var k := SingletonPosition(groups, id);
    SortBySizeSorts(groups + [[id]]);
    hide Sorted, AllAlike;
    SingletonStructure(pb, port, groups, k, id);
    SingletonMasksKept(pb, port, groups, k, masks, masks', id);
    if Distinguishable(pb) { SingletonFirstWins(pb, port, groups, k, id); }
  }

  /** The rules stay whole unless the new singleton takes over the mask of an older group. */
  lemma AddSingletonWhole(pb: Problem, port: PhysPort, groups: seq<Group>, masks: MaskMap, masks': MaskMap, id: Id)
    requires pb.numMaskBits <= 32 && PhysPortAndID(port, id) in pb.workList
    requires PortOk(pb, port, groups, masks) && MasksButOne(pb, port, groups, masks, masks', id)
    ensures Whole(masks', port, SortBySize(groups + [[id]])) <==>
            Whole(masks, port, groups) && !Leads(groups, id, pb.numMaskBits)
  {
    hide GroupMask, SortBySize, Distinguishable, SharedIsSingle, FirstWins, Members, Sorted, And, FullMask, MaskOf;
    var r, n := SortBySize(groups + [[id]]), pb.numMaskBits;
    SortedMembers(groups + [[id]]);
    forall i | 0 <= i < |groups| ensures groups[i] != [] && groups[i] in r {
      assert Alike(pb, port, groups[i]);
      assert (groups + [[id]])[i] == groups[i];
    }
    forall g, x | g in r && x in g && g !in groups ensures RuleMatches(masks', port, g, x) {
      assert g == [id];
    }
    forall j | 0 <= j < |groups|
      ensures (forall x :: x in groups[j] ==> RuleMatches(masks', port, groups[j], x)) <==>
              (forall x :: x in groups[j] ==> RuleMatches(masks, port, groups[j], x)) &&
              !(First(groups[j]) == id && exists x :: x in groups[j] && !SameLowBits(x, id, n))
    {
      assert MaskKept(pb, port, groups, masks, groups[j]);
      WholeAfter(pb, port, groups, masks, masks', id, groups[j]);
    }
    hide RuleMatches, SameLowBits, MasksKept, MasksButOne, AllAlike;
    WholeInAll(masks', port, r, groups, id);
  }

  /** Whether one rule is whole depends on whether it was and on whether its mask was taken over. */
  lemma WholeAfter(pb: Problem, port: PhysPort, groups: seq<Group>, masks: MaskMap, masks': MaskMap, id: Id, g: Group)
    requires pb.numMaskBits <= 32 && g != [] && MaskKept(pb, port, groups, masks, g)
    requires First(g) == id ==> MaskOf(masks', port, id) == FullMask(pb.numMaskBits)
    requires First(g) != id ==> MaskOf(masks', port, First(g)) == MaskOf(masks, port, First(g))
    ensures (forall x :: x in g ==> RuleMatches(masks', port, g, x)) <==>
            (forall x :: x in g ==> RuleMatches(masks, port, g, x)) &&
            !(First(g) == id && exists x :: x in g && !SameLowBits(x, id, pb.numMaskBits))
  {
    hide GroupMask, FullMask, MaskOf, And;
    var n := pb.numMaskBits;
    if First(g) == id {
      forall x ensures RuleMatches(masks', port, g, x) <==> SameLowBits(x, id, n) {}
      if forall x :: x in g ==> SameLowBits(x, id, n) {
        SameLowBitsGiveFullMask(g, n);
        WholeRuleHasGroupMask(pb, port, groups, masks, g);
      }
    }
  }

  lemma WholeInAll(masks: MaskMap, port: PhysPort, r: seq<Group>, groups: seq<Group>, id: Id)
    requires forall g :: g in groups ==> g in r
    requires forall g, x :: g in r && x in g && g !in groups ==> RuleMatches(masks, port, g, x)
    ensures Whole(masks, port, r) <==> Whole(masks, port, groups)
  {
    hide RuleMatches;
    if Whole(masks, port, r) {
      forall i, x | 0 <= i < |groups| && x in groups[i] ensures RuleMatches(masks, port, groups[i], x) {
        assert groups[i] in groups;
        var l :| 0 <= l < |r| && r[l] == groups[i];
      }
    }
  }

  // ---------- A rejected merge ----------

  /** The stored masks after the merge with mask `m`, its undoing with mask `h`, and the new singleton. */
  ghost function MasksAfterReject(masks: MaskMap, port: PhysPort, g: Group, m: Word, kept: Group, h: Word, id: Id, full: Word): MaskMap {
    WithMask(WithMask(WithMask(masks, port, g, m), port, kept, h), port, [id], full)
  }

  lemma MaskAfterReject(masks: MaskMap, port: PhysPort, g: Group, m: Word, kept: Group, h: Word, id: Id, full: Word, x: Id)
    requires x in g <==> x in kept || x == id
    ensures MaskOf(MasksAfterReject(masks, port, g, m, kept, h, id, full), port, x) ==
            if x == id then full else if x in kept then h else MaskOf(masks, port, x)
  {
    hide WithMask, MaskOf;
    MaskOfWith(masks, port, g, m, x);
    MaskOfWith(WithMask(masks, port, g, m), port, kept, h, x);
    MaskOfWith(WithMask(WithMask(masks, port, g, m), port, kept, h), port, [id], full, x);
  }

  /** After a rejected merge has been undone only the mask of the rejected id has changed among those used by rules. */
  lemma UndoneMasks(pb: Problem, port: PhysPort, groups: seq<Group>, masks: MaskMap, i: nat, id: Id)
    requires pb.numMaskBits <= 32 && PortOk(pb, port, groups, masks)
    requires FindGroup(pb, port, groups, id, 0) == Some(i)
    ensures var g, n := Insert(groups[i], id), pb.numMaskBits;
            MasksButOne(pb, port, groups, masks,
                        MasksAfterReject(masks, port, g, GroupMask(g, n), groups[i], GroupMask(groups[i], n), id, GroupMask([id], n)), id)
  {
    var g, n := Insert(groups[i], id), pb.numMaskBits;
    SingleMaskIsFull(id, n);
    hide GroupMask, FullMask, PortOk, FindGroup, MasksAfterReject, MaskOf;
    var masks' := MasksAfterReject(masks, port, g, GroupMask(g, n), groups[i], GroupMask(groups[i], n), id, GroupMask([id], n));
    MaskAfterReject(masks, port, g, GroupMask(g, n), groups[i], GroupMask(groups[i], n), id, GroupMask([id], n), id);
    forall j | 0 <= j < |groups| && First(groups[j]) != id
      ensures MaskOf(masks', port, First(groups[j])) == MaskOf(masks, port, First(groups[j]))
    {
      MaskAfterReject(masks, port, g, GroupMask(g, n), groups[i], GroupMask(groups[i], n), id, GroupMask([id], n), First(groups[j]));
      if First(groups[j]) in groups[i] { FirstKeepsMask(pb, port, groups, masks, i, j, id); }
    }
  }

  /** The group found for `id` is the only one of its destinations, or its first id is alone. */
  lemma FirstKeepsMask(pb: Problem, port: PhysPort, groups: seq<Group>, masks: MaskMap, i: nat, j: nat, id: Id)
    requires pb.numMaskBits <= 32 && PortOk(pb, port, groups, masks)
    requires FindGroup(pb, port, groups, id, 0) == Some(i) && j < |groups| && First(groups[j]) in groups[i]
    ensures MaskOf(masks, port, First(groups[j])) == GroupMask(groups[i], pb.numMaskBits)
  {
    hide Distinguishable, FirstWins, Members, GroupMask, FullMask, MaskOf;
    var y := First(groups[j]);
    assert Alike(pb, port, groups[i]) && Alike(pb, port, groups[j]);
    assert MaskKept(pb, port, groups, masks, groups[j]) && MaskKept(pb, port, groups, masks, groups[i]);
    assert y in groups[j];
    if j != i && groups[i] != [y] {
      FoundIsFirst(pb, port, groups, id, i, j);
      SortedBySize(groups, i, j);
      assert false;
    }
    SingleMaskIsFull(y, pb.numMaskBits);
    if MaskOf(masks, port, y) != GroupMask(groups[i], pb.numMaskBits) && groups[i] != [y] {
      var l :| 0 <= l < |groups| && groups[l] == [y];
      FoundIsFirst(pb, port, groups, id, i, l);
      SortedBySize(groups, i, l);
      assert false;
    }
  }

  lemma FoundIsFirst(pb: Problem, port: PhysPort, groups: seq<Group>, id: Id, i: nat, j: nat)
    requires FindGroup(pb, port, groups, id, 0) == Some(i) && j < |groups|
    requires pb.DestsOf(port, First(groups[j])) == pb.DestsOf(port, First(groups[i]))
    ensures i <= j
  {
  }

  // ---------- An accepted merge ----------

  lemma InsertedAlike(pb: Problem, port: PhysPort, g: Group, id: Id)
    requires Alike(pb, port, g) && pb.DestsOf(port, First(g)) == pb.DestsOf(port, id)
    ensures Alike(pb, port, Insert(g, id))
  {
    InsertKeepsOrder(g, id);
    assert First(Insert(g, id)) in Insert(g, id);
  }

  /** The first id of another group is not in a group whose merge is accepted, and its rule has its own mask. */
  lemma OthersWhole(pb: Problem, port: PhysPort, groups: seq<Group>, masks: MaskMap, i: nat, id: Id, j: nat)
    requires pb.numMaskBits <= 32 && PortOk(pb, port, groups, masks) && i < |groups| && j < |groups| && i != j
    requires var g := Insert(groups[i], id);
             RulesOrdered(WithMask(masks, port, g, GroupMask(g, pb.numMaskBits)), port, SortBySize(groups[i := g]))
    ensures First(groups[j]) !in Insert(groups[i], id)
    ensures MaskOf(masks, port, First(groups[j])) == GroupMask(groups[j], pb.numMaskBits)
  {
    hide GroupMask, WithMask, FullMask, Sorted, Members, SharedIsSingle, Distinguishable, FirstWins, SortBySize, RulesOrdered;
    var g, n := Insert(groups[i], id), pb.numMaskBits;
    var replaced, masks' := groups[i := g], WithMask(masks, port, g, GroupMask(g, n));
    var y := First(groups[j]);
    assert Alike(pb, port, groups[j]) && MaskKept(pb, port, groups, masks, groups[j]);
    assert y in replaced[j] && RuleMatches(masks', port, replaced[j], y);
    MaskOfWith(masks, port, g, GroupMask(g, n), y);
    MaskOfWith(masks, port, g, GroupMask(g, n), First(g));
    assert First(g) in g;
    hide MaskOf;
    if y in g {
      OwnRuleMatches(g, n, y);
      assert RuleMatches(masks', port, replaced[i], y);
      CaughtOnce(masks', port, replaced, i, j, y);
      assert false;
    }
    if groups[j] == [y] {
      SingleMaskIsFull(y, n);
    } else if MaskOf(masks, port, y) != GroupMask(groups[j], n) {
      var l :| 0 <= l < |groups| && groups[l] == [y];
      assert l != i && l != j && y in replaced[l] && RuleMatches(masks', port, replaced[l], y);
      CaughtOnce(masks', port, replaced, l, j, y);
      assert false;
    }
  }

  /** When a merge is accepted all rules were whole, and are. */
  lemma MergeMasks(pb: Problem, port: PhysPort, groups: seq<Group>, masks: MaskMap, i: nat, id: Id)
    requires pb.numMaskBits <= 32 && PortOk(pb, port, groups, masks) && i < |groups|
    requires var g := Insert(groups[i], id);
             RulesOrdered(WithMask(masks, port, g, GroupMask(g, pb.numMaskBits)), port, SortBySize(groups[i := g]))
    ensures OwnMasks(pb, port, groups, masks)
    ensures var g := Insert(groups[i], id);
            OwnMasks(pb, port, groups[i := g], WithMask(masks, port, g, GroupMask(g, pb.numMaskBits)))
  {
    hide GroupMask, WithMask, FullMask, SortBySize, RulesOrdered, PortOk, MaskOf;
    var g, n := Insert(groups[i], id), pb.numMaskBits;
    var masks' := WithMask(masks, port, g, GroupMask(g, n));
    forall j | 0 <= j < |groups| && j != i
      ensures MaskOf(masks, port, First(groups[j])) == GroupMask(groups[j], n)
      ensures MaskOf(masks', port, First(groups[j])) == GroupMask(groups[j], n)
    {
      OthersWhole(pb, port, groups, masks, i, id, j);
      MaskOfWith(masks, port, g, GroupMask(g, n), First(groups[j]));
    }
    MaskOfWith(masks, port, g, GroupMask(g, n), First(g));
    assert First(g) in g;
    MergedGroupWhole(pb, port, groups, masks, i, id);
  }

  lemma MergedGroupWhole(pb: Problem, port: PhysPort, groups: seq<Group>, masks: MaskMap, i: nat, id: Id)
    requires pb.numMaskBits <= 32 && PortOk(pb, port, groups, masks) && i < |groups|
    requires var g := Insert(groups[i], id);
             RulesOrdered(WithMask(masks, port, g, GroupMask(g, pb.numMaskBits)), port, SortBySize(groups[i := g]))
    ensures MaskOf(masks, port, First(groups[i])) == GroupMask(groups[i], pb.numMaskBits)
  {
    hide GroupMask, WithMask, FullMask, SortBySize, RulesOrdered, MaskOf, Sorted, Members, SharedIsSingle, Distinguishable, FirstWins;
    var y := First(groups[i]);
    assert Alike(pb, port, groups[i]) && MaskKept(pb, port, groups, masks, groups[i]);
    SingleMaskIsFull(y, pb.numMaskBits);
    if MaskOf(masks, port, y) != GroupMask(groups[i], pb.numMaskBits) {
      var l :| 0 <= l < |groups| && groups[l] == [y];
      OthersWhole(pb, port, groups, masks, i, id, l);
      assert false;
    }
  }

  /** Sorting changes nothing that is said of each group alone. */
  lemma SortedStructure(pb: Problem, port: PhysPort, groups: seq<Group>, masks: MaskMap)
    requires pb.numMaskBits <= 32 && AllAlike(pb, port, groups) && Members(pb, port, groups) && OwnMasks(pb, port, groups, masks)
    ensures var r := SortBySize(groups);
            Sorted(r) && AllAlike(pb, port, r) && Members(pb, port, r) && OwnMasks(pb, port, r, masks)
  {
    SortBySizeSorts(groups);
    SortedMembers(groups);
    hide GroupMask, SortBySize, Sorted, MaskOf, Alike;
    var r := SortBySize(groups);
    forall j | 0 <= j < |r|
      ensures Alike(pb, port, r[j]) && MaskOf(masks, port, First(r[j])) == GroupMask(r[j], pb.numMaskBits)
      ensures forall x :: x in r[j] ==> PhysPortAndID(port, x) in pb.workList
    {
      var l :| 0 <= l < |groups| && groups[l] == r[j];
    }
  }

  lemma ReplacedStructure(pb: Problem, port: PhysPort, groups: seq<Group>, i: nat, id: Id)
    requires AllAlike(pb, port, groups) && Members(pb, port, groups) && i < |groups|
    requires PhysPortAndID(port, id) in pb.workList && pb.DestsOf(port, First(groups[i])) == pb.DestsOf(port, id)
    ensures var replaced := groups[i := Insert(groups[i], id)]; AllAlike(pb, port, replaced) && Members(pb, port, replaced)
  {
    var replaced := groups[i := Insert(groups[i], id)];
    forall j | 0 <= j < |replaced| ensures Alike(pb, port, replaced[j]) {
      assert Alike(pb, port, groups[j]);
      if j == i { InsertedAlike(pb, port, groups[i], id); }
    }
  }

  lemma MergeOk(pb: Problem, port: PhysPort, groups: seq<Group>, masks: MaskMap, i: nat, id: Id)
    requires pb.numMaskBits <= 32 && PortOk(pb, port, groups, masks) && i < |groups|
    requires PhysPortAndID(port, id) in pb.workList
    requires pb.DestsOf(port, First(groups[i])) == pb.DestsOf(port, id)
    requires var g := Insert(groups[i], id);
             RulesOrdered(WithMask(masks, port, g, GroupMask(g, pb.numMaskBits)), port, SortBySize(groups[i := g]))
    ensures Whole(masks, port, groups)
    ensures var g := Insert(groups[i], id);
            var r, masks' := SortBySize(groups[i := g]), WithMask(masks, port, g, GroupMask(g, pb.numMaskBits));
            PortOk(pb, port, r, masks') && Whole(masks', port, r) && Separate(r, pb.numMaskBits)
  {
    hide GroupMask, WithMask, SortBySize, RulesOrdered, Sorted, SharedIsSingle, Distinguishable, FirstWins, MaskOf, Separate,
      Insert, AllAlike, Members, Whole;
    var g, n := Insert(groups[i], id), pb.numMaskBits;
    var replaced := groups[i := g];
    var r, masks' := SortBySize(replaced), WithMask(masks, port, g, GroupMask(g, n));
    MergeMasks(pb, port, groups, masks, i, id);
    ReplacedStructure(pb, port, groups, i, id);
    SortedStructure(pb, port, replaced, masks');
    NonEmptyGroups(pb, port, groups);
    NonEmptyGroups(pb, port, r);
    OwnMasksKept(pb, port, r, masks');
    WholeIsOwnMasks(pb, port, groups, masks);
    WholeIsOwnMasks(pb, port, r, masks');
    OrderedIsSeparate(pb, port, r, masks');
    SeparateShareNothing(pb, port, r);
  }

  lemma OwnMasksKept(pb: Problem, port: PhysPort, groups: seq<Group>, masks: MaskMap)
    requires pb.numMaskBits <= 32 && OwnMasks(pb, port, groups, masks)
    ensures MasksKept(pb, port, groups, masks)
  {
    hide GroupMask, FullMask, MaskOf;
  }

  lemma NonEmptyGroups(pb: Problem, port: PhysPort, groups: seq<Group>)
    requires AllAlike(pb, port, groups)
    ensures NonEmpty(groups)
  {
    forall i | 0 <= i < |groups| ensures groups[i] != [] { assert Alike(pb, port, groups[i]); }
  }

  // ---------- The invariant of the table, at every step ----------

  ghost predicate TableOk(pb: Problem, t: RuleTable)
    requires pb.numMaskBits <= 32
  {
    forall p :: PortOk(pb, p, t.GroupsOf(p), t.masks)
  }

  /** The groups of a port hold all of its ids that have been seen. */
  ghost predicate Covered(t: RuleTable, seen: seq<PhysPortAndID>) {
    forall s :: s in seen ==> InSomeGroup(t.GroupsOf(s.physPort), s.id)
  }

  ghost predicate InSomeGroup(groups: seq<Group>, id: Id) {
    exists i :: 0 <= i < |groups| && id in groups[i]
  }

  /** Every rule of the table catches all ids of its group. */
  ghost predicate AllWhole(t: RuleTable) {
    forall p :: Whole(t.masks, p, t.GroupsOf(p))
  }

  lemma SingletonMasks(pb: Problem, port: PhysPort, groups: seq<Group>, masks: MaskMap, id: Id)
    requires pb.numMaskBits <= 32
    ensures MasksButOne(pb, port, groups, masks, WithMask(masks, port, [id], GroupMask([id], pb.numMaskBits)), id)
  {
    SingleMaskIsFull(id, pb.numMaskBits);
    hide GroupMask, WithMask, FullMask, MaskOf;
    var masks' := WithMask(masks, port, [id], GroupMask([id], pb.numMaskBits));
    MaskOfWith(masks, port, [id], GroupMask([id], pb.numMaskBits), id);
    forall j | 0 <= j < |groups| && First(groups[j]) != id
      ensures MaskOf(masks', port, First(groups[j])) == MaskOf(masks, port, First(groups[j]))
    {
      MaskOfWith(masks, port, [id], GroupMask([id], pb.numMaskBits), First(groups[j]));
    }
  }

  lemma NotFoundNotLeading(pb: Problem, port: PhysPort, groups: seq<Group>, id: Id)
    requires pb.numMaskBits <= 32 && FindGroup(pb, port, groups, id, 0) == None
    ensures !Leads(groups, id, pb.numMaskBits)
  {
  }

  /** The groups and masks of the slave's port after the slave has been placed, on every branch. */
  lemma StepOnPort(t: RuleTable, pb: Problem, slave: PhysPortAndID)
    requires pb.numMaskBits <= 32 && slave in pb.workList
    requires PortOk(pb, slave.physPort, t.GroupsOf(slave.physPort), t.masks)
    ensures var r := Step(t, pb, slave);
            PortOk(pb, slave.physPort, r.GroupsOf(slave.physPort), r.masks) &&
            (Whole(r.masks, slave.physPort, r.GroupsOf(slave.physPort)) <==>
             Whole(t.masks, slave.physPort, t.GroupsOf(slave.physPort)) && !Narrows(t, pb, slave))
  {
    hide PortOk, GroupMask, WithMask, SortBySize, RulesOrdered, Whole, Leads, MasksButOne, FindGroup;
    var port, id, n := slave.physPort, slave.id, pb.numMaskBits;
    assert slave == PhysPortAndID(port, id);
    var groups := t.GroupsOf(port);
    match FindGroup(pb, port, groups, id, 0) {
      case None =>
        NotFoundNotLeading(pb, port, groups, id);
        SingletonMasks(pb, port, groups, t.masks, id);
        var masks' := WithMask(t.masks, port, [id], GroupMask([id], n));
        AddSingletonOk(pb, port, groups, t.masks, masks', id);
        AddSingletonWhole(pb, port, groups, t.masks, masks', id);
      case Some(i) =>
        var merged := Merged(t, port, i, id, n);
        if RulesOrdered(merged.masks, port, merged.groups[port]) {
          MergeOk(pb, port, groups, t.masks, i, id);
        } else {
          UndoneMasks(pb, port, groups, t.masks, i, id);
          var undone := WithMask(merged.masks, port, groups[i], GroupMask(groups[i], n));
          var masks' := WithMask(undone, port, [id], GroupMask([id], n));
          AddSingletonOk(pb, port, groups, t.masks, masks', id);
          AddSingletonWhole(pb, port, groups, t.masks, masks', id);
        }
    }
  }

  lemma OtherMasks(masks: MaskMap, port: PhysPort, g: Group, mask: Word, p: PhysPort)
    requires p != port
    ensures forall x :: MaskOf(WithMask(masks, port, g, mask), p, x) == MaskOf(masks, p, x)
  {
    forall x ensures MaskOf(WithMask(masks, port, g, mask), p, x) == MaskOf(masks, p, x) {
      assert PhysPortAndID(p, x).physPort == p;
    }
  }

  lemma SameMasksSameRules(pb: Problem, p: PhysPort, groups: seq<Group>, masks: MaskMap, masks': MaskMap)
    requires pb.numMaskBits <= 32 && PortOk(pb, p, groups, masks)
    requires forall x :: MaskOf(masks', p, x) == MaskOf(masks, p, x)
    ensures PortOk(pb, p, groups, masks') && (Whole(masks', p, groups) <==> Whole(masks, p, groups))
  {
    hide GroupMask, FullMask, Distinguishable, MaskOf;
    forall i | 0 <= i < |groups| ensures MaskKept(pb, p, groups, masks', groups[i]) {
      assert MaskKept(pb, p, groups, masks, groups[i]);
    }
  }

  /** Placing a slave leaves the groups and masks of all other ports alone. */
  lemma StepOnOtherPort(t: RuleTable, pb: Problem, slave: PhysPortAndID, p: PhysPort)
    requires pb.numMaskBits <= 32 && p != slave.physPort
    ensures var r := Step(t, pb, slave);
            r.GroupsOf(p) == t.GroupsOf(p) && forall x :: MaskOf(r.masks, p, x) == MaskOf(t.masks, p, x)
  {
    hide GroupMask, WithMask, SortBySize, RulesOrdered, MaskOf;
    var port, id, n := slave.physPort, slave.id, pb.numMaskBits;
    match FindGroup(pb, port, t.GroupsOf(port), id, 0) {
      case None =>
        OtherMasks(t.masks, port, [id], GroupMask([id], n), p);
      case Some(i) =>
        var g, h := Insert(t.GroupsOf(port)[i], id), t.GroupsOf(port)[i];
        OtherMasks(t.masks, port, g, GroupMask(g, n), p);
        var merged := WithMask(t.masks, port, g, GroupMask(g, n));
        OtherMasks(merged, port, h, GroupMask(h, n), p);
        OtherMasks(WithMask(merged, port, h, GroupMask(h, n)), port, [id], GroupMask([id], n), p);
    }
  }

  /** Placing a slave adds its id to the groups of its port and drops none. */
  lemma StepCovers(t: RuleTable, pb: Problem, slave: PhysPortAndID, x: Id)
    requires pb.numMaskBits <= 32
    requires x == slave.id || InSomeGroup(t.GroupsOf(slave.physPort), x)
    ensures InSomeGroup(Step(t, pb, slave).GroupsOf(slave.physPort), x)
  {
    hide GroupMask;
    hide WithMask;
    hide SortBySize;
    hide RulesOrdered;
    var port, id := slave.physPort, slave.id;
    var groups := t.GroupsOf(port);
    SortedMembers(groups + [[id]]);
    if x == id {
      assert (groups + [[id]])[|groups|] == [id];
    } else {
      var l :| 0 <= l < |groups| && x in groups[l];
      assert (groups + [[id]])[l] == groups[l];
    }
    match FindGroup(pb, port, groups, id, 0) {
      case None =>
      case Some(i) =>
        var replaced := groups[i := Insert(groups[i], id)];
        SortedMembers(replaced);
        if x == id {
          assert x in replaced[i];
        } else {
          var l :| 0 <= l < |groups| && x in groups[l];
          assert x in replaced[l];
        }
    }
  }

  /** A step keeps the invariant, and keeps all rules whole unless it narrows one. */
  lemma NextTable(pb: Problem, t: RuleTable, slave: PhysPortAndID)
    requires pb.numMaskBits <= 32 && slave in pb.workList && TableOk(pb, t)
    ensures TableOk(pb, Step(t, pb, slave))
    ensures AllWhole(Step(t, pb, slave)) <==> AllWhole(t) && !Narrows(t, pb, slave)
  {
    hide Step, PortOk, Narrows, Whole;
    var r := Step(t, pb, slave);
    forall p
      ensures PortOk(pb, p, r.GroupsOf(p), r.masks)
      ensures p != slave.physPort ==> (Whole(r.masks, p, r.GroupsOf(p)) <==> Whole(t.masks, p, t.GroupsOf(p)))
    {
      assert PortOk(pb, p, t.GroupsOf(p), t.masks);
      if p == slave.physPort {
        StepOnPort(t, pb, slave);
      } else {
        StepOnOtherPort(t, pb, slave, p);
        SameMasksSameRules(pb, p, t.GroupsOf(p), t.masks, r.masks);
      }
    }
    assert PortOk(pb, slave.physPort, t.GroupsOf(slave.physPort), t.masks);
    StepOnPort(t, pb, slave);
  }

  lemma NextCovered(pb: Problem, t: RuleTable, slave: PhysPortAndID, seen: seq<PhysPortAndID>)
    requires pb.numMaskBits <= 32 && Covered(t, seen)
    ensures Covered(Step(t, pb, slave), seen + [slave])
  {
    hide Step, InSomeGroup, MaskOf;
    var r := Step(t, pb, slave);
    forall s | s in seen + [slave] ensures InSomeGroup(r.GroupsOf(s.physPort), s.id) {
      if s.physPort == slave.physPort {
        StepCovers(t, pb, slave, s.id);
      } else {
        StepOnOtherPort(t, pb, slave, s.physPort);
      }
    }
  }

  lemma EmptyTableOk(pb: Problem)
    requires pb.numMaskBits <= 32
    ensures TableOk(pb, RuleTable(map[], map[])) && Covered(RuleTable(map[], map[]), []) && AllWhole(RuleTable(map[], map[]))
  {
    hide GroupMask;
    forall p ensures PortOk(pb, p, [], map[]) && Whole(map[], p, []) {}
  }

  /** The invariant holds after every step of every work list: merged, rejected and undone, or a new singleton. */
  lemma {:induction false} CompileOk(pb: Problem, k: nat)
    requires pb.numMaskBits <= 32 && k <= |pb.workList|
    ensures TableOk(pb, Compile(pb, k)) && Covered(Compile(pb, k), pb.workList[..k])
  {
    hide Step, TableOk, Covered, AllWhole, Narrows;
    if k == 0 {
      EmptyTableOk(pb);
    } else {
      var t, slave := Compile(pb, k - 1), pb.workList[k - 1];
      CompileOk(pb, k - 1);
      NextTable(pb, t, slave);
      NextCovered(pb, t, slave, pb.workList[..k - 1]);
      assert pb.workList[..k] == pb.workList[..k - 1] + [slave];
    }
  }

  /** All rules catch all ids of their groups exactly when no slave has taken the branch that narrows a rule. */
  lemma {:induction false} WholeUnlessNarrowed(pb: Problem, k: nat)
    requires pb.numMaskBits <= 32 && k <= |pb.workList|
    ensures AllWhole(Compile(pb, k)) <==> NeverNarrows(pb, k)
  {
    hide Step, TableOk, AllWhole, Narrows, Covered;
    if k == 0 {
      EmptyTableOk(pb);
    } else {
      WholeUnlessNarrowed(pb, k - 1);
      CompileOk(pb, k - 1);
      NextTable(pb, Compile(pb, k - 1), pb.workList[k - 1]);
    }
  }

  // ---------- Looking an id up in the emitted rules ----------

  /** The index of the first rule, from `from` on, that matches `id`. */
  function Lookup(masks: MaskMap, port: PhysPort, groups: seq<Group>, id: Id, from: nat): (r: Option<nat>)
    requires from <= |groups|
    ensures r.Some? ==> from <= r.value < |groups| && RuleMatches(masks, port, groups[r.value], id) &&
                        forall i :: from <= i < r.value ==> !RuleMatches(masks, port, groups[i], id)
    ensures r.None? ==> forall i :: from <= i < |groups| ==> !RuleMatches(masks, port, groups[i], id)
    decreases |groups| - from
  {
    if from == |groups| then None
    else if RuleMatches(masks, port, groups[from], id) then Some(from)
    else Lookup(masks, port, groups, id, from + 1)
  }

  /** The destinations that the switch gives to packet `id` on `port`: those of the rule that catches it. */
  ghost function RoutedTo(pb: Problem, t: RuleTable, port: PhysPort, id: Id): Option<set<PhysPort>> {
    match Lookup(t.masks, port, t.GroupsOf(port), id, 0)
    case None => None
    case Some(i) => Some(pb.DestsOf(port, First(t.GroupsOf(port)[i])))
  }

  /** First-match evaluation of the rules equals the flow map on every routed id. */
  ghost predicate MeaningPreserved(pb: Problem, t: RuleTable) {
    forall s :: s in pb.workList ==> RoutedTo(pb, t, s.physPort, s.id) == Some(pb.DestsOf(s.physPort, s.id))
  }

  /** The rule of a group that holds `id` catches it. */
  ghost predicate CaughtByOwn(t: RuleTable, port: PhysPort, id: Id) {
    exists j :: 0 <= j < |t.GroupsOf(port)| && id in t.GroupsOf(port)[j] && RuleMatches(t.masks, port, t.GroupsOf(port)[j], id)
  }

  /** The emitted rule of a group catches no more than the mask of the group would. */
  lemma StoredRuleIsNarrower(pb: Problem, port: PhysPort, groups: seq<Group>, masks: MaskMap, i: nat, x: Id)
    requires pb.numMaskBits <= 32 && PortOk(pb, port, groups, masks) && i < |groups|
    requires RuleMatches(masks, port, groups[i], x)
    ensures groups[i] != [] && Matches(groups[i], pb.numMaskBits, x)
  {
    hide GroupMask, FullMask, And, MaskOf;
    assert Alike(pb, port, groups[i]);
    assert MaskKept(pb, port, groups, masks, groups[i]);
    var y := First(groups[i]);
    if MaskOf(masks, port, y) != GroupMask(groups[i], pb.numMaskBits) {
      assert SameLowBits(x, y, pb.numMaskBits);
      assert y in groups[i];
      RuleSeesLowBitsOnly(groups[i], pb.numMaskBits, x, y);
    }
  }

  /** An id that is caught by a rule of its own goes to its destinations, even if other rules have been narrowed. */
  lemma OwnRuleIsEnough(pb: Problem, s: PhysPortAndID)
    requires pb.WellPosed() && Distinguishable(pb)
    requires CaughtByOwn(Compile(pb, |pb.workList|), s.physPort, s.id)
    ensures RoutedTo(pb, Compile(pb, |pb.workList|), s.physPort, s.id) == Some(pb.DestsOf(s.physPort, s.id))
  {
    hide Compile;
    var t := Compile(pb, |pb.workList|);
    var port, groups, id := s.physPort, t.GroupsOf(s.physPort), s.id;
    CompileOk(pb, |pb.workList|);
    assert PortOk(pb, port, groups, t.masks);
    assert s == PhysPortAndID(port, id);
    var j :| 0 <= j < |groups| && id in groups[j] && RuleMatches(t.masks, port, groups[j], id);
    assert Alike(pb, port, groups[j]);
    var i := Lookup(t.masks, port, groups, id, 0).value;
    hide GroupMask, RuleMatches;
    StoredRuleIsNarrower(pb, port, groups, t.masks, i, id);
    assert i <= j;
    if i == j { assert pb.DestsOf(port, id) == pb.DestsOf(port, First(groups[i])); }
  }

  lemma RuleSeesStoredLowBits(pb: Problem, port: PhysPort, groups: seq<Group>, masks: MaskMap, i: nat, x: Id, y: Id)
    requires pb.numMaskBits <= 32 && PortOk(pb, port, groups, masks) && i < |groups|
    requires SameLowBits(x, y, pb.numMaskBits)
    ensures RuleMatches(masks, port, groups[i], x) <==> RuleMatches(masks, port, groups[i], y)
  {
    hide GroupMask, FullMask, And, MaskOf;
    assert Alike(pb, port, groups[i]);
    assert MaskKept(pb, port, groups, masks, groups[i]);
    RuleSeesLowBitsOnly(groups[i], pb.numMaskBits, x, y);
  }

  lemma LookupSeesLowBitsOnly(pb: Problem, port: PhysPort, groups: seq<Group>, masks: MaskMap, x: Id, y: Id, from: nat)
    requires pb.numMaskBits <= 32 && PortOk(pb, port, groups, masks)
    requires SameLowBits(x, y, pb.numMaskBits) && from <= |groups|
    ensures Lookup(masks, port, groups, x, from) == Lookup(masks, port, groups, y, from)
    decreases |groups| - from
  {
    hide PortOk, GroupMask, RuleMatches;
    if from < |groups| {
      RuleSeesStoredLowBits(pb, port, groups, masks, from, x, y);
      LookupSeesLowBitsOnly(pb, port, groups, masks, x, y, from + 1);
    }
  }

  lemma SameRoute(pb: Problem, t: RuleTable, port: PhysPort, x: Id, y: Id)
    requires pb.numMaskBits <= 32 && TableOk(pb, t) && SameLowBits(x, y, pb.numMaskBits)
    ensures RoutedTo(pb, t, port, x) == RoutedTo(pb, t, port, y)
  {
    assert PortOk(pb, port, t.GroupsOf(port), t.masks);
    LookupSeesLowBitsOnly(pb, port, t.GroupsOf(port), t.masks, x, y, 0);
  }

  lemma WholeCatches(t: RuleTable, s: PhysPortAndID)
    requires AllWhole(t) && InSomeGroup(t.GroupsOf(s.physPort), s.id)
    ensures CaughtByOwn(t, s.physPort, s.id)
  {
    hide RuleMatches;
    assert Whole(t.masks, s.physPort, t.GroupsOf(s.physPort));
  }

  /** Whatever happened on the way, rules that mean the flow map need ids that can be told apart. */
  lemma MeaningNeedsDistinguishable(pb: Problem)
    requires pb.WellPosed() && MeaningPreserved(pb, Compile(pb, |pb.workList|))
    ensures Distinguishable(pb)
  {
    hide Compile, RoutedTo, TableOk;
    CompileOk(pb, |pb.workList|);
    forall s, u | s in pb.workList && u in pb.workList && s.physPort == u.physPort && SameLowBits(s.id, u.id, pb.numMaskBits)
      ensures pb.DestsOf(s.physPort, s.id) == pb.DestsOf(u.physPort, u.id)
    {
      SameRoute(pb, Compile(pb, |pb.workList|), s.physPort, s.id, u.id);
    }
  }

  /**
   * For every work list: the rules mean the flow map exactly when ids that cannot be told apart have the
   * same destinations and no id that the rules of its own groups have lost is caught by a wrong rule or by none.
   */
  lemma MeaningInGeneral(pb: Problem)
    requires pb.WellPosed()
    ensures var t := Compile(pb, |pb.workList|);
            MeaningPreserved(pb, t) <==>
            Distinguishable(pb) &&
            forall s :: s in pb.workList && !CaughtByOwn(t, s.physPort, s.id) ==>
              RoutedTo(pb, t, s.physPort, s.id) == Some(pb.DestsOf(s.physPort, s.id))
  {
    hide Compile, RoutedTo, CaughtByOwn, Distinguishable;
    var t := Compile(pb, |pb.workList|);
    if MeaningPreserved(pb, t) { MeaningNeedsDistinguishable(pb); }
    if Distinguishable(pb) {
      forall s | s in pb.workList && CaughtByOwn(t, s.physPort, s.id)
        ensures RoutedTo(pb, t, s.physPort, s.id) == Some(pb.DestsOf(s.physPort, s.id))
      {
        OwnRuleIsEnough(pb, s);
      }
    }
  }

  /**
   * As long as no slave takes the branch that narrows a rule, the rules mean the flow map exactly when
   * ids of one port with the same low `numMaskBits` bits have the same destinations.
   */
  lemma FirstMatchMeaning(pb: Problem)
    requires pb.WellPosed() && NeverNarrows(pb, |pb.workList|)
    ensures MeaningPreserved(pb, Compile(pb, |pb.workList|)) <==> Distinguishable(pb)
  {
    hide Compile, NeverNarrows, RoutedTo, CaughtByOwn, TableOk, AllWhole, InSomeGroup, Distinguishable;
    var k := |pb.workList|;
    var t := Compile(pb, k);
    CompileOk(pb, k);
    WholeUnlessNarrowed(pb, k);
    assert pb.workList[..k] == pb.workList;
    forall s | s in pb.workList ensures CaughtByOwn(t, s.physPort, s.id) { WholeCatches(t, s); }
    MeaningInGeneral(pb);
  }
}
