/**
 * Work lists that list slaves more than once, as the caller does for a slave with several destinations:
 * conditions that can be checked before the rules are compiled and under which no rule is narrowed.
 */
module RepeatedSlaves {
  import opened Words
  import opened StreamSwitch
  import opened PacketIds
  import opened GroupOrder
  import opened PacketRules
  import opened PacketRulesMeaning

  // ---------- Conditions on the work list ----------

  /** No other id of the port has the destinations of `id`. */
  ghost predicate Solo(pb: Problem, port: PhysPort, id: Id) {
    forall s :: s in pb.workList && s.physPort == port && pb.DestsOf(port, s.id) == pb.DestsOf(port, id) ==> s.id == id
  }

  /** All ids of the port with the destinations of `x` have bit `i` of `x`. */
  ghost predicate SharedBit(pb: Problem, port: PhysPort, x: Id, i: nat) {
    forall s :: s in pb.workList && s.physPort == port && pb.DestsOf(port, s.id) == pb.DestsOf(port, x) ==>
      (Bit(s.id, i) <==> Bit(x, i))
  }

  /** `y` has all mask bits that the ids with the destinations of `x` share: one rule for all of these would catch it. */
  ghost predicate AgreesWithClass(pb: Problem, port: PhysPort, x: Id, y: Id) {
    forall i: nat :: i < pb.numMaskBits && SharedBit(pb, port, x, i) ==> (Bit(y, i) <==> Bit(x, i))
  }

  /**
   * Rules tell the ids with the destinations of `x` from those with the destinations of `y`. If an id
   * is the only one with its destinations, its rule has all mask bits and comes before that of any
   * larger group; otherwise one rule for all ids of either kind must catch none of the other.
   */
  ghost predicate ToldApart(pb: Problem, port: PhysPort, x: Id, y: Id)
    requires pb.numMaskBits <= 32
  {
    if Solo(pb, port, x) || Solo(pb, port, y) then !SameLowBits(x, y, pb.numMaskBits)
    else !AgreesWithClass(pb, port, x, y) && !AgreesWithClass(pb, port, y, x)
  }

  /** The ids of the port with the destinations `dests` are apart from the others. */
  ghost predicate Apart(pb: Problem, port: PhysPort, dests: set<PhysPort>)
    requires pb.numMaskBits <= 32
  {
    forall s, u :: s in pb.workList && u in pb.workList && s.physPort == port && u.physPort == port
                   && pb.DestsOf(port, s.id) == dests && pb.DestsOf(port, u.id) != dests ==>
      ToldApart(pb, port, s.id, u.id)
  }

  /** Only slaves whose destinations no other id of the port has are listed twice. */
  ghost predicate RepeatsAreSolo(pb: Problem, port: PhysPort) {
    forall i, j :: 0 <= i < j < |pb.workList| && pb.workList[i] == pb.workList[j] && pb.workList[j].physPort == port ==>
      Solo(pb, port, pb.workList[j].id)
  }

  /** Two entries of the port with the same low bits are of ids apart from the others, or one solo slave. */
  ghost predicate RepeatsAreApart(pb: Problem, port: PhysPort)
    requires pb.numMaskBits <= 32
  {
    forall i, j :: 0 <= i < j < |pb.workList| && pb.workList[i].physPort == port && pb.workList[j].physPort == port
                   && SameLowBits(pb.workList[i].id, pb.workList[j].id, pb.numMaskBits) ==>
      Apart(pb, port, pb.DestsOf(port, pb.workList[i].id)) ||
      (pb.workList[i].id == pb.workList[j].id && Solo(pb, port, pb.workList[j].id))
  }

  ghost predicate RepeatsAreHarmless(pb: Problem)
    requires pb.numMaskBits <= 32
  {
    forall port :: RepeatsAreSolo(pb, port) || RepeatsAreApart(pb, port)
  }

  // ---------- Apart classes ----------

  lemma MatchAgreesWithClass(pb: Problem, port: PhysPort, g: Group, y: Id)
    requires pb.numMaskBits <= 32 && Alike(pb, port, g) && Matches(g, pb.numMaskBits, y)
    requires forall x :: x in g ==> PhysPortAndID(port, x) in pb.workList
    ensures AgreesWithClass(pb, port, First(g), y)
  {
    var n := pb.numMaskBits;
    var mask := GroupMask(g, n);
    MaskedEqual(y, First(g), mask);
    hide GroupMask;
    forall i: nat | i < n && SharedBit(pb, port, First(g), i) ensures Bit(y, i) <==> Bit(First(g), i) {
      forall x | x in g ensures Bit(x, i) <==> Bit(First(g), i) {
        assert PhysPortAndID(port, x) in pb.workList && PhysPortAndID(port, x).id == x && PhysPortAndID(port, x).physPort == port;
      }
      GroupMaskBit(g, n, i);
    }
  }

  lemma SameLowBitsAgree(pb: Problem, port: PhysPort, x: Id, y: Id)
    requires pb.numMaskBits <= 32 && SameLowBits(x, y, pb.numMaskBits)
    ensures AgreesWithClass(pb, port, x, y) && AgreesWithClass(pb, port, y, x)
  {
    hide SharedBit;
    MaskedEqual(x, y, FullMask(pb.numMaskBits));
    forall i: nat | i < pb.numMaskBits ensures Bit(y, i) <==> Bit(x, i) {
      OnesBit(pb.numMaskBits, i);
    }
  }

  /** Ids with the same low bits are never told apart. */
  lemma ToldApartByLowBits(pb: Problem, port: PhysPort, x: Id, y: Id)
    requires pb.numMaskBits <= 32 && (ToldApart(pb, port, x, y) || ToldApart(pb, port, y, x))
    ensures !SameLowBits(x, y, pb.numMaskBits)
  {
    hide AgreesWithClass, Solo;
    if SameLowBits(x, y, pb.numMaskBits) { SameLowBitsAgree(pb, port, x, y); }
  }

  /** When a group apart from the others and another one are in order, the rule of the first catches no id of the second. */
  lemma ApartRules(pb: Problem, port: PhysPort, g: Group, h: Group, y: Id)
    requires pb.numMaskBits <= 32 && Alike(pb, port, g) && Alike(pb, port, h) && y in h && |g| <= |h|
    requires forall x :: x in g || x in h ==> PhysPortAndID(port, x) in pb.workList
    requires pb.DestsOf(port, First(g)) != pb.DestsOf(port, First(h))
    requires Apart(pb, port, pb.DestsOf(port, First(g))) || Apart(pb, port, pb.DestsOf(port, First(h)))
    ensures !Matches(g, pb.numMaskBits, y)
  {
    hide Matches, AgreesWithClass, SameLowBits, Solo, ToldApart;
    var x := First(g);
    var s, u := PhysPortAndID(port, x), PhysPortAndID(port, y);
    assert x in g && s in pb.workList && u in pb.workList;
    assert pb.DestsOf(port, s.id) != pb.DestsOf(port, u.id);
    assert ToldApart(pb, port, x, y) || ToldApart(pb, port, y, x);
    hide Apart;
    if |g| == 1 {
      assert g == [x];
      SingletonRule(x, pb.numMaskBits, y);
      ToldApartByLowBits(pb, port, y, x);
    } else {
      LargeIsNotSolo(pb, port, g, x);
      LargeIsNotSolo(pb, port, h, y);
      if Matches(g, pb.numMaskBits, y) {
        MatchAgreesWithClass(pb, port, g, y);
        ToldByClass(pb, port, x, y);
        assert false;
      }
    }
  }

  lemma ToldByClass(pb: Problem, port: PhysPort, x: Id, y: Id)
    requires pb.numMaskBits <= 32 && (ToldApart(pb, port, x, y) || ToldApart(pb, port, y, x))
    requires !Solo(pb, port, x) && !Solo(pb, port, y)
    ensures !AgreesWithClass(pb, port, x, y)
  {
  }

  lemma LargeIsNotSolo(pb: Problem, port: PhysPort, g: Group, x: Id)
    requires Alike(pb, port, g) && |g| > 1 && x in g && forall y :: y in g ==> PhysPortAndID(port, y) in pb.workList
    ensures !Solo(pb, port, x)
  {
    if Solo(pb, port, x) {
      SoloIsAlone(pb, port, g, x);
      assert false;
    }
  }

  /** Ids with the same low bits have the same destinations if one of them is apart from the others. */
  lemma ApartTellsDests(pb: Problem, port: PhysPort, x: Id, y: Id)
    requires pb.numMaskBits <= 32 && SameLowBits(x, y, pb.numMaskBits)
    requires PhysPortAndID(port, x) in pb.workList && PhysPortAndID(port, y) in pb.workList
    requires Apart(pb, port, pb.DestsOf(port, x))
    ensures pb.DestsOf(port, x) == pb.DestsOf(port, y)
  {
    hide ToldApart, SameLowBits;
    var s, u := PhysPortAndID(port, x), PhysPortAndID(port, y);
    assert s.id == x && u.id == y && s.physPort == port && u.physPort == port;
    if pb.DestsOf(port, x) != pb.DestsOf(port, y) {
      ToldApartByLowBits(pb, port, x, y);
      assert false;
    }
  }

  // ---------- The stronger invariant of a port ----------

  /** Every id of a group has the mask of the group. */
  ghost predicate MasksAgree(pb: Problem, port: PhysPort, groups: seq<Group>, masks: MaskMap)
    requires pb.numMaskBits <= 32
  {
    forall i, x :: 0 <= i < |groups| && x in groups[i] ==> MaskOf(masks, port, x) == GroupMask(groups[i], pb.numMaskBits)
  }

  /** Destinations that are apart from the others have only one group. */
  ghost predicate ApartTogether(pb: Problem, port: PhysPort, groups: seq<Group>)
    requires pb.numMaskBits <= 32
  {
    forall i, j :: 0 <= i < |groups| && 0 <= j < |groups| && i != j
                   && pb.DestsOf(port, First(groups[i])) == pb.DestsOf(port, First(groups[j])) ==>
      !Apart(pb, port, pb.DestsOf(port, First(groups[i])))
  }

  ghost predicate PortCalm(pb: Problem, port: PhysPort, groups: seq<Group>, masks: MaskMap)
    requires pb.numMaskBits <= 32
  {
    && PortOk(pb, port, groups, masks)
    && MasksAgree(pb, port, groups, masks)
    && Separate(groups, pb.numMaskBits)
    && ApartTogether(pb, port, groups)
  }

  /** What `RepeatsAreApart` says of the next id and the ids that are in groups already. */
  ghost predicate MayFollow(pb: Problem, port: PhysPort, groups: seq<Group>, id: Id)
    requires pb.numMaskBits <= 32
  {
    forall i, z :: 0 <= i < |groups| && z in groups[i] && SameLowBits(z, id, pb.numMaskBits) ==>
      Apart(pb, port, pb.DestsOf(port, z)) || (z == id && Solo(pb, port, id))
  }

  lemma MasksAgreeOwn(pb: Problem, port: PhysPort, groups: seq<Group>, masks: MaskMap)
    requires pb.numMaskBits <= 32 && AllAlike(pb, port, groups) && MasksAgree(pb, port, groups, masks)
    ensures NonEmpty(groups) && OwnMasks(pb, port, groups, masks)
  {
    hide GroupMask, MaskOf;
    forall i | 0 <= i < |groups| ensures groups[i] != [] && First(groups[i]) in groups[i] { assert Alike(pb, port, groups[i]); }
  }

  // ---------- An id that is listed again ----------

  lemma FirstTwoDiffer(g: Group)
    requires Ascending(g) && |g| > 1
    ensures g[0] != g[1]
  {
  }

  lemma SoloIsAlone(pb: Problem, port: PhysPort, g: Group, id: Id)
    requires Alike(pb, port, g) && Solo(pb, port, id)
    requires forall x :: x in g ==> PhysPortAndID(port, x) in pb.workList
    requires pb.DestsOf(port, First(g)) == pb.DestsOf(port, id)
    ensures g == [id]
  {
    forall i | 0 <= i < |g| ensures g[i] == id {
      assert g[i] in g;
      var s := PhysPortAndID(port, g[i]);
      assert s in pb.workList && s.physPort == port && s.id == g[i];
    }
    if |g| > 1 {
      FirstTwoDiffer(g);
      assert false;
    }
  }

  /** The group found for an id that is in some group is the group that holds it. */
  lemma FoundAgain(pb: Problem, port: PhysPort, groups: seq<Group>, masks: MaskMap, i: nat, j: nat, id: Id)
    requires pb.numMaskBits <= 32 && PortCalm(pb, port, groups, masks) && MayFollow(pb, port, groups, id)
    requires i < |groups| && j < |groups| && id in groups[j]
    requires pb.DestsOf(port, First(groups[i])) == pb.DestsOf(port, id)
    ensures id in groups[i]
  {
    hide Separate, MasksAgree, SharedIsSingle, Sorted, FirstWins, Distinguishable, MasksKept, Apart;
    assert Alike(pb, port, groups[i]) && Alike(pb, port, groups[j]);
    if Solo(pb, port, id) {
      SoloIsAlone(pb, port, groups[i], id);
    } else {
      assert SameLowBits(id, id, pb.numMaskBits);
      assert Apart(pb, port, pb.DestsOf(port, id));
    }
  }

  /** Merging an id into the group that holds it is accepted and changes nothing. */
  lemma MergeAgain(pb: Problem, port: PhysPort, groups: seq<Group>, masks: MaskMap, i: nat, id: Id)
    requires pb.numMaskBits <= 32 && PortCalm(pb, port, groups, masks) && i < |groups| && id in groups[i]
    ensures var g := Insert(groups[i], id);
            var masks' := WithMask(masks, port, g, GroupMask(g, pb.numMaskBits));
            g == groups[i] && SortBySize(groups[i := g]) == groups && RulesOrdered(masks', port, groups)
            && forall x :: MaskOf(masks', port, x) == MaskOf(masks, port, x)
  {
    assert Alike(pb, port, groups[i]);
    InsertSize(groups[i], id);
    assert groups[i := groups[i]] == groups;
    SortedIsFixed(groups);
    var n := pb.numMaskBits;
    hide GroupMask, WithMask, MaskOf, RulesOrdered, Sorted, Separate, SharedIsSingle, FirstWins, Distinguishable, MasksKept, SortBySize;
    var masks' := WithMask(masks, port, groups[i], GroupMask(groups[i], n));
    forall x ensures MaskOf(masks', port, x) == MaskOf(masks, port, x) {
      MaskOfWith(masks, port, groups[i], GroupMask(groups[i], n), x);
    }
    MasksAgreeOwn(pb, port, groups, masks);
    OrderedIsSeparate(pb, port, groups, masks');
  }

  lemma SameMasksCalm(pb: Problem, port: PhysPort, groups: seq<Group>, masks: MaskMap, masks': MaskMap)
    requires pb.numMaskBits <= 32 && PortCalm(pb, port, groups, masks)
    requires forall x :: MaskOf(masks', port, x) == MaskOf(masks, port, x)
    ensures PortCalm(pb, port, groups, masks')
  {
    hide GroupMask, MaskOf, PortOk, Separate, ApartTogether;
    SameMasksSameRules(pb, port, groups, masks, masks');
  }

  // ---------- A new id in a group of its own ----------

  /** `id` is in no group, and no id of a group has its low bits. */
  ghost predicate Fresh(groups: seq<Group>, id: Id, numMaskBits: nat)
    requires numMaskBits <= 32
  {
    forall i, z :: 0 <= i < |groups| && z in groups[i] ==> z != id && !SameLowBits(z, id, numMaskBits)
  }

  lemma SingletonSeparate(groups: seq<Group>, k: nat, id: Id, n: nat)
    requires n <= 32 && k <= |groups| && Separate(groups, n) && Fresh(groups, id, n)
    requires forall i :: 0 <= i < k ==> |groups[i]| == 1
    ensures Separate(groups[..k] + [[id]] + groups[k..], n)
  {
    hide GroupMask;
    var r := groups[..k] + [[id]] + groups[k..];
    forall i, j, x | 0 <= i < j < |r| && x in r[j] ensures !Matches(r[i], n, x) {
      var oldI, oldJ := if i < k then i else i - 1, if j < k then j else j - 1;
      if i == k {
        SingletonRule(id, n, x);
        assert x in groups[oldJ];
      } else if j == k {
        var a := groups[i][0];
        assert groups[i] == [a] && x == id;
        SingletonRule(a, n, x);
        assert a in groups[i] && !SameLowBits(a, id, n);
      } else {
        assert r[i] == groups[oldI] && r[j] == groups[oldJ];
      }
    }
  }

  lemma SingletonMasksAgree(pb: Problem, port: PhysPort, groups: seq<Group>, k: nat, masks: MaskMap, masks': MaskMap, id: Id)
    requires pb.numMaskBits <= 32 && k <= |groups|
    requires MasksAgree(pb, port, groups, masks) && MaskOf(masks', port, id) == FullMask(pb.numMaskBits)
    requires forall i, x :: 0 <= i < |groups| && x in groups[i] ==> MaskOf(masks', port, x) == MaskOf(masks, port, x)
    ensures MasksAgree(pb, port, groups[..k] + [[id]] + groups[k..], masks')
  {
    SingleMaskIsFull(id, pb.numMaskBits);
    hide GroupMask, MaskOf, FullMask;
    var r := groups[..k] + [[id]] + groups[k..];
    forall i, x | 0 <= i < |r| && x in r[i] ensures MaskOf(masks', port, x) == GroupMask(r[i], pb.numMaskBits) {
      if i != k { assert r[i] == groups[if i < k then i else i - 1]; }
    }
  }

  lemma SingletonApart(pb: Problem, port: PhysPort, groups: seq<Group>, k: nat, id: Id)
    requires pb.numMaskBits <= 32 && k <= |groups| && ApartTogether(pb, port, groups)
    requires forall j :: 0 <= j < |groups| && pb.DestsOf(port, First(groups[j])) == pb.DestsOf(port, id) ==>
               !Apart(pb, port, pb.DestsOf(port, id))
    ensures ApartTogether(pb, port, groups[..k] + [[id]] + groups[k..])
  {
    hide Apart;
    var r := groups[..k] + [[id]] + groups[k..];
    forall i | 0 <= i < |r| && i != k ensures r[i] == groups[if i < k then i else i - 1] {}
  }

  lemma AddFresh(pb: Problem, port: PhysPort, groups: seq<Group>, masks: MaskMap, masks': MaskMap, id: Id)
    requires pb.numMaskBits <= 32 && PortCalm(pb, port, groups, masks) && Fresh(groups, id, pb.numMaskBits)
    requires PhysPortAndID(port, id) in pb.workList && MaskOf(masks', port, id) == FullMask(pb.numMaskBits)
    requires forall i, x :: 0 <= i < |groups| && x in groups[i] ==> MaskOf(masks', port, x) == MaskOf(masks, port, x)
    requires forall j :: 0 <= j < |groups| && pb.DestsOf(port, First(groups[j])) == pb.DestsOf(port, id) ==>
               !Apart(pb, port, pb.DestsOf(port, id))
    ensures PortCalm(pb, port, SortBySize(groups + [[id]]), masks')
  {
    hide GroupMask, MaskOf, FullMask, Sorted, Separate, SharedIsSingle, FirstWins, Distinguishable, MasksKept, SortBySize,
      Members, MasksAgree, ApartTogether, Fresh, Apart;
    forall i | 0 <= i < |groups| ensures groups[i] != [] && First(groups[i]) in groups[i] { assert Alike(pb, port, groups[i]); }
    AddSingletonOk(pb, port, groups, masks, masks', id);
    var k := SingletonPosition(groups, id);
    SingletonSeparate(groups, k, id, pb.numMaskBits);
    SingletonMasksAgree(pb, port, groups, k, masks, masks', id);
    SingletonApart(pb, port, groups, k, id);
  }

  // ---------- A new id in a group ----------

  /** Adding an id to a group apart from the others keeps the groups separate. */
  lemma ApartStaysSeparate(pb: Problem, port: PhysPort, groups: seq<Group>, i: nat, id: Id)
    requires pb.numMaskBits <= 32 && Sorted(groups) && AllAlike(pb, port, groups) && Members(pb, port, groups)
    requires Separate(groups, pb.numMaskBits) && ApartTogether(pb, port, groups) && i < |groups|
    requires PhysPortAndID(port, id) in pb.workList && pb.DestsOf(port, First(groups[i])) == pb.DestsOf(port, id)
    requires Apart(pb, port, pb.DestsOf(port, id))
    ensures Separate(SortBySize(groups[i := Insert(groups[i], id)]), pb.numMaskBits)
  {
    var replaced, n := groups[i := Insert(groups[i], id)], pb.numMaskBits;
    var r := SortBySize(replaced);
    SortBySizeAdds(replaced);
    SortBySizeSorts(replaced);
    ReplacedStructure(pb, port, groups, i, id);
    NonEmptyGroups(pb, port, groups);
    SeparateShareNothing(pb, port, groups);
    hide GroupMask, SortBySize, Insert, Apart, AtMost, Matches, Alike, FirstWins, SharedIsSingle;
    forall a, b, x | 0 <= a < b < |r| && x in r[b] ensures !Matches(r[a], n, x) {
      var l, m := PlacesIn(r, replaced, a, b);
      if l == i || m == i {
        SortedBySize(r, a, b);
        RulesApart(pb, port, groups, i, id, l, m, x);
      } else if m < l {
        AtMostTotal(groups[l], groups[m]);
        assert false;
      }
    }
  }

  lemma RulesApart(pb: Problem, port: PhysPort, groups: seq<Group>, i: nat, id: Id, l: nat, m: nat, x: Id)
    requires pb.numMaskBits <= 32 && AllAlike(pb, port, groups) && Members(pb, port, groups)
    requires pb.numMaskBits <= 32 && ApartTogether(pb, port, groups) && i < |groups| && l < |groups| && m < |groups| && l != m && (l == i || m == i)
    requires var replaced := groups[i := Insert(groups[i], id)]; |replaced[l]| <= |replaced[m]|
    requires PhysPortAndID(port, id) in pb.workList && pb.DestsOf(port, First(groups[i])) == pb.DestsOf(port, id)
    requires Apart(pb, port, pb.DestsOf(port, id)) && x in groups[i := Insert(groups[i], id)][m]
    ensures !Matches(groups[i := Insert(groups[i], id)][l], pb.numMaskBits, x)
  {
    hide GroupMask, Apart, Matches;
    var replaced := groups[i := Insert(groups[i], id)];
    ReplacedStructure(pb, port, groups, i, id);
    assert Alike(pb, port, replaced[l]) && Alike(pb, port, replaced[m]) && Alike(pb, port, groups[i]);
    assert First(replaced[i]) in replaced[i];
    assert pb.DestsOf(port, First(replaced[i])) == pb.DestsOf(port, First(groups[i]));
    ApartRules(pb, port, replaced[l], replaced[m], x);
  }

  /** Masks after a new id has been put into a group. */
  lemma MergedMasksAgree(pb: Problem, port: PhysPort, groups: seq<Group>, masks: MaskMap, i: nat, id: Id)
    requires pb.numMaskBits <= 32 && PortCalm(pb, port, groups, masks) && i < |groups|
    requires forall j :: 0 <= j < |groups| ==> id !in groups[j]
    ensures var g := Insert(groups[i], id);
            MasksAgree(pb, port, groups[i := g], WithMask(masks, port, g, GroupMask(g, pb.numMaskBits)))
  {
    MasksAgreeOwn(pb, port, groups, masks);
    SeparateShareNothing(pb, port, groups);
    hide GroupMask, MaskOf, WithMask, Separate, ApartTogether, PortOk, FirstWins, SharedIsSingle;
    var g, n := Insert(groups[i], id), pb.numMaskBits;
    var replaced := groups[i := g];
    forall j, x | 0 <= j < |replaced| && x in replaced[j]
      ensures MaskOf(WithMask(masks, port, g, GroupMask(g, n)), port, x) == GroupMask(replaced[j], n)
    {
      MaskOfWith(masks, port, g, GroupMask(g, n), x);
      if j != i { assert x in groups[j] && x !in groups[i] && x != id; }
    }
  }

  lemma SortedMasksAgree(pb: Problem, port: PhysPort, groups: seq<Group>, masks: MaskMap)
    requires pb.numMaskBits <= 32 && MasksAgree(pb, port, groups, masks)
    ensures MasksAgree(pb, port, SortBySize(groups), masks)
  {
    SortedMembers(groups);
    hide GroupMask, SortBySize, MaskOf;
    var r := SortBySize(groups);
    forall j, x | 0 <= j < |r| && x in r[j] ensures MaskOf(masks, port, x) == GroupMask(r[j], pb.numMaskBits) {
      var l :| 0 <= l < |groups| && groups[l] == r[j];
    }
  }

  lemma SortedApart(pb: Problem, port: PhysPort, groups: seq<Group>)
    requires pb.numMaskBits <= 32 && ApartTogether(pb, port, groups)
    ensures ApartTogether(pb, port, SortBySize(groups))
  {
    SortBySizeAdds(groups);
    hide SortBySize, Apart;
    var r := SortBySize(groups);
    forall a, b | 0 <= a < |r| && 0 <= b < |r| && a != b && pb.DestsOf(port, First(r[a])) == pb.DestsOf(port, First(r[b]))
      ensures !Apart(pb, port, pb.DestsOf(port, First(r[a])))
    {
      var l, m := PlacesIn(r, groups, a, b);
    }
  }

  lemma ReplacedApart(pb: Problem, port: PhysPort, groups: seq<Group>, i: nat, id: Id)
    requires pb.numMaskBits <= 32 && ApartTogether(pb, port, groups) && i < |groups| && Alike(pb, port, groups[i])
    requires pb.DestsOf(port, First(groups[i])) == pb.DestsOf(port, id)
    ensures ApartTogether(pb, port, groups[i := Insert(groups[i], id)])
  {
    hide Apart;
    InsertedAlike(pb, port, groups[i], id);
    assert First(groups[i]) in Insert(groups[i], id);
  }

  // ---------- One step ----------

  /** A new id whose merge is accepted. */
  lemma MergeCalm(pb: Problem, port: PhysPort, groups: seq<Group>, masks: MaskMap, i: nat, id: Id)
    requires pb.numMaskBits <= 32 && PortCalm(pb, port, groups, masks) && i < |groups|
    requires PhysPortAndID(port, id) in pb.workList && pb.DestsOf(port, First(groups[i])) == pb.DestsOf(port, id)
    requires forall j :: 0 <= j < |groups| ==> id !in groups[j]
    requires var g := Insert(groups[i], id);
             RulesOrdered(WithMask(masks, port, g, GroupMask(g, pb.numMaskBits)), port, SortBySize(groups[i := g]))
    ensures var g := Insert(groups[i], id);
            PortCalm(pb, port, SortBySize(groups[i := g]), WithMask(masks, port, g, GroupMask(g, pb.numMaskBits)))
  {
    hide GroupMask, MaskOf, WithMask, Sorted, Separate, SharedIsSingle, FirstWins, Distinguishable, MasksKept, SortBySize,
      Members, MasksAgree, ApartTogether, RulesOrdered, Whole, Insert;
    var g := Insert(groups[i], id);
    assert Alike(pb, port, groups[i]);
    MergeOk(pb, port, groups, masks, i, id);
    MergedMasksAgree(pb, port, groups, masks, i, id);
    SortedMasksAgree(pb, port, groups[i := g], WithMask(masks, port, g, GroupMask(g, pb.numMaskBits)));
    ReplacedApart(pb, port, groups, i, id);
    SortedApart(pb, port, groups[i := g]);
  }

  /** A merge of a new id into a group apart from the others is accepted. */
  lemma ApartIsAccepted(pb: Problem, port: PhysPort, groups: seq<Group>, masks: MaskMap, i: nat, id: Id)
    requires pb.numMaskBits <= 32 && PortCalm(pb, port, groups, masks) && i < |groups|
    requires PhysPortAndID(port, id) in pb.workList && pb.DestsOf(port, First(groups[i])) == pb.DestsOf(port, id)
    requires forall j :: 0 <= j < |groups| ==> id !in groups[j]
    requires Apart(pb, port, pb.DestsOf(port, id))
    ensures var g := Insert(groups[i], id);
            RulesOrdered(WithMask(masks, port, g, GroupMask(g, pb.numMaskBits)), port, SortBySize(groups[i := g]))
  {
    hide GroupMask, MaskOf, WithMask, Sorted, Separate, SharedIsSingle, FirstWins, Distinguishable, MasksKept, SortBySize,
      Members, MasksAgree, ApartTogether, RulesOrdered, Insert, Apart, AllAlike;
    var g := Insert(groups[i], id);
    var r, masks' := SortBySize(groups[i := g]), WithMask(masks, port, g, GroupMask(g, pb.numMaskBits));
    ApartStaysSeparate(pb, port, groups, i, id);
    MergedMasksAgree(pb, port, groups, masks, i, id);
    ReplacedStructure(pb, port, groups, i, id);
    MasksAgreeOwn(pb, port, groups[i := g], masks');
    SortedStructure(pb, port, groups[i := g], masks');
    OrderedIsSeparate(pb, port, r, masks');
  }

  /** Masks after the merge of a new id has been rejected and undone. */
  lemma RejectedMasks(pb: Problem, port: PhysPort, groups: seq<Group>, masks: MaskMap, i: nat, id: Id)
    requires pb.numMaskBits <= 32 && PortCalm(pb, port, groups, masks) && i < |groups|
    requires forall j :: 0 <= j < |groups| ==> id !in groups[j]
    ensures var g, n := Insert(groups[i], id), pb.numMaskBits;
            var masks' := MasksAfterReject(masks, port, g, GroupMask(g, n), groups[i], GroupMask(groups[i], n), id, GroupMask([id], n));
            MaskOf(masks', port, id) == FullMask(n) &&
            forall j, x :: 0 <= j < |groups| && x in groups[j] ==> MaskOf(masks', port, x) == MaskOf(masks, port, x)
  {
    var g, n := Insert(groups[i], id), pb.numMaskBits;
    var masks' := MasksAfterReject(masks, port, g, GroupMask(g, n), groups[i], GroupMask(groups[i], n), id, GroupMask([id], n));
    SingleMaskIsFull(id, n);
    hide GroupMask, FullMask, MaskOf, Separate, ApartTogether, PortOk, MasksAfterReject;
    MaskAfterReject(masks, port, g, GroupMask(g, n), groups[i], GroupMask(groups[i], n), id, GroupMask([id], n), id);
    forall j, x | 0 <= j < |groups| && x in groups[j] ensures MaskOf(masks', port, x) == MaskOf(masks, port, x) {
      MaskAfterReject(masks, port, g, GroupMask(g, n), groups[i], GroupMask(groups[i], n), id, GroupMask([id], n), x);
      assert x != id;
    }
  }

  lemma FreshIfNotApart(pb: Problem, port: PhysPort, groups: seq<Group>, id: Id)
    requires pb.numMaskBits <= 32 && MayFollow(pb, port, groups, id) && Members(pb, port, groups) && AllAlike(pb, port, groups)
    requires PhysPortAndID(port, id) in pb.workList && forall j :: 0 <= j < |groups| ==> id !in groups[j]
    requires forall j :: 0 <= j < |groups| && pb.DestsOf(port, First(groups[j])) == pb.DestsOf(port, id) ==>
               !Apart(pb, port, pb.DestsOf(port, id))
    ensures Fresh(groups, id, pb.numMaskBits)
  {
    hide Apart, Solo;
    forall i, z | 0 <= i < |groups| && z in groups[i] ensures z != id && !SameLowBits(z, id, pb.numMaskBits) {
      assert Alike(pb, port, groups[i]);
      if SameLowBits(z, id, pb.numMaskBits) {
        assert Apart(pb, port, pb.DestsOf(port, z));
        ApartTellsDests(pb, port, z, id);
        assert false;
      }
    }
  }

  lemma NewIdCalm(t: RuleTable, pb: Problem, slave: PhysPortAndID)
    requires pb.numMaskBits <= 32 && slave in pb.workList
    requires PortCalm(pb, slave.physPort, t.GroupsOf(slave.physPort), t.masks)
    requires MayFollow(pb, slave.physPort, t.GroupsOf(slave.physPort), slave.id)
    requires forall j :: 0 <= j < |t.GroupsOf(slave.physPort)| ==> slave.id !in t.GroupsOf(slave.physPort)[j]
    ensures var r := Step(t, pb, slave); PortCalm(pb, slave.physPort, r.GroupsOf(slave.physPort), r.masks)
  {
    hide PortOk, GroupMask, WithMask, SortBySize, RulesOrdered, MaskOf, Separate, ApartTogether, MasksAgree, MayFollow, FullMask,
      Apart, Fresh;
    var port, id, n := slave.physPort, slave.id, pb.numMaskBits;
    assert slave == PhysPortAndID(port, id);
    var groups := t.GroupsOf(port);
    assert Members(pb, port, groups) && AllAlike(pb, port, groups) by { PortOkParts(pb, port, groups, t.masks); }
    hide Members, AllAlike;
    match FindGroup(pb, port, groups, id, 0) {
      case None =>
        FreshIfNotApart(pb, port, groups, id);
        var masks' := WithMask(t.masks, port, [id], GroupMask([id], n));
        SingletonMasks(pb, port, groups, t.masks, id);
        forall x | x != id ensures MaskOf(masks', port, x) == MaskOf(t.masks, port, x) {
          MaskOfWith(t.masks, port, [id], GroupMask([id], n), x);
        }
        AddFresh(pb, port, groups, t.masks, masks', id);
      case Some(i) =>
        var merged := Merged(t, port, i, id, n);
        if RulesOrdered(merged.masks, port, merged.groups[port]) {
          MergeCalm(pb, port, groups, t.masks, i, id);
        } else {
          if Apart(pb, port, pb.DestsOf(port, id)) { ApartIsAccepted(pb, port, groups, t.masks, i, id); }
          FreshIfNotApart(pb, port, groups, id);
          RejectedMasks(pb, port, groups, t.masks, i, id);
          var undone := WithMask(merged.masks, port, groups[i], GroupMask(groups[i], n));
          var masks' := WithMask(undone, port, [id], GroupMask([id], n));
          AddFresh(pb, port, groups, t.masks, masks', id);
        }
    }
  }

  lemma PortOkParts(pb: Problem, port: PhysPort, groups: seq<Group>, masks: MaskMap)
    requires pb.numMaskBits <= 32 && PortOk(pb, port, groups, masks)
    ensures Members(pb, port, groups) && AllAlike(pb, port, groups) && Sorted(groups)
  {
  }

  /** Listing an id again changes neither groups nor masks. */
  lemma AgainCalm(t: RuleTable, pb: Problem, slave: PhysPortAndID, j: nat)
    requires pb.numMaskBits <= 32 && slave in pb.workList
    requires PortCalm(pb, slave.physPort, t.GroupsOf(slave.physPort), t.masks)
    requires MayFollow(pb, slave.physPort, t.GroupsOf(slave.physPort), slave.id)
    requires j < |t.GroupsOf(slave.physPort)| && slave.id in t.GroupsOf(slave.physPort)[j]
    ensures var r := Step(t, pb, slave);
            r.GroupsOf(slave.physPort) == t.GroupsOf(slave.physPort) && !Rejects(t, pb, slave) &&
            forall x :: MaskOf(r.masks, slave.physPort, x) == MaskOf(t.masks, slave.physPort, x)
  {
    hide PortOk, GroupMask, WithMask, SortBySize, RulesOrdered, MaskOf, Separate, ApartTogether, MasksAgree, MayFollow;
    var port, id := slave.physPort, slave.id;
    var groups := t.GroupsOf(port);
    PortOkParts(pb, port, groups, t.masks);
    assert Alike(pb, port, groups[j]);
    var i := FindGroup(pb, port, groups, id, 0).value;
    FoundAgain(pb, port, groups, t.masks, i, j, id);
    MergeAgain(pb, port, groups, t.masks, i, id);
  }

  /** The invariant after one step; no rule is narrowed. */
  lemma StepCalm(t: RuleTable, pb: Problem, slave: PhysPortAndID)
    requires pb.numMaskBits <= 32 && slave in pb.workList
    requires PortCalm(pb, slave.physPort, t.GroupsOf(slave.physPort), t.masks)
    requires MayFollow(pb, slave.physPort, t.GroupsOf(slave.physPort), slave.id)
    ensures var r := Step(t, pb, slave);
            PortCalm(pb, slave.physPort, r.GroupsOf(slave.physPort), r.masks) && !Narrows(t, pb, slave)
  {
    hide PortCalm, Step, MayFollow, MaskOf, Rejects, SameLowBits;
    var port, id := slave.physPort, slave.id;
    var groups := t.GroupsOf(port);
    if j :| 0 <= j < |groups| && id in groups[j] {
      AgainCalm(t, pb, slave, j);
      SameMasksCalm(pb, port, groups, t.masks, Step(t, pb, slave).masks);
    } else {
      assert AllAlike(pb, port, groups) by { CalmParts(pb, port, groups, t.masks); }
      forall j | 0 <= j < |groups| ensures First(groups[j]) != id { assert Alike(pb, port, groups[j]); }
      NewIdCalm(t, pb, slave);
    }
  }

  lemma CalmParts(pb: Problem, port: PhysPort, groups: seq<Group>, masks: MaskMap)
    requires pb.numMaskBits <= 32 && PortCalm(pb, port, groups, masks)
    ensures PortOk(pb, port, groups, masks) && AllAlike(pb, port, groups) && Sorted(groups)
  {
  }

  // ---------- Runs ----------

  lemma NextMayFollow(pb: Problem, t: RuleTable, k: nat)
    requires pb.numMaskBits <= 32 && k < |pb.workList| && RepeatsAreApart(pb, pb.workList[k].physPort)
    requires WellFormed(t, pb.workList[..k])
    ensures MayFollow(pb, pb.workList[k].physPort, t.GroupsOf(pb.workList[k].physPort), pb.workList[k].id)
  {
    hide Solo, Apart, SameLowBits;
    var port, id := pb.workList[k].physPort, pb.workList[k].id;
    forall i, z | 0 <= i < |t.GroupsOf(port)| && z in t.GroupsOf(port)[i] && SameLowBits(z, id, pb.numMaskBits)
      ensures Apart(pb, port, pb.DestsOf(port, z)) || (z == id && Solo(pb, port, id))
    {
      assert PhysPortAndID(port, z) in pb.workList[..k];
      var j :| 0 <= j < k && pb.workList[j] == PhysPortAndID(port, z);
    }
  }

  /** On a port whose repeats are apart, the stronger invariant holds after every step. */
  lemma {:induction false} CompileCalm(pb: Problem, k: nat, port: PhysPort)
    requires pb.numMaskBits <= 32 && k <= |pb.workList| && RepeatsAreApart(pb, port)
    ensures PortCalm(pb, port, Compile(pb, k).GroupsOf(port), Compile(pb, k).masks)
    ensures k < |pb.workList| && pb.workList[k].physPort == port ==> !Narrows(Compile(pb, k), pb, pb.workList[k])
  {
    hide Step, RepeatsAreApart, PortCalm, MayFollow, Narrows, WellFormed, MaskOf;
    if k == 0 {
      EmptyCalm(pb, port);
    } else {
      var t, slave := Compile(pb, k - 1), pb.workList[k - 1];
      CompileCalm(pb, k - 1, port);
      if slave.physPort == port {
        CompileWellFormed(pb, k - 1);
        NextMayFollow(pb, t, k - 1);
        StepCalm(t, pb, slave);
      } else {
        StepOnOtherPort(t, pb, slave, port);
        SameMasksCalm(pb, port, t.GroupsOf(port), t.masks, Step(t, pb, slave).masks);
      }
    }
    if k < |pb.workList| && pb.workList[k].physPort == port {
      CompileWellFormed(pb, k);
      NextMayFollow(pb, Compile(pb, k), k);
      StepCalm(Compile(pb, k), pb, pb.workList[k]);
    }
  }

  lemma EmptyCalm(pb: Problem, port: PhysPort)
    requires pb.numMaskBits <= 32
    ensures PortCalm(pb, port, [], map[])
  {
    hide GroupMask;
  }

  lemma SoloDoesNotLead(pb: Problem, port: PhysPort, groups: seq<Group>, id: Id)
    requires pb.numMaskBits <= 32 && AllAlike(pb, port, groups) && Members(pb, port, groups) && Solo(pb, port, id)
    ensures !Leads(groups, id, pb.numMaskBits)
  {
    hide Solo;
    SameAsItself(id, pb.numMaskBits);
    hide SameLowBits;
    forall j, x | 0 <= j < |groups| && First(groups[j]) == id && x in groups[j] ensures x == id {
      assert Alike(pb, port, groups[j]);
      SoloIsAlone(pb, port, groups[j], id);
    }
  }

  /** An id that was not listed before leads no group. */
  lemma NewDoesNotLead(t: RuleTable, seen: seq<PhysPortAndID>, port: PhysPort, id: Id, n: nat)
    requires n <= 32 && WellFormed(t, seen) && PhysPortAndID(port, id) !in seen
    ensures !Leads(t.GroupsOf(port), id, n)
  {
    hide SameLowBits;
    forall j | 0 <= j < |t.GroupsOf(port)| ensures First(t.GroupsOf(port)[j]) != id {
      assert First(t.GroupsOf(port)[j]) in t.GroupsOf(port)[j];
    }
  }

  /** A solo slave that is listed again is alone in its groups, and no rule is narrowed. */
  lemma SoloNeverNarrows(pb: Problem, k: nat)
    requires pb.numMaskBits <= 32 && k < |pb.workList| && RepeatsAreSolo(pb, pb.workList[k].physPort)
    ensures !Narrows(Compile(pb, k), pb, pb.workList[k])
  {
    hide Compile, Solo, Rejects, Leads, PortOk, WellFormed;
    var t, port, id := Compile(pb, k), pb.workList[k].physPort, pb.workList[k].id;
    assert pb.workList[k] == PhysPortAndID(port, id);
    CompileOk(pb, k);
    CompileWellFormed(pb, k);
    assert PortOk(pb, port, t.GroupsOf(port), t.masks);
    hide TableOk, Covered;
    if pb.workList[k] in pb.workList[..k] {
      var i :| 0 <= i < k && pb.workList[i] == pb.workList[k];
      PortOkParts(pb, port, t.GroupsOf(port), t.masks);
      SoloDoesNotLead(pb, port, t.GroupsOf(port), id);
    } else {
      NewDoesNotLead(t, pb.workList[..k], port, id, pb.numMaskBits);
    }
  }

  lemma SameAsItself(x: Id, n: nat)
    requires n <= 32
    ensures SameLowBits(x, x, n)
  {
  }

  /** Work lists whose repeats are solo or apart narrow no rule. */
  lemma HarmlessNeverNarrows(pb: Problem)
    requires pb.numMaskBits <= 32 && RepeatsAreHarmless(pb)
    ensures NeverNarrows(pb, |pb.workList|)
  {
    hide RepeatsAreSolo, RepeatsAreApart, Narrows, Compile, PortCalm;
    forall k | 0 <= k < |pb.workList| ensures !Narrows(Compile(pb, k), pb, pb.workList[k]) {
      var port := pb.workList[k].physPort;
      if RepeatsAreSolo(pb, port) { SoloNeverNarrows(pb, k); } else { CompileCalm(pb, k, port); }
    }
  }

  /** For such work lists the rules mean the flow map exactly when ids that cannot be told apart agree. */
  lemma HarmlessMeaning(pb: Problem)
    requires pb.WellPosed() && RepeatsAreHarmless(pb)
    ensures MeaningPreserved(pb, Compile(pb, |pb.workList|)) <==> Distinguishable(pb)
  {
    hide RepeatsAreHarmless, NeverNarrows, MeaningPreserved, Distinguishable;
    HarmlessNeverNarrows(pb);
    FirstMatchMeaning(pb);
  }

  lemma AllApart(pb: Problem, port: PhysPort)
    requires pb.numMaskBits <= 32
    requires forall s :: s in pb.workList && s.physPort == port ==> Apart(pb, port, pb.DestsOf(port, s.id))
    ensures RepeatsAreApart(pb, port)
  {
    hide Apart, Solo, SameLowBits;
  }

  /** When the destinations of every listed slave are apart from the others on its port, the list may be in any order with any repeats. */
  lemma AllApartMeaning(pb: Problem)
    requires pb.WellPosed() && forall s :: s in pb.workList ==> Apart(pb, s.physPort, pb.DestsOf(s.physPort, s.id))
    ensures RepeatsAreHarmless(pb) && MeaningPreserved(pb, Compile(pb, |pb.workList|))
  {
    hide Apart, MeaningPreserved, Compile;
    forall port ensures RepeatsAreApart(pb, port) { AllApart(pb, port); }
    forall s, u | s in pb.workList && u in pb.workList && s.physPort == u.physPort && SameLowBits(s.id, u.id, pb.numMaskBits)
      ensures pb.DestsOf(s.physPort, s.id) == pb.DestsOf(u.physPort, u.id)
    {
      assert s == PhysPortAndID(s.physPort, s.id) && u == PhysPortAndID(s.physPort, u.id);
      ApartTellsDests(pb, s.physPort, s.id, u.id);
    }
    HarmlessMeaning(pb);
  }

  // ---------- The groups of a port ----------

  /** When repeats are apart, every id is caught by the rule of the one group that holds it. */
  lemma OwnGroupCatches(pb: Problem, s: PhysPortAndID)
    requires pb.WellPosed() && RepeatsAreApart(pb, s.physPort) && s in pb.workList
    ensures var t := Compile(pb, |pb.workList|);
            var groups := t.GroupsOf(s.physPort);
            Lookup(t.masks, s.physPort, groups, s.id, 0).Some? &&
            (forall j :: 0 <= j < |groups| ==>
               (s.id in groups[j] <==> Lookup(t.masks, s.physPort, groups, s.id, 0) == Some(j)))
  {
    var k, port, id := |pb.workList|, s.physPort, s.id;
    hide Compile;
    var t := Compile(pb, k);
    var groups := t.GroupsOf(port);
    CompileCalm(pb, k, port);
    CompileOk(pb, k);
    assert pb.workList[..k] == pb.workList;
    MasksAgreeOwn(pb, port, groups, t.masks);
    SeparateShareNothing(pb, port, groups);
    hide GroupMask, RepeatsAreApart, FirstWins, SharedIsSingle, ApartTogether, Narrows, TableOk;
    assert InSomeGroup(groups, id);
    forall j | 0 <= j < |groups| && id in groups[j] ensures Lookup(t.masks, port, groups, id, 0) == Some(j) {
      OwnRuleMatches(groups[j], pb.numMaskBits, id);
      var i := Lookup(t.masks, port, groups, id, 0).value;
      assert Matches(groups[i], pb.numMaskBits, id);
    }
  }

  /**
   * The group invariant after every step, merged, undone or with an unverified singleton: the groups
   * of a port are not empty, sorted, partition the ids seen so far, hold the right mask for every
   * member, would pass the verification, and destinations apart from the others have only one group.
   */
  lemma GroupInvariant(pb: Problem, k: nat, port: PhysPort)
    requires pb.WellPosed() && RepeatsAreApart(pb, port) && k <= |pb.workList|
    ensures var t := Compile(pb, k);
            var groups := t.GroupsOf(port);
            && NonEmpty(groups) && Sorted(groups) && RulesOrdered(t.masks, port, groups)
            && (forall x :: PhysPortAndID(port, x) in pb.workList[..k] <==> InSomeGroup(groups, x))
            && (forall i, j, x :: 0 <= i < |groups| && 0 <= j < |groups| && x in groups[i] && x in groups[j] ==> i == j)
            && (forall i, x :: 0 <= i < |groups| && x in groups[i] ==>
                  MaskOf(t.masks, port, x) == GroupMask(groups[i], pb.numMaskBits))
            && ApartTogether(pb, port, groups)
  {
    hide Compile, GroupMask, RulesOrdered, Sorted, FirstWins, Separate, RepeatsAreApart, Narrows, ApartTogether, SharedIsSingle;
    var t := Compile(pb, k);
    var groups := t.GroupsOf(port);
    CompileCalm(pb, k, port);
    CompileOk(pb, k);
    CompileWellFormed(pb, k);
    MasksAgreeOwn(pb, port, groups, t.masks);
    OrderedIsSeparate(pb, port, groups, t.masks);
    SeparateShareNothing(pb, port, groups);
  }

  /** Distinct ids below 2^numMaskBits, none listed twice, are the simplest case. */
  lemma FittingIdsAreHarmless(pb: Problem)
    requires pb.numMaskBits <= 32
    requires forall i, j :: 0 <= i < j < |pb.workList| ==> pb.workList[i] != pb.workList[j]
    requires forall s :: s in pb.workList ==> s.id < Pow2(pb.numMaskBits)
    ensures Distinguishable(pb) && RepeatsAreHarmless(pb) && forall port :: RepeatsAreApart(pb, port)
  {
    hide SameLowBits, Apart, Solo;
    forall s, t | s in pb.workList && t in pb.workList && s.physPort == t.physPort && SameLowBits(s.id, t.id, pb.numMaskBits)
      ensures s == t
    {
      FittingIdsDiffer(s.id, t.id, pb.numMaskBits);
    }
    forall port ensures RepeatsAreApart(pb, port) {
      forall i, j | 0 <= i < j < |pb.workList| && pb.workList[i].physPort == port && pb.workList[j].physPort == port
        ensures !SameLowBits(pb.workList[i].id, pb.workList[j].id, pb.numMaskBits) {}
    }
  }
}
