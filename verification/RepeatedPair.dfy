/**
 * A work list that lists a 'port and id' once for each of its destinations, as the caller does, and for
 * which the emitted rules lose another id.
 */
module RepeatedPair {
  import opened Words
  import opened StreamSwitch
  import opened PacketIds
  import opened GroupOrder
  import opened PacketRules
  import opened PacketRulesMeaning
  import opened RepeatedSlaves

  const SLAVE := PhysPort(TileLoc(0, 0), Port(South, 0), Src)
  const X := PhysPort(TileLoc(0, 0), Port(Dma, 0), Dst)
  const Y := PhysPort(TileLoc(0, 0), Port(Dma, 1), Dst)
  const Z := PhysPort(TileLoc(0, 0), Port(North, 0), Dst)

  function At(id: Id): PhysPortAndID {
    PhysPortAndID(SLAVE, id)
  }

  /** Ids 0, 1 and 3 go to X and Z and are listed twice, ids 2 and 4 go to Y and are listed once. */
  const PROBLEM := Problem(
    map[At(0) := {X, Z}, At(1) := {X, Z}, At(2) := {Y}, At(3) := {X, Z}, At(4) := {Y}],
    [At(0), At(1), At(1), At(2), At(4), At(3), At(0), At(3)], 3)

  // ---------- Masks of three bits ----------

  lemma ThreeBits(x: nat)
    requires x < 8
    ensures Bit(x, 0) <==> x in {1, 3, 5, 7}
    ensures Bit(x, 1) <==> x in {2, 3, 6, 7}
    ensures Bit(x, 2) <==> x in {4, 5, 6, 7}
    ensures forall i: nat :: i >= 3 ==> !Bit(x, i)
  {
    assert Pow2(3) == 8;
    forall i: nat | i >= 3 ensures !Bit(x, i) {
      Pow2Monotone(3, i);
      HighBitsAreZero(x, 3, i);
    }
  }

  ghost predicate AgreeAt(g: Group, i: nat) {
    forall x, y :: x in g && y in g ==> (Bit(x, i) <==> Bit(y, i))
  }

  lemma MaskIs(g: Group, r: nat)
    requires g != [] && r < 8
    requires Bit(r, 0) <==> AgreeAt(g, 0)
    requires Bit(r, 1) <==> AgreeAt(g, 1)
    requires Bit(r, 2) <==> AgreeAt(g, 2)
    ensures GroupMask(g, 3) == r
  {
    hide GroupMask;
    ThreeBits(r);
    forall i: nat ensures Bit(GroupMask(g, 3), i) <==> Bit(r, i) {
      GroupMaskBit(g, 3, i);
    }
    SameBitsAreEqual(GroupMask(g, 3), r);
  }

  lemma SmallIds()
    ensures forall i: nat :: i < 3 ==> !Bit(0, i)
    ensures Bit(1, 0) && !Bit(1, 1) && !Bit(1, 2)
    ensures !Bit(2, 0) && Bit(2, 1) && !Bit(2, 2)
    ensures Bit(3, 0) && Bit(3, 1) && !Bit(3, 2)
    ensures !Bit(4, 0) && !Bit(4, 1) && Bit(4, 2)
    ensures !Bit(6, 0) && Bit(6, 1) && Bit(6, 2)
    ensures Bit(7, 0) && Bit(7, 1) && Bit(7, 2)
  {
    ThreeBits(0);
    ThreeBits(1);
    ThreeBits(2);
    ThreeBits(3);
    ThreeBits(4);
    ThreeBits(6);
    ThreeBits(7);
  }

  lemma SingleMask(id: Id)
    ensures GroupMask([id], 3) == 7
  {
    SmallIds();
    MaskIs([id], 7);
  }

  lemma PairMask(x: Id, y: Id, r: nat)
    requires x < 8 && y < 8 && r < 8
    requires Bit(r, 0) <==> (Bit(x, 0) <==> Bit(y, 0))
    requires Bit(r, 1) <==> (Bit(x, 1) <==> Bit(y, 1))
    requires Bit(r, 2) <==> (Bit(x, 2) <==> Bit(y, 2))
    ensures GroupMask([x, y], 3) == r
  {
    hide Bit;
    assert x in [x, y] && y in [x, y];
    MaskIs([x, y], r);
  }

  lemma TripleMask()
    ensures GroupMask([0, 1, 3], 3) == 4
  {
    hide Bit;
    SmallIds();
    assert 0 in [0, 1, 3] && 1 in [0, 1, 3] && 3 in [0, 1, 3];
    MaskIs([0, 1, 3], 4);
  }

  // ---------- The three kinds of steps ----------

  function MaskAfter(masks: MaskMap, g: Group, mask: Word, x: Id): Word {
    if x in g then mask else MaskOf(masks, SLAVE, x)
  }

  lemma WithMaskIs(masks: MaskMap, g: Group, mask: Word)
    ensures forall x :: MaskOf(WithMask(masks, SLAVE, g, mask), SLAVE, x) == MaskAfter(masks, g, mask, x)
  {
    forall x ensures MaskOf(WithMask(masks, SLAVE, g, mask), SLAVE, x) == MaskAfter(masks, g, mask, x) {
      MaskOfWith(masks, SLAVE, g, mask, x);
    }
  }

  lemma StepAdds(t: RuleTable, id: Id, sorted: seq<Group>)
    requires FindGroup(PROBLEM, SLAVE, t.GroupsOf(SLAVE), id, 0) == None
    requires SortBySize(t.GroupsOf(SLAVE) + [[id]]) == sorted
    ensures var r := Step(t, PROBLEM, At(id));
            r.GroupsOf(SLAVE) == sorted && forall x :: MaskOf(r.masks, SLAVE, x) == MaskAfter(t.masks, [id], 7, x)
  {
    SingleMask(id);
    WithMaskIs(t.masks, [id], 7);
  }

  lemma StepMerges(t: RuleTable, id: Id, i: nat, g: Group, mask: Word, sorted: seq<Group>)
    requires FindGroup(PROBLEM, SLAVE, t.GroupsOf(SLAVE), id, 0) == Some(i)
    requires g == Insert(t.GroupsOf(SLAVE)[i], id) && GroupMask(g, 3) == mask
    requires SortBySize(t.GroupsOf(SLAVE)[i := g]) == sorted
    requires RulesOrdered(WithMask(t.masks, SLAVE, g, mask), SLAVE, sorted)
    ensures var r := Step(t, PROBLEM, At(id));
            r.GroupsOf(SLAVE) == sorted && forall x :: MaskOf(r.masks, SLAVE, x) == MaskAfter(t.masks, g, mask, x)
  {
    hide RulesOrdered;
    WithMaskIs(t.masks, g, mask);
  }

  lemma StepRejects(t: RuleTable, id: Id, i: nat, g: Group, mask: Word, merged: seq<Group>, before: Word, sorted: seq<Group>)
    requires FindGroup(PROBLEM, SLAVE, t.GroupsOf(SLAVE), id, 0) == Some(i)
    requires g == Insert(t.GroupsOf(SLAVE)[i], id) && GroupMask(g, 3) == mask && GroupMask(t.GroupsOf(SLAVE)[i], 3) == before
    requires SortBySize(t.GroupsOf(SLAVE)[i := g]) == merged
    requires !RulesOrdered(WithMask(t.masks, SLAVE, g, mask), SLAVE, merged)
    requires SortBySize(t.GroupsOf(SLAVE) + [[id]]) == sorted
    ensures var r := Step(t, PROBLEM, At(id));
            && r.GroupsOf(SLAVE) == sorted
            && forall x :: MaskOf(r.masks, SLAVE, x) ==
                 if x == id then 7 else if x in t.GroupsOf(SLAVE)[i] then before else MaskAfter(t.masks, g, mask, x)
  {
    hide RulesOrdered;
    SingleMask(id);
    var masks1 := WithMask(t.masks, SLAVE, g, mask);
    var masks2 := WithMask(masks1, SLAVE, t.GroupsOf(SLAVE)[i], before);
    WithMaskIs(t.masks, g, mask);
    WithMaskIs(masks1, t.GroupsOf(SLAVE)[i], before);
    WithMaskIs(masks2, [id], 7);
  }

  // ---------- The run ----------

  ghost predicate Reached(t: RuleTable, groups: seq<Group>, m0: Word, m1: Word, m2: Word, m3: Word, m4: Word) {
    && t.GroupsOf(SLAVE) == groups
    && MaskOf(t.masks, SLAVE, 0) == m0 && MaskOf(t.masks, SLAVE, 1) == m1 && MaskOf(t.masks, SLAVE, 2) == m2
    && MaskOf(t.masks, SLAVE, 3) == m3 && MaskOf(t.masks, SLAVE, 4) == m4
  }

  lemma Destinations()
    ensures PROBLEM.DestsOf(SLAVE, 0) == PROBLEM.DestsOf(SLAVE, 1) == PROBLEM.DestsOf(SLAVE, 3) == {X, Z}
    ensures PROBLEM.DestsOf(SLAVE, 2) == PROBLEM.DestsOf(SLAVE, 4) == {Y}
    ensures {X, Z} != {Y}
  {
    assert X in {X, Z} && X !in {Y};
  }

  /** The first group has the destinations of `id`, or the only group does not. */
  lemma Finds(groups: seq<Group>, id: Id)
    requires groups != []
    ensures PROBLEM.DestsOf(SLAVE, First(groups[0])) == PROBLEM.DestsOf(SLAVE, id) ==> FindGroup(PROBLEM, SLAVE, groups, id, 0) == Some(0)
    ensures |groups| == 1 && PROBLEM.DestsOf(SLAVE, First(groups[0])) != PROBLEM.DestsOf(SLAVE, id) ==>
              FindGroup(PROBLEM, SLAVE, groups, id, 0) == None
  {
  }

  lemma PairsInOrder()
    ensures AtMost([0, 1], [2, 4]) && AtMost([0, 3], [2, 4]) && AtMost([0], [3]) && AtMost([0, 1], [0, 3])
  {
    assert [0, 3][1..] == [3] && [0, 1][1..] == [1];
  }

  /** Sorting up to four groups one by one. */
  lemma SortsFour(a: Group, b: Group, c: Group, d: Group)
    ensures SortBySize([a]) == [a]
    ensures SortBySize([a, b]) == InsertGroup([a], b)
    ensures SortBySize([a, b, c]) == InsertGroup(SortBySize([a, b]), c)
    ensures SortBySize([a, b, c, d]) == InsertGroup(SortBySize([a, b, c]), d)
  {
    assert [a][..0] == [] && [a, b][..1] == [a] && [a, b, c][..2] == [a, b] && [a, b, c, d][..3] == [a, b, c];
  }

  lemma InsertsGroup(s: seq<Group>, g: Group)
    ensures s == [] || AtMost(g, s[0]) ==> InsertGroup(s, g) == [g] + s
    ensures |s| == 1 && !AtMost(g, s[0]) ==> InsertGroup(s, g) == s + [g]
    ensures |s| == 2 && !AtMost(g, s[0]) && !AtMost(g, s[1]) ==> InsertGroup(s, g) == s + [g]
  {
    if |s| == 2 && !AtMost(g, s[0]) && !AtMost(g, s[1]) {
      assert InsertGroup(s[1..], g) == s[1..] + [g];
    }
  }

  lemma SortsTwo()
    ensures SortBySize([[0]]) == [[0]] && SortBySize([[0, 1]]) == [[0, 1]]
    ensures SortBySize([[0, 1], [2]]) == [[2], [0, 1]]
    ensures SortBySize([[2, 4], [0, 1]]) == [[0, 1], [2, 4]]
    ensures SortBySize([[0, 1, 3], [2, 4]]) == [[2, 4], [0, 1, 3]]
  {
    hide LexLess, SortBySize, InsertGroup;
    PairsInOrder();
    SortsFour([0], [], [], []);
    SortsFour([0, 1], [2], [], []);
    SortsFour([2, 4], [0, 1], [], []);
    SortsFour([0, 1, 3], [2, 4], [], []);
    InsertsGroup([[0, 1]], [2]);
    InsertsGroup([[2, 4]], [0, 1]);
    InsertsGroup([[0, 1, 3]], [2, 4]);
  }

  lemma SortsThree()
    ensures SortBySize([[0, 1], [2, 4], [3]]) == [[3], [0, 1], [2, 4]]
    ensures SortBySize([[0, 3], [0, 1], [2, 4]]) == [[0, 1], [0, 3], [2, 4]]
    ensures SortBySize([[3], [0, 1], [2, 4], [0]]) == [[0], [3], [0, 1], [2, 4]]
  {
    hide LexLess, SortBySize, InsertGroup;
    PairsInOrder();
    AtMostTotal([0, 1], [2, 4]);
    AtMostTotal([0, 3], [2, 4]);
    assert [0, 1][0] != [2, 4][0] && [0, 3][0] != [2, 4][0];
    SortsFour([0, 1], [2, 4], [3], []);
    InsertsGroup([[0, 1]], [2, 4]);
    assert [[0, 1]] + [[2, 4]] == [[0, 1], [2, 4]];
    InsertsGroup([[0, 1], [2, 4]], [3]);
    assert [[3]] + [[0, 1], [2, 4]] == [[3], [0, 1], [2, 4]];
    SortsFour([0, 3], [0, 1], [2, 4], []);
    InsertsGroup([[0, 3]], [0, 1]);
    assert [[0, 1]] + [[0, 3]] == [[0, 1], [0, 3]];
    InsertsGroup([[0, 1], [0, 3]], [2, 4]);
    assert [[0, 1], [0, 3]] + [[2, 4]] == [[0, 1], [0, 3], [2, 4]];
    SortsFour([3], [0, 1], [2, 4], [0]);
    InsertsGroup([[3]], [0, 1]);
    assert [[3]] + [[0, 1]] == [[3], [0, 1]];
    InsertsGroup([[3], [0, 1]], [2, 4]);
    assert [[3], [0, 1]] + [[2, 4]] == [[3], [0, 1], [2, 4]];
    InsertsGroup([[3], [0, 1], [2, 4]], [0]);
    assert [[0]] + [[3], [0, 1], [2, 4]] == [[0], [3], [0, 1], [2, 4]];
  }

  lemma SortsFive()
    ensures SortBySize([[0, 3], [3], [0, 1], [2, 4]]) == [[3], [0, 1], [0, 3], [2, 4]]
    ensures SortBySize([[0], [3], [0, 1], [2, 4], [3]]) == [[0], [3], [3], [0, 1], [2, 4]]
  {
    hide LexLess, SortBySize, InsertGroup;
    PairsInOrder();
    AtMostTotal([0, 1], [2, 4]);
    AtMostTotal([0, 3], [2, 4]);
    AtMostTotal([0, 1], [0, 3]);
    AtMostTotal([0], [3]);
    AtMostTotal([3], [3]);
    assert [0, 1][0] != [2, 4][0] && [0, 3][0] != [2, 4][0] && [0, 1][1] != [0, 3][1] && [0][0] != [3][0];
    SortsFour([0, 3], [3], [0, 1], [2, 4]);
    InsertsGroup([[0, 3]], [3]);
    assert [[3]] + [[0, 3]] == [[3], [0, 3]];
    InsertsSecond([3], [[0, 3]], [0, 1]);
    assert [[3]] + [[0, 1]] + [[0, 3]] == [[3], [0, 1], [0, 3]];
    InsertsLast([3], [0, 1], [0, 3], [2, 4]);
    SortsFour([0], [3], [0, 1], [2, 4]);
    InsertsGroup([[0]], [3]);
    assert [[0]] + [[3]] == [[0], [3]];
    InsertsGroup([[0], [3]], [0, 1]);
    assert [[0], [3]] + [[0, 1]] == [[0], [3], [0, 1]];
    InsertsLast([0], [3], [0, 1], [2, 4]);
    SortsLast([[0], [3], [0, 1], [2, 4]], [3]);
    assert [[0], [3], [0, 1], [2, 4]] + [[3]] == [[0], [3], [0, 1], [2, 4], [3]];
    InsertsSecond([0], [[3], [0, 1], [2, 4]], [3]);
    assert [[0]] + [[3], [0, 1], [2, 4]] == [[0], [3], [0, 1], [2, 4]];
    assert [[0]] + [[3]] + [[3], [0, 1], [2, 4]] == [[0], [3], [3], [0, 1], [2, 4]];
  }

  lemma InsertsSecond(first: Group, rest: seq<Group>, g: Group)
    requires rest != [] && !AtMost(g, first) && AtMost(g, rest[0])
    ensures InsertGroup([first] + rest, g) == [first] + [g] + rest
  {
    assert ([first] + rest)[1..] == rest;
  }

  lemma InsertsLast(a: Group, b: Group, c: Group, g: Group)
    requires !AtMost(g, a) && !AtMost(g, b) && !AtMost(g, c)
    ensures InsertGroup([a, b, c], g) == [a, b, c, g]
  {
    assert [a, b, c][1..] == [b, c];
    InsertsGroup([b, c], g);
    assert [a] + ([b, c] + [g]) == [a, b, c, g];
  }

  lemma SortsLast(groups: seq<Group>, g: Group)
    ensures SortBySize(groups + [g]) == InsertGroup(SortBySize(groups), g)
  {
    assert (groups + [g])[..|groups|] == groups;
  }

  lemma Inserts()
    ensures Insert([0], 3) == [0, 3] && Insert([0, 1], 1) == [0, 1]
    ensures Insert([0], 1) == [0, 1] && Insert([2], 4) == [2, 4] && Insert([0, 1], 3) == [0, 1, 3] && Insert([3], 0) == [0, 3]
  {
    assert [0, 1][1..] == [1];
  }

  lemma FirstStep(t: RuleTable)
    requires Reached(t, [], 0, 0, 0, 0, 0)
    ensures Reached(Step(t, PROBLEM, At(0)), [[0]], 7, 0, 0, 0, 0)
  {
    hide Step, MaskOf, SortBySize;
    SortsTwo();
    SortsThree();
    assert [] + [[0]] == [[0]];
    StepAdds(t, 0, [[0]]);
  }

  lemma SecondStep(t: RuleTable)
    requires Reached(t, [[0]], 7, 0, 0, 0, 0)
    ensures Reached(Step(t, PROBLEM, At(1)), [[0, 1]], 6, 6, 0, 0, 0)
  {
    hide Step, MaskOf, SortBySize, WithMask, GroupMask, FindGroup, Insert, Bit;
    SortsTwo();
    SortsThree();
    Inserts();
    Destinations();
    Finds([[0]], 1);
    SmallIds();
    PairMask(0, 1, 6);
    assert [[0]][0 := [0, 1]] == [[0, 1]];
    StepMerges(t, 1, 0, [0, 1], 6, [[0, 1]]);
  }

  /** Nothing changes when an id is listed again whose group is the first one found. */
  lemma SecondStepAgain(t: RuleTable)
    requires Reached(t, [[0, 1]], 6, 6, 0, 0, 0)
    ensures Reached(Step(t, PROBLEM, At(1)), [[0, 1]], 6, 6, 0, 0, 0)
  {
    hide Step, MaskOf, SortBySize, WithMask, GroupMask, FindGroup, Insert, Bit;
    SortsTwo();
    Inserts();
    Destinations();
    Finds([[0, 1]], 1);
    SmallIds();
    PairMask(0, 1, 6);
    assert [[0, 1]][0 := [0, 1]] == [[0, 1]];
    StepMerges(t, 1, 0, [0, 1], 6, [[0, 1]]);
  }

  lemma ThirdStep(t: RuleTable)
    requires Reached(t, [[0, 1]], 6, 6, 0, 0, 0)
    ensures Reached(Step(t, PROBLEM, At(2)), [[2], [0, 1]], 6, 6, 7, 0, 0)
  {
    hide Step, MaskOf, SortBySize, FindGroup;
    SortsTwo();
    SortsThree();
    Destinations();
    Finds([[0, 1]], 2);
    assert [[0, 1]] + [[2]] == [[0, 1], [2]];
    StepAdds(t, 2, [[2], [0, 1]]);
  }

  /** The rule of 0 and 1 does not catch 2 and 4. */
  lemma MayMerge(masks: MaskMap)
    requires MaskOf(masks, SLAVE, 0) == 6
    ensures RulesOrdered(masks, SLAVE, [[0, 1], [2, 4]])
  {
    assert And(2, 6) == 2 && And(4, 6) == 4 && And(0, 6) == 0;
    hide MaskOf, And;
    assert !RuleMatches(masks, SLAVE, [0, 1], 2) && !RuleMatches(masks, SLAVE, [0, 1], 4);
  }

  lemma FourthStep(t: RuleTable)
    requires Reached(t, [[2], [0, 1]], 6, 6, 7, 0, 0)
    ensures Reached(Step(t, PROBLEM, At(4)), [[0, 1], [2, 4]], 6, 6, 1, 0, 1)
  {
    hide Step, MaskOf, SortBySize, WithMask, GroupMask, FindGroup, Insert, Bit, RulesOrdered;
    SortsTwo();
    SortsThree();
    Inserts();
    Destinations();
    Finds([[2], [0, 1]], 4);
    SmallIds();
    PairMask(2, 4, 1);
    assert [[2], [0, 1]][0 := [2, 4]] == [[2, 4], [0, 1]];
    WithMaskIs(t.masks, [2, 4], 1);
    MayMerge(WithMask(t.masks, SLAVE, [2, 4], 1));
    StepMerges(t, 4, 0, [2, 4], 1, [[0, 1], [2, 4]]);
  }

  /** The first rule catches an id of the second group. */
  lemma MayNotMerge(masks: MaskMap, groups: seq<Group>, x: Id)
    requires |groups| >= 2 && x in groups[1] && RuleMatches(masks, SLAVE, groups[0], x)
    ensures !RulesOrdered(masks, SLAVE, groups)
  {
  }

  /** The rule of 2 and 4 would come before that of 0, 1 and 3, and catches 0. */
  lemma TripleIsRejected(masks: MaskMap)
    requires MaskOf(masks, SLAVE, 2) == 1
    ensures !RulesOrdered(WithMask(masks, SLAVE, [0, 1, 3], 4), SLAVE, [[2, 4], [0, 1, 3]])
  {
    assert And(0, 1) == And(2, 1);
    hide And, MaskOf, RulesOrdered, WithMask;
    WithMaskIs(masks, [0, 1, 3], 4);
    MayNotMerge(WithMask(masks, SLAVE, [0, 1, 3], 4), [[2, 4], [0, 1, 3]], 0);
  }

  /** The rule of 0 and 1, which has the mask of 0, would come before that of 0 and 3, and catches 0. */
  lemma PairIsRejected(masks: MaskMap)
    ensures !RulesOrdered(WithMask(masks, SLAVE, [0, 3], 4), SLAVE, [[0, 1], [0, 3], [2, 4]])
  {
    hide And, MaskOf, RulesOrdered, WithMask;
    MayNotMerge(WithMask(masks, SLAVE, [0, 3], 4), [[0, 1], [0, 3], [2, 4]], 0);
  }

  /** Id 3 does not fit to 0 and 1 and gets a group of its own. */
  lemma FifthStep(t: RuleTable)
    requires Reached(t, [[0, 1], [2, 4]], 6, 6, 1, 0, 1)
    ensures Reached(Step(t, PROBLEM, At(3)), [[3], [0, 1], [2, 4]], 6, 6, 1, 7, 1)
  {
    hide Step, MaskOf, SortBySize, WithMask, GroupMask, FindGroup, Insert, Bit, RulesOrdered, And;
    SortsTwo();
    SortsThree();
    Inserts();
    Destinations();
    Finds([[0, 1], [2, 4]], 3);
    SmallIds();
    PairMask(0, 1, 6);
    TripleMask();
    assert [[0, 1], [2, 4]][0 := [0, 1, 3]] == [[0, 1, 3], [2, 4]];
    TripleIsRejected(t.masks);
    assert [[0, 1], [2, 4]] + [[3]] == [[0, 1], [2, 4], [3]];
    StepRejects(t, 3, 0, [0, 1, 3], 4, [[2, 4], [0, 1, 3]], 6, [[3], [0, 1], [2, 4]]);
  }

  /** Id 0 is put to 3, which is rejected, and then into a group of its own; the rule of 0 and 1 is left with the mask of 0. */
  lemma SixthStep(t: RuleTable)
    requires Reached(t, [[3], [0, 1], [2, 4]], 6, 6, 1, 7, 1)
    ensures Reached(Step(t, PROBLEM, At(0)), [[0], [3], [0, 1], [2, 4]], 7, 6, 1, 7, 1)
  {
    hide Step, MaskOf, SortBySize, WithMask, GroupMask, FindGroup, Insert, Bit, RulesOrdered, And;
    SortsTwo();
    SortsThree();
    Inserts();
    Destinations();
    Finds([[3], [0, 1], [2, 4]], 0);
    SmallIds();
    PairMask(0, 3, 4);
    SingleMask(3);
    assert [[3], [0, 1], [2, 4]][0 := [0, 3]] == [[0, 3], [0, 1], [2, 4]];
    PairIsRejected(t.masks);
    assert [[3], [0, 1], [2, 4]] + [[0]] == [[3], [0, 1], [2, 4], [0]];
    StepRejects(t, 0, 0, [0, 3], 4, [[0, 1], [0, 3], [2, 4]], 7, [[0], [3], [0, 1], [2, 4]]);
  }

  /** The mask of 3, which a merge of 3 with 0 would set, catches 0. */
  lemma LastIsRejected(masks: MaskMap)
    ensures !RulesOrdered(WithMask(masks, SLAVE, [0, 3], 4), SLAVE, [[3], [0, 1], [0, 3], [2, 4]])
  {
    assert And(0, 4) == And(3, 4);
    hide And, MaskOf, RulesOrdered, WithMask;
    WithMaskIs(masks, [0, 3], 4);
    MayNotMerge(WithMask(masks, SLAVE, [0, 3], 4), [[3], [0, 1], [0, 3], [2, 4]], 0);
  }

  /** The second entry of 3 only adds a second group for it. */
  lemma LastStep(t: RuleTable)
    requires Reached(t, [[0], [3], [0, 1], [2, 4]], 7, 6, 1, 7, 1)
    ensures Reached(Step(t, PROBLEM, At(3)), [[0], [3], [3], [0, 1], [2, 4]], 7, 6, 1, 7, 1)
  {
    hide Step, MaskOf, SortBySize, WithMask, GroupMask, FindGroup, Insert, Bit, RulesOrdered, And;
    SortsFive();
    Inserts();
    Destinations();
    Finds([[0], [3], [0, 1], [2, 4]], 3);
    SmallIds();
    PairMask(0, 3, 4);
    SingleMask(0);
    assert [[0], [3], [0, 1], [2, 4]][0 := [0, 3]] == [[0, 3], [3], [0, 1], [2, 4]];
    LastIsRejected(t.masks);
    assert [[0], [3], [0, 1], [2, 4]] + [[3]] == [[0], [3], [0, 1], [2, 4], [3]];
    StepRejects(t, 3, 0, [0, 3], 4, [[3], [0, 1], [0, 3], [2, 4]], 7, [[0], [3], [3], [0, 1], [2, 4]]);
  }

  lemma TheRun()
    ensures Reached(Compile(PROBLEM, 8), [[0], [3], [3], [0, 1], [2, 4]], 7, 6, 1, 7, 1)
  {
    hide Step, Reached;
    NothingYet();
    FirstStep(Compile(PROBLEM, 0));
    SecondStep(Compile(PROBLEM, 1));
    SecondStepAgain(Compile(PROBLEM, 2));
    ThirdStep(Compile(PROBLEM, 3));
    FourthStep(Compile(PROBLEM, 4));
    FifthStep(Compile(PROBLEM, 5));
    SixthStep(Compile(PROBLEM, 6));
    LastStep(Compile(PROBLEM, 7));
  }

  lemma NothingYet()
    ensures Reached(Compile(PROBLEM, 0), [], 0, 0, 0, 0, 0)
  {
  }

  /** How often `x` is listed. */
  function Times<T(==)>(list: seq<T>, x: T): nat {
    if list == [] then 0 else Times(list[..|list| - 1], x) + if list[|list| - 1] == x then 1 else 0
  }

  lemma OneMore<T>(list: seq<T>, y: T, x: T)
    ensures Times(list + [y], x) == Times(list, x) + if y == x then 1 else 0
  {
    assert (list + [y])[..|list|] == list;
  }

  lemma TimesOfEight<T>(a: T, b: T, c: T, d: T, e: T, f: T, g: T, h: T, x: T)
    ensures Times([a, b, c, d, e, f, g, h], x) ==
            (if a == x then 1 else 0) + (if b == x then 1 else 0) + (if c == x then 1 else 0) + (if d == x then 1 else 0)
            + (if e == x then 1 else 0) + (if f == x then 1 else 0) + (if g == x then 1 else 0) + (if h == x then 1 else 0)
  {
    hide Times;
    NotListed(x);
    OneMore([], a, x);
    OneMore([a], b, x);
    OneMore([a, b], c, x);
    OneMore([a, b, c], d, x);
    OneMore([a, b, c, d], e, x);
    OneMore([a, b, c, d, e], f, x);
    OneMore([a, b, c, d, e, f], g, x);
    OneMore([a, b, c, d, e, f, g], h, x);
    assert [] + [a] == [a] && [a] + [b] == [a, b] && [a, b] + [c] == [a, b, c] && [a, b, c] + [d] == [a, b, c, d];
    assert [a, b, c, d] + [e] == [a, b, c, d, e] && [a, b, c, d, e] + [f] == [a, b, c, d, e, f];
    assert [a, b, c, d, e, f] + [g] == [a, b, c, d, e, f, g] && [a, b, c, d, e, f, g] + [h] == [a, b, c, d, e, f, g, h];
  }

  lemma NotListed<T>(x: T)
    ensures Times([], x) == 0
  {
  }

  lemma DestinationCounts()
    ensures |{X, Z}| == 2 && |{Y}| == 1
  {
    assert X != Z;
  }

  /** Every pair is listed as often as it has destinations. */
  lemma ListedPerDestination(id: Id)
    requires At(id) in PROBLEM.workList
    ensures Times(PROBLEM.workList, At(id)) == |PROBLEM.DestsOf(SLAVE, id)|
  {
    assert id in {0, 1, 2, 3, 4};
    hide Times;
    TimesOfEight(At(0), At(1), At(1), At(2), At(4), At(3), At(0), At(3), At(id));
    DestinationCounts();
    Destinations();
  }

  /** No emitted rule catches id 1, which is to go to X and Z; the ids can be told apart by their low bits. */
  lemma RepeatLosesAnId()
    ensures PROBLEM.WellPosed() && Distinguishable(PROBLEM)
    ensures !NeverNarrows(PROBLEM, |PROBLEM.workList|) && !RepeatsAreHarmless(PROBLEM)
    ensures forall id :: At(id) in PROBLEM.workList ==> Times(PROBLEM.workList, At(id)) == |PROBLEM.DestsOf(SLAVE, id)|
    ensures RoutedTo(PROBLEM, Compile(PROBLEM, |PROBLEM.workList|), SLAVE, 1) == None
    ensures !MeaningPreserved(PROBLEM, Compile(PROBLEM, |PROBLEM.workList|))
  {
    hide Compile;
    forall id | At(id) in PROBLEM.workList ensures Times(PROBLEM.workList, At(id)) == |PROBLEM.DestsOf(SLAVE, id)| {
      ListedPerDestination(id);
    }
    TheRun();
    NotCaught(Compile(PROBLEM, 8));
    assert At(1) in PROBLEM.workList;
    CanBeToldApart();
    hide NeverNarrows, RepeatsAreHarmless, Distinguishable;
    if NeverNarrows(PROBLEM, 8) { FirstMatchMeaning(PROBLEM); }
    if RepeatsAreHarmless(PROBLEM) { HarmlessNeverNarrows(PROBLEM); }
  }

  lemma NotCaught(t: RuleTable)
    requires Reached(t, [[0], [3], [3], [0, 1], [2, 4]], 7, 6, 1, 7, 1)
    ensures Lookup(t.masks, SLAVE, t.GroupsOf(SLAVE), 1, 0) == None
  {
    assert And(1, 7) == 1 && And(0, 7) == 0 && And(3, 7) == 3 && And(1, 1) == 1 && And(2, 1) == 0;
    hide MaskOf, And;
    var groups := [[0], [3], [3], [0, 1], [2, 4]];
    assert forall i :: 0 <= i < 5 ==> !RuleMatches(t.masks, SLAVE, groups[i], 1);
  }

  lemma CanBeToldApart()
    ensures Distinguishable(PROBLEM)
  {
    assert Pow2(3) == 8;
    forall s, u | s in PROBLEM.workList && u in PROBLEM.workList && s.physPort == u.physPort && SameLowBits(s.id, u.id, 3)
      ensures PROBLEM.DestsOf(s.physPort, s.id) == PROBLEM.DestsOf(u.physPort, u.id)
    {
      FittingIdsDiffer(s.id, u.id, 3);
    }
  }
}
