/** Two routed ids and two new ones on one port: the group of the routed ids is kept, and the new ids are not merged. */
module RoutedPairs {
  import opened Words
  import opened StreamSwitch
  import opened PacketIds
  import opened GroupOrder
  import opened PacketRules
  import opened PacketRulesMeaning

  const SLAVE := PhysPort(TileLoc(0, 0), Port(South, 0), Src)
  const X := PhysPort(TileLoc(0, 0), Port(Dma, 0), Dst)
  const Y := PhysPort(TileLoc(0, 0), Port(Dma, 1), Dst)

  function At(id: Id): PhysPortAndID {
    PhysPortAndID(SLAVE, id)
  }

  const ROUTED: PacketFlowMap := map[At(0) := [PhysPortAndID(X, 0)], At(7) := [PhysPortAndID(X, 7)]]
  const NEW: PacketFlowMap := map[At(1) := [PhysPortAndID(Y, 1)], At(2) := [PhysPortAndID(Y, 2)]]

  // ---------- Bits ----------

  /** The mask of 0 and 7 has none of the lowest three bits, so their rule catches 1. */
  lemma RoutedRuleCatches()
    ensures Matches([0, 7], 5, 1)
  {
    hide GroupMask;
    var g := [0, 7];
    assert 0 in g && 7 in g && Bit(7, 0);
    ZeroHasNoBits(0);
    GroupMaskBit(g, 5, 0);
    forall i: nat | Bit(GroupMask(g, 5), i) ensures Bit(1, i) <==> Bit(0, i) {
      ZeroHasNoBits(i);
      if i > 0 { ZeroHasNoBits(i - 1); }
    }
    MaskedEqual(1, 0, GroupMask(g, 5));
  }

  // ---------- Sorting ----------

  lemma SortedIs(groups: seq<Group>, sorted: seq<Group>)
    requires multiset(groups) == multiset(sorted) && Sorted(sorted)
    ensures SortBySize(groups) == sorted
  {
    SortBySizeSorts(groups);
    SortBySizeAdds(groups);
    SortedUnique(SortBySize(groups), sorted);
  }

  lemma Sorts()
    ensures SortBySize([[0]]) == [[0]] && SortBySize([[0, 7]]) == [[0, 7]]
    ensures SortBySize([[0, 7], [1]]) == [[1], [0, 7]]
    ensures SortBySize([[1, 2], [0, 7]]) == [[0, 7], [1, 2]]
    ensures SortBySize([[1], [0, 7], [2]]) == [[1], [2], [0, 7]]
  {
    hide SortBySize, Sorted;
    Orders();
    SortedIs([[0]], [[0]]);
    SortedIs([[0, 7]], [[0, 7]]);
    SortedIs([[0, 7], [1]], [[1], [0, 7]]);
    SortedIs([[1, 2], [0, 7]], [[0, 7], [1, 2]]);
    SortedIs([[1], [0, 7], [2]], [[1], [2], [0, 7]]);
  }

  lemma Orders()
    ensures Sorted([[0]]) && Sorted([[0, 7]]) && Sorted([[1], [0, 7]]) && Sorted([[0, 7], [1, 2]]) && Sorted([[1], [2], [0, 7]])
  {
    assert AtMost([1], [0, 7]) && AtMost([2], [0, 7]) && AtMost([1], [2]) && AtMost([0, 7], [1, 2]);
    hide AtMost;
  }

  // ---------- The steps ----------

  lemma DestsAre(pb: Problem)
    requires pb == Beside([At(1), At(2)], NEW, ROUTED, 5)
    ensures pb.DestsOf(SLAVE, 0) == {X} == pb.DestsOf(SLAVE, 7) && pb.DestsOf(SLAVE, 1) == {Y} == pb.DestsOf(SLAVE, 2)
  {
  }

  lemma RoutedDestsAre(pb: Problem)
    requires pb == Alone([At(0), At(7)], ROUTED, 5)
    ensures pb.DestsOf(SLAVE, 0) == {X} == pb.DestsOf(SLAVE, 7)
  {
  }

  lemma FirstRouted(pb: Problem, t: RuleTable)
    requires pb == Alone([At(0), At(7)], ROUTED, 5) && t == Step(RuleTable(map[], map[]), pb, At(0))
    ensures t.GroupsOf(SLAVE) == [[0]]
  {
    hide WithMask, GroupMask, SortBySize;
    Sorts();
    assert [] + [[0]] == [[0]];
  }

  lemma SecondRouted(pb: Problem, t: RuleTable)
    requires pb == Alone([At(0), At(7)], ROUTED, 5) && t.GroupsOf(SLAVE) == [[0]]
    ensures Step(t, pb, At(7)).GroupsOf(SLAVE) == [[0, 7]]
    ensures MaskOf(Step(t, pb, At(7)).masks, SLAVE, 0) == GroupMask([0, 7], 5)
  {
    hide WithMask, GroupMask, SortBySize, RulesOrdered, Problem.DestsOf;
    RoutedDestsAre(pb);
    Sorts();
    FindGroupIs(pb, t.GroupsOf(SLAVE), 7, 0);
    assert Insert([0], 7) == [0, 7] && [[0]][0 := [0, 7]] == [[0, 7]];
    var merged := Merged(t, SLAVE, 0, 7, 5);
    assert merged.groups[SLAVE] == [[0, 7]];
    AloneIsOrdered(merged.masks, [0, 7]);
    MaskOfWith(t.masks, SLAVE, [0, 7], GroupMask([0, 7], 5), 0);
  }

  lemma AloneIsOrdered(masks: MaskMap, g: Group)
    ensures RulesOrdered(masks, SLAVE, [g])
  {
  }

  lemma FindGroupIs(pb: Problem, groups: seq<Group>, id: Id, k: nat)
    requires k < |groups| && pb.DestsOf(SLAVE, First(groups[k])) == pb.DestsOf(SLAVE, id)
    requires forall i :: 0 <= i < k ==> pb.DestsOf(SLAVE, First(groups[i])) != pb.DestsOf(SLAVE, id)
    ensures FindGroup(pb, SLAVE, groups, id, 0) == Some(k)
  {
    hide Problem.DestsOf;
  }

  lemma FirstNew(pb: Problem, t: RuleTable)
    requires pb == Beside([At(1), At(2)], NEW, ROUTED, 5) && t.GroupsOf(SLAVE) == [[0, 7]]
    ensures Step(t, pb, At(1)).GroupsOf(SLAVE) == [[1], [0, 7]]
    ensures MaskOf(Step(t, pb, At(1)).masks, SLAVE, 0) == MaskOf(t.masks, SLAVE, 0)
  {
    hide WithMask, GroupMask, SortBySize, RulesOrdered, Problem.DestsOf, MaskOf;
    DestsAre(pb);
    Sorts();
    assert FindGroup(pb, SLAVE, t.GroupsOf(SLAVE), 1, 0) == None;
    assert [[0, 7]] + [[1]] == [[0, 7], [1]];
    MaskOfWith(t.masks, SLAVE, [1], GroupMask([1], 5), 0);
  }

  /** The rule of 0 and 7, sorted in front, would catch 1: the merge of 2 is rejected. */
  lemma MergeIsRejected(masks: MaskMap)
    requires MaskOf(masks, SLAVE, 0) == GroupMask([0, 7], 5)
    ensures !RulesOrdered(masks, SLAVE, [[0, 7], [1, 2]])
  {
    hide GroupMask, MaskOf;
    RoutedRuleCatches();
    var groups := [[0, 7], [1, 2]];
    assert groups[0] == [0, 7] && groups[1] == [1, 2] && 1 in groups[1];
    assert RuleMatches(masks, SLAVE, groups[0], 1);
  }

  lemma SecondNew(pb: Problem, t: RuleTable)
    requires pb == Beside([At(1), At(2)], NEW, ROUTED, 5) && t.GroupsOf(SLAVE) == [[1], [0, 7]]
    requires MaskOf(t.masks, SLAVE, 0) == GroupMask([0, 7], 5)
    ensures Step(t, pb, At(2)).GroupsOf(SLAVE) == [[1], [2], [0, 7]]
  {
    hide WithMask, GroupMask, SortBySize, RulesOrdered, Problem.DestsOf, MaskOf;
    DestsAre(pb);
    Sorts();
    FindGroupIs(pb, t.GroupsOf(SLAVE), 2, 0);
    assert Insert([1], 2) == [1, 2] && [[1], [0, 7]][0 := [1, 2]] == [[1, 2], [0, 7]];
    var merged := Merged(t, SLAVE, 0, 2, 5);
    assert merged.groups[SLAVE] == [[0, 7], [1, 2]];
    MaskOfWith(t.masks, SLAVE, [1, 2], GroupMask([1, 2], 5), 0);
    MergeIsRejected(merged.masks);
    assert [[1], [0, 7]] + [[2]] == [[1], [0, 7], [2]];
  }

  /** The groups in rule order: the routed ids stay together, the new ones stay alone. */
  lemma GroupsAre()
    ensures RoutedFirst([At(1), At(2)], NEW, [At(0), At(7)], ROUTED, 5).GroupsOf(SLAVE) == [[1], [2], [0, 7]]
  {
    hide Step, GroupMask, MaskOf, FindGroup;
    var routed, beside := Alone([At(0), At(7)], ROUTED, 5), Beside([At(1), At(2)], NEW, ROUTED, 5);
    var t := Compile(routed, 0);
    FirstRouted(routed, Compile(routed, 1));
    SecondRouted(routed, Compile(routed, 1));
    var u := Compile(routed, 2);
    FirstNew(beside, u);
    assert PlacedFrom(u, beside, [At(1), At(2)], 0) == u;
    var v := PlacedFrom(u, beside, [At(1), At(2)], 1);
    assert v == Step(u, beside, At(1));
    SecondNew(beside, v);
    assert PlacedFrom(u, beside, [At(1), At(2)], 2) == Step(v, beside, At(2));
  }

  /** What is emitted for them. */
  method Emitted() returns (slaveGroups: GroupMap, slaveMasks: MaskMap)
    ensures SLAVE in slaveGroups && slaveGroups[SLAVE] == [[1], [2], [0, 7]]
  {
    hide RoutedFirst, Compile;
    GroupsAre();
    slaveGroups, slaveMasks := EmitSlaveGroupsAndMasksRoutingConfig([At(1), At(2)], NEW, [At(0), At(7)], ROUTED, 5);
  }
}
