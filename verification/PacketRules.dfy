/**
 * The compiler from "packet id to destination set" to ordered first-match packet rules
 * (`emitSlaveGroupsAndMasksRoutingConfig` and its helpers).
 */
module PacketRules {
  import opened Words
  import opened StreamSwitch
  import opened PacketIds
  import opened GroupOrder

  type MaskMap = map<PhysPortAndID, Word>
  type GroupMap = map<PhysPort, seq<Group>>

  /** The groups of every slave port, in rule order, and the mask of every 'port and id'. */
  datatype RuleTable = RuleTable(groups: GroupMap, masks: MaskMap) {
    function GroupsOf(port: PhysPort): seq<Group> {
      if port in groups then groups[port] else []
    }
  }

  /** What is to be compiled: destinations, work list and width of the masks. */
  datatype Problem = Problem(
    dests: map<PhysPortAndID, set<PhysPort>>, workList: seq<PhysPortAndID>, numMaskBits: nat)
  {
    /** Every slave has destinations, as `physPortAndIDToPhysPort.at` demands. */
    ghost predicate WellPosed() {
      numMaskBits <= 32 && forall s :: s in workList ==> s in dests
    }

    function DestsOf(port: PhysPort, id: Id): set<PhysPort> {
      if PhysPortAndID(port, id) in dests then dests[PhysPortAndID(port, id)] else {}
    }
  }

  predicate NonEmpty(groups: seq<Group>) {
    forall i :: 0 <= i < |groups| ==> groups[i] != []
  }

  // ---------- The specification of one step ----------

  /** The first group, from index `from` on, with the destinations of `id`. */
  function FindGroup(pb: Problem, port: PhysPort, groups: seq<Group>, id: Id, from: nat): (r: Option<nat>)
    requires from <= |groups|
    ensures r.Some? ==> from <= r.value < |groups| && pb.DestsOf(port, First(groups[r.value])) == pb.DestsOf(port, id)
    ensures r.Some? ==> forall i :: from <= i < r.value ==> pb.DestsOf(port, First(groups[i])) != pb.DestsOf(port, id)
    ensures r.None? ==> forall i :: from <= i < |groups| ==> pb.DestsOf(port, First(groups[i])) != pb.DestsOf(port, id)
    decreases |groups| - from
  {
    if from == |groups| then None
    else if pb.DestsOf(port, First(groups[from])) == pb.DestsOf(port, id) then Some(from)
    else FindGroup(pb, port, groups, id, from + 1)
  }

  /** `masks` after the mask of every id of `g` on `port` has been set. */
  ghost function WithMask(masks: MaskMap, port: PhysPort, g: Group, mask: Word): MaskMap {
    map k | k in masks.Keys + (set x | x in g :: PhysPortAndID(port, x)) ::
      if k.physPort == port && k.id in g then mask else masks[k]
  }

  function MaskOf(masks: MaskMap, port: PhysPort, id: Id): Word {
    if PhysPortAndID(port, id) in masks then masks[PhysPortAndID(port, id)] else 0
  }

  /** The rule of group `g` as it is emitted, with the mask stored for the first id of the group. */
  predicate RuleMatches(masks: MaskMap, port: PhysPort, g: Group, id: Id) {
    And(id, MaskOf(masks, port, First(g))) == And(First(g), MaskOf(masks, port, First(g)))
  }

  /** No id of a later group matches the rule of an earlier one. */
  ghost predicate RulesOrdered(masks: MaskMap, port: PhysPort, groups: seq<Group>) {
    forall i, j, x :: 0 <= i < j < |groups| && x in groups[j] ==> !RuleMatches(masks, port, groups[i], x)
  }

  ghost function AddSingleton(t: RuleTable, port: PhysPort, id: Id, numMaskBits: nat): RuleTable
    requires numMaskBits <= 32
  {
    RuleTable(t.groups[port := SortBySize(t.GroupsOf(port) + [[id]])],
              WithMask(t.masks, port, [id], GroupMask([id], numMaskBits)))
  }

  /** The table after group `i` of the port has taken in `id`. */
  ghost function Merged(t: RuleTable, port: PhysPort, i: nat, id: Id, numMaskBits: nat): RuleTable
    requires numMaskBits <= 32 && i < |t.GroupsOf(port)|
  {
    var groups := t.GroupsOf(port);
    var g := Insert(groups[i], id);
    RuleTable(t.groups[port := SortBySize(groups[i := g])],
              WithMask(t.masks, port, g, GroupMask(g, numMaskBits)))
  }

  ghost function Step(t: RuleTable, pb: Problem, slave: PhysPortAndID): RuleTable
    requires pb.numMaskBits <= 32
  {
    var port, id, n := slave.physPort, slave.id, pb.numMaskBits;
    var groups := t.GroupsOf(port);
    match FindGroup(pb, port, groups, id, 0)
    case None => AddSingleton(t, port, id, n)
    case Some(i) =>
      var merged := Merged(t, port, i, id, n);
      if RulesOrdered(merged.masks, port, merged.groups[port]) then merged
      else AddSingleton(t.(masks := WithMask(merged.masks, port, groups[i], GroupMask(groups[i], n))), port, id, n)
  }

  /** The table after the first `k` slaves of the work list. */
  ghost function Compile(pb: Problem, k: nat): RuleTable
    requires pb.numMaskBits <= 32 && k <= |pb.workList|
  {
    if k == 0 then RuleTable(map[], map[])
    else Step(Compile(pb, k - 1), pb, pb.workList[k - 1])
  }

  // ---------- The code ----------

  /** `updateGroupMask` */
  method UpdateGroupMask(slavePort: PhysPort, group: Group, slaveMasks: MaskMap, numMaskBits: nat)
      returns (r: MaskMap)
    requires numMaskBits <= 32
    ensures r == WithMask(slaveMasks, slavePort, group, GroupMask(group, numMaskBits))
  {
    if group == [] { return slaveMasks; }
    var mask := FullMask(numMaskBits);
    var firstId := group[0];
    for n := 0 to |group|
      invariant mask == CommonBits(FullMask(numMaskBits), firstId, group[..n])
    {
      mask := DropDifferingBits(mask, firstId, group[n]);
      assert group[..n + 1][..n] == group[..n];
    }
    assert group[..|group|] == group;
    r := SetMasks(slavePort, group, slaveMasks, mask);
  }

  method SetMasks(slavePort: PhysPort, group: Group, slaveMasks: MaskMap, mask: Word) returns (r: MaskMap)
    ensures r == WithMask(slaveMasks, slavePort, group, mask)
  {
    r := slaveMasks;
    for n := 0 to |group|
      invariant forall k :: k in r <==> k in slaveMasks || (k.physPort == slavePort && k.id in group[..n])
      invariant forall k :: k in r ==>
                  r[k] == if k.physPort == slavePort && k.id in group[..n] then mask else slaveMasks[k]
    {
      r := r[PhysPortAndID(slavePort, group[n]) := mask];
      assert group[..n + 1] == group[..n] + [group[n]];
    }
    assert group[..|group|] == group;
  }

  /** `verifyGroupsByMask` */
  method VerifyGroupsByMask(slavePort: PhysPort, groups: seq<Group>, slaveMasks: MaskMap) returns (ok: bool)
    requires NonEmpty(groups)
    requires forall i :: 0 <= i < |groups| ==> PhysPortAndID(slavePort, First(groups[i])) in slaveMasks
    ensures ok <==> RulesOrdered(slaveMasks, slavePort, groups)
  {
    for i := 0 to |groups|
      invariant forall k, j, x :: 0 <= k < i && k < j < |groups| && x in groups[j] ==>
                  !RuleMatches(slaveMasks, slavePort, groups[k], x)
    {
      var iPktId := groups[i][0];
      var iMask := slaveMasks[PhysPortAndID(slavePort, iPktId)];
      var iMaskedId := And(iPktId, iMask);
      for j := i + 1 to |groups|
        invariant forall l, x :: i < l < j && x in groups[l] ==> !RuleMatches(slaveMasks, slavePort, groups[i], x)
      {
        for k := 0 to |groups[j]|
          invariant forall m :: 0 <= m < k ==> !RuleMatches(slaveMasks, slavePort, groups[i], groups[j][m])
        {
          if And(groups[j][k], iMask) == iMaskedId {
            assert RuleMatches(slaveMasks, slavePort, groups[i], groups[j][k]);
            return false;
          }
        }
      }
    }
    return true;
  }

  /** What every table has: no empty group, only ids seen so far, and a mask for each of them. */
  ghost predicate WellFormed(t: RuleTable, seen: seq<PhysPortAndID>) {
    forall p, i :: 0 <= i < |t.GroupsOf(p)| ==>
      t.GroupsOf(p)[i] != [] &&
      forall x :: x in t.GroupsOf(p)[i] ==> PhysPortAndID(p, x) in seen && PhysPortAndID(p, x) in t.masks
  }

  lemma SortedMembers(groups: seq<Group>)
    ensures |SortBySize(groups)| == |groups|
    ensures forall i :: 0 <= i < |groups| ==> SortBySize(groups)[i] in groups
    ensures forall i :: 0 <= i < |groups| ==> groups[i] in SortBySize(groups)
  {
    var s := SortBySize(groups);
    SortBySizeAdds(groups);
    assert |multiset(groups)| == |groups| && |multiset(s)| == |s|;
    forall i | 0 <= i < |groups| ensures s[i] in groups && groups[i] in s {
      assert s[i] in multiset(s) && groups[i] in multiset(groups);
    }
  }

  lemma WithMaskKeys(masks: MaskMap, port: PhysPort, g: Group, mask: Word)
    ensures forall p, x :: PhysPortAndID(p, x) in WithMask(masks, port, g, mask) <==>
              PhysPortAndID(p, x) in masks || (p == port && x in g)
  {
    forall p, x ensures PhysPortAndID(p, x) in WithMask(masks, port, g, mask) <==> PhysPortAndID(p, x) in masks || (p == port && x in g) {
      assert PhysPortAndID(p, x).id == x;
    }
  }

  ghost predicate GroupOk(g: Group, port: PhysPort, masks: MaskMap, seen: seq<PhysPortAndID>) {
    g != [] && forall x :: x in g ==> PhysPortAndID(port, x) in seen && PhysPortAndID(port, x) in masks
  }

  /** When the groups of a port are `groups` in another order, and the masks of `g` are set. */
  lemma SortedWellFormed(t: RuleTable, r: RuleTable, port: PhysPort, groups: seq<Group>, g: Group, mask: Word,
                         seen: seq<PhysPortAndID>, id: Id)
    requires WellFormed(t, seen) && r == RuleTable(t.groups[port := SortBySize(groups)], WithMask(t.masks, port, g, mask))
    requires forall i :: 0 <= i < |groups| ==> groups[i] == g || groups[i] in t.GroupsOf(port)
    requires g != [] && forall x :: x in g ==> x == id || PhysPortAndID(port, x) in seen
    ensures WellFormed(r, seen + [PhysPortAndID(port, id)])
  {
    SortedMembers(groups);
    WithMaskKeys(t.masks, port, g, mask);
    hide SortBySize, WithMask;
    forall p, i | 0 <= i < |r.GroupsOf(p)| ensures GroupOk(r.GroupsOf(p)[i], p, r.masks, seen + [PhysPortAndID(port, id)]) {
      var h := r.GroupsOf(p)[i];
      if p != port {
        assert h == t.GroupsOf(p)[i];
      } else if h != g {
        assert h in groups;
        var k :| 0 <= k < |t.GroupsOf(port)| && t.GroupsOf(port)[k] == h;
      }
    }
  }

  lemma AddSingletonWellFormed(t: RuleTable, port: PhysPort, id: Id, n: nat, seen: seq<PhysPortAndID>)
    requires n <= 32 && WellFormed(t, seen)
    ensures WellFormed(AddSingleton(t, port, id, n), seen + [PhysPortAndID(port, id)])
  {
    hide SortBySize, GroupMask, WithMask, WellFormed;
    SortedWellFormed(t, AddSingleton(t, port, id, n), port, t.GroupsOf(port) + [[id]], [id], GroupMask([id], n), seen, id);
  }

  lemma MergedWellFormed(t: RuleTable, port: PhysPort, j: nat, id: Id, n: nat, seen: seq<PhysPortAndID>)
    requires n <= 32 && WellFormed(t, seen) && j < |t.GroupsOf(port)|
    ensures WellFormed(Merged(t, port, j, id, n), seen + [PhysPortAndID(port, id)])
  {
    hide SortBySize, GroupMask, WithMask;
    var groups, g := t.GroupsOf(port), Insert(t.GroupsOf(port)[j], id);
    SortedWellFormed(t, Merged(t, port, j, id, n), port, groups[j := g], g, GroupMask(g, n), seen, id);
  }

  lemma MoreMasksWellFormed(t: RuleTable, masks: MaskMap, seen: seq<PhysPortAndID>)
    requires WellFormed(t, seen) && t.masks.Keys <= masks.Keys
    ensures WellFormed(t.(masks := masks), seen)
  {
    forall p ensures t.(masks := masks).GroupsOf(p) == t.GroupsOf(p) {}
  }

  lemma StepWellFormed(t: RuleTable, pb: Problem, slave: PhysPortAndID, seen: seq<PhysPortAndID>)
    requires pb.numMaskBits <= 32 && WellFormed(t, seen)
    ensures WellFormed(Step(t, pb, slave), seen + [slave])
  {
    hide WellFormed;
    hide RulesOrdered;
    var port, id, n := slave.physPort, slave.id, pb.numMaskBits;
    assert slave == PhysPortAndID(port, id);
    match FindGroup(pb, port, t.GroupsOf(port), id, 0) {
      case None => AddSingletonWellFormed(t, port, id, n, seen);
      case Some(i) =>
        MergedWellFormed(t, port, i, id, n, seen);
        var merged, g := Merged(t, port, i, id, n), t.GroupsOf(port)[i];
        var masks := WithMask(merged.masks, port, g, GroupMask(g, n));
        MoreMasksWellFormed(t, masks, seen);
        AddSingletonWellFormed(t.(masks := masks), port, id, n, seen);
    }
  }

  lemma {:induction false} CompileWellFormed(pb: Problem, k: nat)
    requires pb.numMaskBits <= 32 && k <= |pb.workList|
    ensures WellFormed(Compile(pb, k), pb.workList[..k])
  {
    hide Step;
    if k > 0 {
      CompileWellFormed(pb, k - 1);
      hide WellFormed;
      StepWellFormed(Compile(pb, k - 1), pb, pb.workList[k - 1], pb.workList[..k - 1]);
      assert pb.workList[..k] == pb.workList[..k - 1] + [pb.workList[k - 1]];
    }
  }

  // ---------- The main routine ----------

  function DestPorts(dsts: seq<PhysPortAndID>): set<PhysPort> {
    set d | d in dsts :: d.physPort
  }

  /** The flows of both maps; a source that occurs in both keeps its prior destinations. */
  function AllFlows(packetFlows: PacketFlowMap, priorPacketFlows: PacketFlowMap): PacketFlowMap {
    packetFlows + priorPacketFlows
  }

  function MakeProblem(slavePorts: seq<PhysPortAndID>, packetFlows: PacketFlowMap,
                       priorSlavePorts: seq<PhysPortAndID>, priorPacketFlows: PacketFlowMap,
                       numMaskBits: nat): Problem
  {
    var all := AllFlows(packetFlows, priorPacketFlows);
    Problem(map s | s in all :: DestPorts(all[s]), priorSlavePorts + slavePorts, numMaskBits)
  }

  // ---------- Routed flows first ----------

  /** `t` after the first `k` of the slaves have been placed, one by one. */
  ghost function PlacedFrom(t: RuleTable, pb: Problem, slaves: seq<PhysPortAndID>, k: nat): RuleTable
    requires pb.numMaskBits <= 32 && k <= |slaves|
  {
    if k == 0 then t else Step(PlacedFrom(t, pb, slaves, k - 1), pb, slaves[k - 1])
  }

  /** The slaves of one flow map alone. */
  function Alone(slaves: seq<PhysPortAndID>, flows: PacketFlowMap, numMaskBits: nat): Problem {
    Problem(map s | s in flows :: set d | d in flows[s] :: d.physPort, slaves, numMaskBits)
  }

  /** New slaves, when the destinations of the routed flows are known too and go before the new ones. */
  function Beside(slaves: seq<PhysPortAndID>, flows: PacketFlowMap, routed: PacketFlowMap, numMaskBits: nat): Problem {
    Problem(map s | s in flows.Keys + routed.Keys :: if s in routed then set d | d in routed[s] :: d.physPort else set d | d in flows[s] :: d.physPort,
            slaves, numMaskBits)
  }

  /**
   * The table of the routed flows alone, and then the new slaves placed into it, in their order.
   */
  ghost function RoutedFirst(slavePorts: seq<PhysPortAndID>, packetFlows: PacketFlowMap,
                             priorSlavePorts: seq<PhysPortAndID>, priorPacketFlows: PacketFlowMap, numMaskBits: nat): RuleTable
    requires numMaskBits <= 32
  {
    var routed := Alone(priorSlavePorts, priorPacketFlows, numMaskBits);
    PlacedFrom(Compile(routed, |priorSlavePorts|), Beside(slavePorts, packetFlows, priorPacketFlows, numMaskBits), slavePorts, |slavePorts|)
  }

  /** Only the destinations of the slave and of the ids in its port's groups matter for a step. */
  lemma StepWithSameDests(t: RuleTable, pb: Problem, pb': Problem, slave: PhysPortAndID)
    requires pb.numMaskBits == pb'.numMaskBits <= 32 && NonEmpty(t.GroupsOf(slave.physPort))
    requires pb.DestsOf(slave.physPort, slave.id) == pb'.DestsOf(slave.physPort, slave.id)
    requires forall i :: 0 <= i < |t.GroupsOf(slave.physPort)| ==>
               var x := First(t.GroupsOf(slave.physPort)[i]); pb.DestsOf(slave.physPort, x) == pb'.DestsOf(slave.physPort, x)
    ensures Step(t, pb, slave) == Step(t, pb', slave)
  {
    hide Merged, AddSingleton, RulesOrdered, WithMask, Problem.DestsOf;
    FindWithSameDests(pb, pb', slave.physPort, t.GroupsOf(slave.physPort), slave.id, 0);
  }

  lemma {:induction false} FindWithSameDests(pb: Problem, pb': Problem, port: PhysPort, groups: seq<Group>, id: Id, from: nat)
    requires from <= |groups| && pb.DestsOf(port, id) == pb'.DestsOf(port, id)
    requires forall i :: 0 <= i < |groups| ==> pb.DestsOf(port, First(groups[i])) == pb'.DestsOf(port, First(groups[i]))
    ensures FindGroup(pb, port, groups, id, from) == FindGroup(pb', port, groups, id, from)
    decreases |groups| - from
  {
    hide Problem.DestsOf;
    if from < |groups| { FindWithSameDests(pb, pb', port, groups, id, from + 1); }
  }

  /** As long as only routed slaves have been placed, the new flows make no difference. */
  lemma {:induction false} RoutedAlone(pb: Problem, routed: Problem, k: nat)
    requires pb.numMaskBits == routed.numMaskBits <= 32 && k <= |routed.workList| <= |pb.workList|
    requires pb.workList[..|routed.workList|] == routed.workList
    requires forall s :: s in routed.workList ==> pb.DestsOf(s.physPort, s.id) == routed.DestsOf(s.physPort, s.id)
    ensures Compile(pb, k) == Compile(routed, k)
  {
    hide Step, WellFormed, Problem.DestsOf;
    if k > 0 {
      RoutedAlone(pb, routed, k - 1);
      var t, slave := Compile(routed, k - 1), routed.workList[k - 1];
      assert pb.workList[k - 1] == pb.workList[..|routed.workList|][k - 1] == slave;
      CompileWellFormed(routed, k - 1);
      SeenWellFormed(t, routed.workList, k - 1);
      FirstIdsHaveMasks(t, slave.physPort, routed.workList);
      assert slave in routed.workList;
      StepWithSameDests(t, pb, routed, slave);
    }
  }

  lemma {:induction false} ThenTheNew(pb: Problem, beside: Problem, n: nat, slaves: seq<PhysPortAndID>, k: nat)
    requires pb.numMaskBits == beside.numMaskBits <= 32 && pb.dests == beside.dests
    requires n + |slaves| == |pb.workList| && pb.workList[n..] == slaves && k <= |slaves|
    ensures Compile(pb, n + k) == PlacedFrom(Compile(pb, n), beside, slaves, k)
  {
    hide Step;
    if k > 0 {
      ThenTheNew(pb, beside, n, slaves, k - 1);
      assert pb.workList[n + k - 1] == pb.workList[n..][k - 1];
      var t, slave := Compile(pb, n + k - 1), slaves[k - 1];
      CompileWellFormed(pb, n + k - 1);
      SeenWellFormed(t, pb.workList, n + k - 1);
      FirstIdsHaveMasks(t, slave.physPort, pb.workList);
      StepWithSameDests(t, pb, beside, slave);
    }
  }

  lemma RoutedComeFirst(slavePorts: seq<PhysPortAndID>, packetFlows: PacketFlowMap,
                        priorSlavePorts: seq<PhysPortAndID>, priorPacketFlows: PacketFlowMap, numMaskBits: nat)
    requires numMaskBits <= 32 && forall s :: s in priorSlavePorts ==> s in priorPacketFlows
    ensures var pb := MakeProblem(slavePorts, packetFlows, priorSlavePorts, priorPacketFlows, numMaskBits);
            Compile(pb, |pb.workList|) == RoutedFirst(slavePorts, packetFlows, priorSlavePorts, priorPacketFlows, numMaskBits)
  {
    hide Step;
    var pb := MakeProblem(slavePorts, packetFlows, priorSlavePorts, priorPacketFlows, numMaskBits);
    var routed := Alone(priorSlavePorts, priorPacketFlows, numMaskBits);
    var beside := Beside(slavePorts, packetFlows, priorPacketFlows, numMaskBits);
    assert pb.dests == beside.dests;
    forall s | s in priorSlavePorts ensures pb.DestsOf(s.physPort, s.id) == routed.DestsOf(s.physPort, s.id) {
      assert s == PhysPortAndID(s.physPort, s.id);
    }
    RoutedAlone(pb, routed, |priorSlavePorts|);
    ThenTheNew(pb, beside, |priorSlavePorts|, slavePorts, |slavePorts|);
  }

  /** The search for a group with the destinations of `slave1`. */
  method FindMatchingGroup(pb: Problem, slave1: PhysPortAndID, groups: seq<Group>) returns (matchedGroupIdx: Option<nat>)
    requires slave1 in pb.dests && NonEmpty(groups)
    requires forall i :: 0 <= i < |groups| ==> PhysPortAndID(slave1.physPort, First(groups[i])) in pb.dests
    ensures matchedGroupIdx == FindGroup(pb, slave1.physPort, groups, slave1.id, 0)
  {
    var dests1 := pb.dests[slave1];
    for i := 0 to |groups|
      invariant FindGroup(pb, slave1.physPort, groups, slave1.id, 0) == FindGroup(pb, slave1.physPort, groups, slave1.id, i)
    {
      var slave2 := PhysPortAndID(slave1.physPort, groups[i][0]);
      var dests2 := pb.dests[slave2];
      if |dests1| != |dests2| { continue; }
      if forall d :: d in dests1 ==> d in dests2 {
        SameSizeSubset(dests1, dests2);
        return Some(i);
      }
    }
    return None;
  }

  lemma SameSizeSubset<T>(a: set<T>, b: set<T>)
    requires a <= b && |a| == |b|
    ensures a == b
  {
    assert |b - a| == |b| - |a|;
  }

  /** `emitSlaveGroupsAndMasksRoutingConfig` */
  method EmitSlaveGroupsAndMasksRoutingConfig(
      slavePorts: seq<PhysPortAndID>, packetFlows: PacketFlowMap,
      priorSlavePorts: seq<PhysPortAndID>, priorPacketFlows: PacketFlowMap, numMaskBits: nat)
      returns (slaveGroups: GroupMap, slaveMasks: MaskMap)
    requires MakeProblem(slavePorts, packetFlows, priorSlavePorts, priorPacketFlows, numMaskBits).WellPosed()
    ensures var pb := MakeProblem(slavePorts, packetFlows, priorSlavePorts, priorPacketFlows, numMaskBits);
            RuleTable(slaveGroups, slaveMasks) == Compile(pb, |pb.workList|)
    ensures (forall s :: s in priorSlavePorts ==> s in priorPacketFlows) ==>
              RuleTable(slaveGroups, slaveMasks) == RoutedFirst(slavePorts, packetFlows, priorSlavePorts, priorPacketFlows, numMaskBits)
  {
    hide Step;
    hide WellFormed;
    hide RoutedFirst;
    if forall s :: s in priorSlavePorts ==> s in priorPacketFlows {
      RoutedComeFirst(slavePorts, packetFlows, priorSlavePorts, priorPacketFlows, numMaskBits);
    }
    var problem := MakeProblem(slavePorts, packetFlows, priorSlavePorts, priorPacketFlows, numMaskBits);
    slaveGroups, slaveMasks := map[], map[];
    for k := 0 to |problem.workList|
      invariant RuleTable(slaveGroups, slaveMasks) == Compile(problem, k)
    {
      CompileWellFormed(problem, k);
      SeenWellFormed(Compile(problem, k), problem.workList, k);
      slaveGroups, slaveMasks := PlaceSlave(problem, problem.workList[k], slaveGroups, slaveMasks);
    }
  }

  lemma SeenWellFormed(t: RuleTable, workList: seq<PhysPortAndID>, k: nat)
    requires k <= |workList| && WellFormed(t, workList[..k])
    ensures WellFormed(t, workList)
  {
  }

  lemma FirstIdsHaveMasks(t: RuleTable, port: PhysPort, seen: seq<PhysPortAndID>)
    requires WellFormed(t, seen)
    ensures NonEmpty(t.GroupsOf(port))
    ensures forall i :: 0 <= i < |t.GroupsOf(port)| ==>
              PhysPortAndID(port, First(t.GroupsOf(port)[i])) in t.masks &&
              PhysPortAndID(port, First(t.GroupsOf(port)[i])) in seen
  {
    forall i | 0 <= i < |t.GroupsOf(port)| ensures t.GroupsOf(port)[i] != [] {}
  }

  /** The attempt to merge, in the groups of one port, and its undoing when the result is invalid. */
  method TryMerge(slave1: PhysPortAndID, matchedGroupIdx: nat, groupsIn: seq<Group>, masksIn: MaskMap, numMaskBits: nat,
                  ghost t: RuleTable, ghost seen: seq<PhysPortAndID>)
      returns (valid: bool, groups: seq<Group>, slaveMasks: MaskMap)
    requires numMaskBits <= 32 && WellFormed(t, seen)
    requires groupsIn == t.GroupsOf(slave1.physPort) && masksIn == t.masks && matchedGroupIdx < |groupsIn|
    ensures var merged := Merged(t, slave1.physPort, matchedGroupIdx, slave1.id, numMaskBits);
            valid == RulesOrdered(merged.masks, slave1.physPort, merged.groups[slave1.physPort]) &&
            if valid then groups == merged.groups[slave1.physPort] && slaveMasks == merged.masks
            else groups == groupsIn &&
                 slaveMasks == WithMask(merged.masks, slave1.physPort, groupsIn[matchedGroupIdx],
                                        GroupMask(groupsIn[matchedGroupIdx], numMaskBits))
  {
    hide RulesOrdered;
    hide WithMask;
    var port, i := slave1.physPort, matchedGroupIdx;
    MergedWellFormed(t, port, i, slave1.id, numMaskBits, seen);
    FirstIdsHaveMasks(Merged(t, port, i, slave1.id, numMaskBits), port, seen + [PhysPortAndID(port, slave1.id)]);
    hide WellFormed;
    // A copy of the groups in case the merge is invalid.
    var groupsCopy := groupsIn;
    groups := groupsIn[i := Insert(groupsIn[i], slave1.id)];
    slaveMasks := UpdateGroupMask(port, groups[i], masksIn, numMaskBits);
    groups := SortGroupsBySize(groups);
    valid := VerifyGroupsByMask(port, groups, slaveMasks);
    if !valid {
      // The old groups are assigned back, so element `i` is the old group again.
      groups := groupsCopy;
      slaveMasks := UpdateGroupMask(port, groups[i], slaveMasks, numMaskBits);
    }
  }

  /** The body of the work-list loop. */
  method PlaceSlave(pb: Problem, slave1: PhysPortAndID, groupsIn: GroupMap, masksIn: MaskMap)
      returns (slaveGroups: GroupMap, slaveMasks: MaskMap)
    requires pb.WellPosed() && slave1 in pb.workList
    requires WellFormed(RuleTable(groupsIn, masksIn), pb.workList)
    ensures RuleTable(slaveGroups, slaveMasks) == Step(RuleTable(groupsIn, masksIn), pb, slave1)
  {
    hide RulesOrdered;
    hide WithMask;
    hide SortBySize;
    ghost var t := RuleTable(groupsIn, masksIn);
    var port := slave1.physPort;
    var groups := if port in groupsIn then groupsIn[port] else [];
    FirstIdsHaveMasks(t, port, pb.workList);
    hide WellFormed;
    var matchedGroupIdx := FindMatchingGroup(pb, slave1, groups);
    hide FindGroup;
    slaveMasks := masksIn;
    if matchedGroupIdx.Some? {
      var valid;
      valid, groups, slaveMasks := TryMerge(slave1, matchedGroupIdx.value, groups, slaveMasks, pb.numMaskBits, t, pb.workList);
      if valid {
        slaveGroups := groupsIn[port := groups];
        return;
      }
    }
    var group := [slave1.id];
    slaveMasks := UpdateGroupMask(port, group, slaveMasks, pb.numMaskBits);
    groups := SortGroupsBySize(groups + [group]);
    slaveGroups := groupsIn[port := groups];
  }
}
