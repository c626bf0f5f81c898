/**
 * A source that is in the prior and in the new packet flows: its rule is found by its prior
 * destinations, its arbiter and msel are for all of them, and another id gets packets too many.
 */
module SourceInBothMaps {
  import opened StreamSwitch
  import opened PacketIds
  import opened ComponentSearch
  import opened PacketRules
  import opened PacketRulesMeaning
  import opened RepeatedSlaves
  import opened PacketRouting
  import opened PacketSwitch

  const TILE := TileLoc(0, 2)
  const SLAVE := PhysPort(TILE, Port(South, 0), Src)
  const X := PhysPort(TILE, Port(Dma, 0), Dst)
  const Y := PhysPort(TILE, Port(Dma, 1), Dst)

  function At(id: Id): PhysPortAndID {
    PhysPortAndID(SLAVE, id)
  }

  /** Packets 0 go to X already; now they are to go to Y as well, and packets 1 to X. */
  const PRIOR: PacketFlowMap := map[At(0) := [PhysPortAndID(X, 0)]]
  const NEW: PacketFlowMap := map[At(0) := [PhysPortAndID(Y, 0)], At(1) := [PhysPortAndID(X, 1)]]

  lemma SameDestinations(pb: Problem)
    requires ProblemOf(pb, NEW, PRIOR)
    ensures pb.DestsOf(SLAVE, 0) == {X} && pb.DestsOf(SLAVE, 1) == {X}
  {
    var all := AllFlows(NEW, PRIOR);
    assert all[At(0)] == [PhysPortAndID(X, 0)] && all[At(1)] == [PhysPortAndID(X, 1)];
    assert DestPorts(all[At(0)]) == {X} && DestPorts(all[At(1)]) == {X};
  }

  lemma WantedPorts()
    ensures Wanted(NEW, PRIOR, At(0), Y.port) && !Wanted(NEW, PRIOR, At(1), Y.port)
  {
    assert Has(NEW, At(0), PhysPortAndID(Y, 0));
    assert At(1) !in PRIOR && NEW[At(1)] == [PhysPortAndID(X, 1)];
  }

  lemma FirstIsLeast(g: Group, x: Id)
    requires Ascending(g) && x in g
    ensures First(g) <= x
  {
    var k :| 0 <= k < |g| && g[k] == x;
    assert g[0] <= g[k];
  }

  lemma ZeroIsFirst(g: Group)
    requires Ascending(g) && 0 in g
    ensures First(g) == 0
  {
    FirstIsLeast(g, 0);
  }

  ghost predicate OnlyBoth(pb: Problem) {
    At(0) in pb.workList && At(1) in pb.workList && forall s :: s in pb.workList ==> s == At(0) || s == At(1)
  }

  lemma OnlyBothLists(pb: Problem)
    requires OnlyBoth(pb)
    ensures At(0) in pb.workList && At(1) in pb.workList && At(1).physPort == SLAVE
  {
  }

  /** There is one destination set, which is apart from the others. */
  lemma IsHarmless(pb: Problem)
    requires pb.WellPosed() && ProblemOf(pb, NEW, PRIOR) && OnlyBoth(pb)
    ensures NeverNarrows(pb, |pb.workList|) && Distinguishable(pb)
    ensures Apart(pb, SLAVE, {X}) && RepeatsAreApart(pb, SLAVE)
  {
    SameDestinations(pb);
    hide ProblemOf;
    assert At(0).id == 0 && At(1).id == 1;
    assert Apart(pb, SLAVE, {X});
    hide Apart, RepeatsAreApart, RepeatsAreSolo, NeverNarrows;
    forall port ensures RepeatsAreApart(pb, port) { AllApart(pb, port); }
    HarmlessNeverNarrows(pb);
  }

  /** Both ids are caught by one rule, which is emitted with the pair of id 0. */
  lemma CaughtWithZero(pb: Problem)
    requires pb.WellPosed() && ProblemOf(pb, NEW, PRIOR) && OnlyBoth(pb)
    ensures CaughtWith(Compile(pb, |pb.workList|), At(1), At(0))
  {
    SameDestinations(pb);
    IsHarmless(pb);
    hide Compile, ProblemOf, RepeatsAreApart, NeverNarrows, Apart, Distinguishable, Lookup, GroupMask;
    assert At(0).id == 0 && At(1).id == 1;
    var k := |pb.workList|;
    var t := Compile(pb, k);
    OwnGroupCatches(pb, At(0));
    ApartCaughtTogether(pb, At(0), At(1));
    var groups := t.GroupsOf(SLAVE);
    GroupsAscend(pb, k);
    var i := Lookup(t.masks, SLAVE, groups, 0, 0).value;
    ZeroIsFirst(groups[i]);
  }

  lemma GroupsAscend(pb: Problem, k: nat)
    requires pb.numMaskBits <= 32 && k <= |pb.workList|
    ensures var groups := Compile(pb, k).GroupsOf(SLAVE); forall i :: 0 <= i < |groups| ==> Ascending(groups[i])
  {
    hide Compile, MasksKept, SharedIsSingle, FirstWins, Members, Distinguishable;
    CompileOk(pb, k);
    var t := Compile(pb, k);
    assert PortOk(pb, SLAVE, t.GroupsOf(SLAVE), t.masks);
    forall i | 0 <= i < |t.GroupsOf(SLAVE)| ensures Ascending(t.GroupsOf(SLAVE)[i]) {
      assert Alike(pb, SLAVE, t.GroupsOf(SLAVE)[i]);
    }
  }

  lemma BothAreListed(slavePorts: seq<PhysPortAndID>, numMaskBits: nat)
    requires numMaskBits <= 32 && slavePorts in {[At(1)], [At(0), At(1)]}
    ensures var pb := MakeProblem(slavePorts, NEW, [At(0)], PRIOR, numMaskBits);
            pb.WellPosed() && ProblemOf(pb, NEW, PRIOR) && OnlyBoth(pb)
  {
    var pb := MakeProblem(slavePorts, NEW, [At(0)], PRIOR, numMaskBits);
    assert pb.workList == [At(0)] + slavePorts;
    assert pb.workList[0] == At(0) && pb.workList[|pb.workList| - 1] == At(1);
  }

  lemma RulesCannotTell(pb: Problem)
    requires ProblemOf(pb, NEW, PRIOR) && OnlyBoth(pb)
    ensures !RulesTellFlows(pb, SLAVE, NEW, PRIOR)
  {
    SameDestinations(pb);
    WantedPorts();
    hide Wanted, ProblemOf;
    assert At(0).physPort == SLAVE && At(1).physPort == SLAVE && At(0).id == 0 && At(1).id == 1;
  }

  /**
   * Whether id 0 is listed once, with its prior flow, or again with the new ones: packets 1 also leave
   * on Y, where they are not wanted.
   */
  lemma OverlapMisdelivers(slavePorts: seq<PhysPortAndID>, numMaskBits: nat, cfg: Configuration, entries: seq<Entry>,
                           numArbiters: TileLoc -> nat, numMSels: TileLoc -> nat)
    requires numMaskBits <= 32 && slavePorts in {[At(1)], [At(0), At(1)]} && numMSels(TILE) <= 8
    requires var pb := MakeProblem(slavePorts, NEW, [At(0)], PRIOR, numMaskBits);
             Configured(cfg, pb, entries, NEW, PRIOR, numArbiters, numMSels)
    ensures var pb := MakeProblem(slavePorts, NEW, [At(0)], PRIOR, numMaskBits);
            pb.WellPosed() && NeverNarrows(pb, |pb.workList|) && Distinguishable(pb) && !RulesTellFlows(pb, SLAVE, NEW, PRIOR)
    ensures Reaches(cfg, At(1), Y.port) && !Wanted(NEW, PRIOR, At(1), Y.port)
  {
    hide MakeProblem, OnlyBoth, AllFlows, ProblemOf, Configured, Compile, Wanted, Reaches, Distinguishable, NeverNarrows, CaughtWith, Apart, RepeatsAreApart,
      RulesTellFlows;
    BothAreListed(slavePorts, numMaskBits);
    var pb := MakeProblem(slavePorts, NEW, [At(0)], PRIOR, numMaskBits);
    OnlyBothLists(pb);
    IsHarmless(pb);
    RulesCannotTell(pb);
    CaughtWithZero(pb);
    WantedPorts();
    ConfiguredRules(cfg, pb, entries, NEW, PRIOR, numArbiters, numMSels);
    ReachesPortsOfFirst(pb, cfg, entries, NEW, PRIOR, numArbiters, numMSels, At(1), At(0), Y.port);
  }
}
