/**
 * The whole packet configuration, as `runOnPacketFlow` puts it together from the pairs, the master
 * sets and the packet rules: every packet reaches exactly its destinations.
 */
module PacketSwitch {
  import opened StreamSwitch
  import opened PacketIds
  import opened ComponentSearch
  import opened PacketRules
  import opened PacketRulesMeaning
  import opened RepeatedSlaves
  import opened TileAMSel
  import opened PacketRouting

  /** What is written into the switches: rules and masks of the slave ports, pairs of the rules, master sets. */
  datatype Configuration = Configuration(rules: RuleTable, amsels: AMSelMap, masters: MasterSets)

  /**
   * A packet with the id of `s` that enters on the port of `s` leaves on `port`: the first matching
   * rule gives the pair of the first id of its group, and the pair drives the master port.
   */
  ghost predicate Reaches(cfg: Configuration, s: PhysPortAndID, port: Port) {
    match Lookup(cfg.rules.masks, s.physPort, cfg.rules.GroupsOf(s.physPort), s.id, 0)
    case None => false
    case Some(i) =>
      var first := PhysPortAndID(s.physPort, First(cfg.rules.GroupsOf(s.physPort)[i]));
      first in cfg.amsels && Delivers(cfg.masters, s.physPort.tileLoc, cfg.amsels[first], port)
  }

  /** The flow map asks for packets of `s` on `port`. */
  ghost predicate IsDestination(flows: PacketFlowMap, s: PhysPortAndID, port: Port) {
    exists d :: Has(flows, s, d) && d.physPort.port == port
  }

  /** One of the two flow maps asks for packets of `s` on `port`. */
  ghost predicate Wanted(packetFlows: PacketFlowMap, priorPacketFlows: PacketFlowMap, s: PhysPortAndID, port: Port) {
    IsDestination(packetFlows, s, port) || IsDestination(priorPacketFlows, s, port)
  }

  lemma SendsWhatIsWanted(entries: seq<Entry>, packetFlows: PacketFlowMap, priorPacketFlows: PacketFlowMap, s: PhysPortAndID, port: Port)
    requires EntriesOf(entries, packetFlows, priorPacketFlows)
    ensures SendsTo(entries, |entries|, s, port) <==> Wanted(packetFlows, priorPacketFlows, s, port)
  {
    hide Routes;
  }

  // ---------- Which flows the rules can tell ----------

  /**
   * Ids of one port that have the same destinations for the rules are wanted on the same ports. The
   * rules know the prior destinations only when a source is in both flow maps.
   */
  ghost predicate RulesTellFlows(pb: Problem, port: PhysPort, packetFlows: PacketFlowMap, priorPacketFlows: PacketFlowMap) {
    forall s, t, p :: s in pb.workList && t in pb.workList && s.physPort == port && t.physPort == port
                      && pb.DestsOf(port, s.id) == pb.DestsOf(port, t.id) && Wanted(packetFlows, priorPacketFlows, s, p) ==>
      Wanted(packetFlows, priorPacketFlows, t, p)
  }

  ghost predicate ProblemOf(pb: Problem, packetFlows: PacketFlowMap, priorPacketFlows: PacketFlowMap) {
    pb.dests == map u | u in AllFlows(packetFlows, priorPacketFlows) :: DestPorts(AllFlows(packetFlows, priorPacketFlows)[u])
  }

  lemma SameDestsSamePorts(pb: Problem, flows: PacketFlowMap, s: PhysPortAndID, t: PhysPortAndID, port: Port)
    requires pb.dests == map u | u in flows :: DestPorts(flows[u])
    requires s in flows && t in flows && pb.DestsOf(s.physPort, s.id) == pb.DestsOf(t.physPort, t.id)
    requires IsDestination(flows, s, port)
    ensures IsDestination(flows, t, port)
  {
    assert s == PhysPortAndID(s.physPort, s.id) && t == PhysPortAndID(t.physPort, t.id);
    var d :| Has(flows, s, d) && d.physPort.port == port;
    assert d.physPort in DestPorts(flows[s]);
    assert d.physPort in DestPorts(flows[t]);
    var e :| e in flows[t] && e.physPort == d.physPort;
    assert Has(flows, t, e);
  }

  lemma WantedIsAll(packetFlows: PacketFlowMap, priorPacketFlows: PacketFlowMap, s: PhysPortAndID, port: Port)
    requires s !in packetFlows || s !in priorPacketFlows
    ensures Wanted(packetFlows, priorPacketFlows, s, port) <==> IsDestination(AllFlows(packetFlows, priorPacketFlows), s, port)
  {
    forall d ensures Has(AllFlows(packetFlows, priorPacketFlows), s, d) <==> Has(packetFlows, s, d) || Has(priorPacketFlows, s, d) {}
  }

  /** The rules tell all flows of a port when every source that is in both maps has prior destinations of its own. */
  lemma OverlapMustBeSolo(pb: Problem, port: PhysPort, packetFlows: PacketFlowMap, priorPacketFlows: PacketFlowMap)
    requires pb.WellPosed() && ProblemOf(pb, packetFlows, priorPacketFlows)
    requires forall s :: s in packetFlows && s in priorPacketFlows && s in pb.workList && s.physPort == port ==> Solo(pb, port, s.id)
    ensures RulesTellFlows(pb, port, packetFlows, priorPacketFlows)
  {
    hide IsDestination, Solo, DestPorts;
    var all := AllFlows(packetFlows, priorPacketFlows);
    forall s, t, p | s in pb.workList && t in pb.workList && s.physPort == port && t.physPort == port
                     && pb.DestsOf(port, s.id) == pb.DestsOf(port, t.id) && Wanted(packetFlows, priorPacketFlows, s, p)
      ensures Wanted(packetFlows, priorPacketFlows, t, p)
    {
      if s in packetFlows && s in priorPacketFlows {
        SoloIsOnly(pb, port, s.id, t);
      } else if t in packetFlows && t in priorPacketFlows {
        SoloIsOnly(pb, port, t.id, s);
      } else {
        WantedIsAll(packetFlows, priorPacketFlows, s, p);
        WantedIsAll(packetFlows, priorPacketFlows, t, p);
        SameDestsSamePorts(pb, all, s, t, p);
      }
    }
  }

  lemma SoloIsOnly(pb: Problem, port: PhysPort, id: Id, t: PhysPortAndID)
    requires Solo(pb, port, id) && t in pb.workList && t.physPort == port && pb.DestsOf(port, t.id) == pb.DestsOf(port, id)
    ensures t == PhysPortAndID(port, id)
  {
  }

  /** A source that is in both maps and in both slave lists is listed twice, so it is solo if only solo slaves are. */
  lemma ListedInBoth(slavePorts: seq<PhysPortAndID>, priorSlavePorts: seq<PhysPortAndID>, pb: Problem, port: PhysPort,
                     packetFlows: PacketFlowMap, priorPacketFlows: PacketFlowMap)
    requires pb.WellPosed() && ProblemOf(pb, packetFlows, priorPacketFlows) && pb.workList == priorSlavePorts + slavePorts
    requires forall s :: s in packetFlows ==> s in slavePorts
    requires forall s :: s in priorPacketFlows ==> s in priorSlavePorts
    requires RepeatsAreSolo(pb, port)
    ensures RulesTellFlows(pb, port, packetFlows, priorPacketFlows)
  {
    hide Solo, RulesTellFlows, ProblemOf;
    forall s | s in packetFlows && s in priorPacketFlows && s in pb.workList && s.physPort == port ensures Solo(pb, port, s.id) {
      var i :| 0 <= i < |priorSlavePorts| && priorSlavePorts[i] == s;
      var j :| 0 <= j < |slavePorts| && slavePorts[j] == s;
      assert pb.workList[i] == s && pb.workList[|priorSlavePorts| + j] == s;
    }
    OverlapMustBeSolo(pb, port, packetFlows, priorPacketFlows);
  }

  // ---------- Delivery ----------

  /** The configuration that `runOnPacketFlow` computes. */
  ghost predicate Configured(cfg: Configuration, pb: Problem, entries: seq<Entry>, packetFlows: PacketFlowMap, priorPacketFlows: PacketFlowMap,
                             numArbiters: TileLoc -> nat, numMSels: TileLoc -> nat)
    requires pb.numMaskBits <= 32
  {
    && ProblemOf(pb, packetFlows, priorPacketFlows)
    && EntriesOf(entries, packetFlows, priorPacketFlows)
    && cfg.rules == Compile(pb, |pb.workList|)
    && (forall u :: u in cfg.amsels <==> Listed(entries, u))
    && PairsSolved(entries, cfg.amsels, numArbiters, numMSels)
    && MastersSet(entries, cfg.amsels, cfg.masters)
  }

  /** The slave whose pair is emitted with the rule that catches `s`. */
  ghost predicate CaughtWith(t: RuleTable, s: PhysPortAndID, first: PhysPortAndID) {
    var r := Lookup(t.masks, s.physPort, t.GroupsOf(s.physPort), s.id, 0);
    r.Some? && first == PhysPortAndID(s.physPort, First(t.GroupsOf(s.physPort)[r.value]))
  }

  lemma RoutedByFirst(pb: Problem, t: RuleTable, s: PhysPortAndID) returns (first: PhysPortAndID)
    requires WellFormed(t, pb.workList) && RoutedTo(pb, t, s.physPort, s.id) == Some(pb.DestsOf(s.physPort, s.id))
    ensures CaughtWith(t, s, first) && first in pb.workList && first.physPort == s.physPort
    ensures pb.DestsOf(s.physPort, first.id) == pb.DestsOf(s.physPort, s.id)
  {
    hide RuleMatches;
    var i := Lookup(t.masks, s.physPort, t.GroupsOf(s.physPort), s.id, 0).value;
    var g := t.GroupsOf(s.physPort)[i];
    first := PhysPortAndID(s.physPort, First(g));
    assert First(g) in g;
  }

  /** The rule that catches a routed id belongs to a slave with the same destinations. */
  lemma CaughtBySameDests(pb: Problem, s: PhysPortAndID) returns (first: PhysPortAndID)
    requires pb.WellPosed() && NeverNarrows(pb, |pb.workList|) && Distinguishable(pb) && s in pb.workList
    ensures CaughtWith(Compile(pb, |pb.workList|), s, first)
    ensures first in pb.workList && first.physPort == s.physPort
    ensures pb.DestsOf(s.physPort, first.id) == pb.DestsOf(s.physPort, s.id)
  {
    hide NeverNarrows, Distinguishable, Compile, RoutedTo, WellFormed, CaughtWith;
    FirstMatchMeaning(pb);
    CompileWellFormed(pb, |pb.workList|);
    assert pb.workList[..|pb.workList|] == pb.workList;
    first := RoutedByFirst(pb, Compile(pb, |pb.workList|), s);
  }

  /** A packet reaches the ports of the slave whose pair it gets. */
  lemma ReachesPortsOfFirst(
      pb: Problem, cfg: Configuration, entries: seq<Entry>, packetFlows: PacketFlowMap, priorPacketFlows: PacketFlowMap,
      numArbiters: TileLoc -> nat, numMSels: TileLoc -> nat, s: PhysPortAndID, first: PhysPortAndID, port: Port)
    requires pb.WellPosed() && Configured(cfg, pb, entries, packetFlows, priorPacketFlows, numArbiters, numMSels)
    requires CaughtWith(cfg.rules, s, first) && first in pb.workList && numMSels(s.physPort.tileLoc) <= 8
    ensures Reaches(cfg, s, port) <==> Wanted(packetFlows, priorPacketFlows, first, port)
  {
    hide Compile, MastersSet, Wanted, PairsFit, SendsTo;
    assert first in AllFlows(packetFlows, priorPacketFlows) && Listed(entries, first);
    ExactDelivery(entries, cfg.amsels, cfg.masters, numArbiters, numMSels, first, port);
    SendsWhatIsWanted(entries, packetFlows, priorPacketFlows, first, port);
  }

  /**
   * A packet reaches exactly the ports on which it is wanted if and only if the slave that gives the
   * pair of its rule is wanted on these ports.
   */
  lemma ExactForSlave(
      pb: Problem, cfg: Configuration, entries: seq<Entry>, packetFlows: PacketFlowMap, priorPacketFlows: PacketFlowMap,
      numArbiters: TileLoc -> nat, numMSels: TileLoc -> nat, s: PhysPortAndID) returns (first: PhysPortAndID)
    requires pb.WellPosed() && NeverNarrows(pb, |pb.workList|) && Distinguishable(pb) && s in pb.workList
    requires Configured(cfg, pb, entries, packetFlows, priorPacketFlows, numArbiters, numMSels)
    requires numMSels(s.physPort.tileLoc) <= 8
    ensures CaughtWith(cfg.rules, s, first) && first in pb.workList && first.physPort == s.physPort
    ensures pb.DestsOf(s.physPort, first.id) == pb.DestsOf(s.physPort, s.id)
    ensures (forall port :: Reaches(cfg, s, port) <==> Wanted(packetFlows, priorPacketFlows, s, port)) <==>
            (forall port :: Wanted(packetFlows, priorPacketFlows, first, port) <==> Wanted(packetFlows, priorPacketFlows, s, port))
    ensures forall port :: Reaches(cfg, s, port) <==> Wanted(packetFlows, priorPacketFlows, first, port)
  {
    hide NeverNarrows, Distinguishable, Compile, Wanted, Reaches, EntriesOf, PairsSolved, MastersSet, ProblemOf;
    first := CaughtBySameDests(pb, s);
    assert CaughtWith(cfg.rules, s, first);
    forall port ensures Reaches(cfg, s, port) <==> Wanted(packetFlows, priorPacketFlows, first, port) {
      ReachesPortsOfFirst(pb, cfg, entries, packetFlows, priorPacketFlows, numArbiters, numMSels, s, first, port);
    }
  }

  /** Every packet of a routed slave reaches exactly the ports on which one of the maps wants it. */
  lemma PacketsReachTheirDestinations(
      pb: Problem, cfg: Configuration, entries: seq<Entry>, packetFlows: PacketFlowMap, priorPacketFlows: PacketFlowMap,
      numArbiters: TileLoc -> nat, numMSels: TileLoc -> nat, s: PhysPortAndID, port: Port)
    requires pb.WellPosed() && NeverNarrows(pb, |pb.workList|) && Distinguishable(pb) && s in pb.workList
    requires Configured(cfg, pb, entries, packetFlows, priorPacketFlows, numArbiters, numMSels)
    requires RulesTellFlows(pb, s.physPort, packetFlows, priorPacketFlows)
    requires numMSels(s.physPort.tileLoc) <= 8
    ensures Reaches(cfg, s, port) <==> Wanted(packetFlows, priorPacketFlows, s, port)
  {
    hide NeverNarrows, Distinguishable, Configured, Wanted, Reaches;
    var first := ExactForSlave(pb, cfg, entries, packetFlows, priorPacketFlows, numArbiters, numMSels, s);
  }

  /** Slaves with the same destinations, when these are apart from the others, are caught by one rule. */
  lemma ApartCaughtTogether(pb: Problem, s: PhysPortAndID, u: PhysPortAndID)
    requires pb.WellPosed() && RepeatsAreApart(pb, s.physPort) && s in pb.workList && u in pb.workList
    requires s.physPort == u.physPort && pb.DestsOf(s.physPort, s.id) == pb.DestsOf(s.physPort, u.id)
    requires Apart(pb, s.physPort, pb.DestsOf(s.physPort, s.id))
    ensures var t := Compile(pb, |pb.workList|);
            Lookup(t.masks, s.physPort, t.GroupsOf(s.physPort), s.id, 0) == Lookup(t.masks, s.physPort, t.GroupsOf(s.physPort), u.id, 0)
  {
    var k, port := |pb.workList|, s.physPort;
    OwnGroupCatches(pb, s);
    OwnGroupCatches(pb, u);
    CompileCalm(pb, k, port);
    hide Compile, RepeatsAreApart, Apart, Lookup, Separate, MasksAgree, Narrows, SharedIsSingle, MasksKept, FirstWins, Distinguishable;
    var groups := Compile(pb, k).GroupsOf(port);
    var i := Lookup(Compile(pb, k).masks, port, groups, s.id, 0).value;
    var j := Lookup(Compile(pb, k).masks, port, groups, u.id, 0).value;
    assert Alike(pb, port, groups[i]) && Alike(pb, port, groups[j]) by { CalmParts(pb, port, groups, Compile(pb, k).masks); }
  }

  /**
   * On a port where all destination sets are apart from each other, every packet is delivered exactly
   * if and only if the rules can tell all flows of the port.
   */
  lemma ExactOnApartPort(
      pb: Problem, cfg: Configuration, entries: seq<Entry>, packetFlows: PacketFlowMap, priorPacketFlows: PacketFlowMap,
      numArbiters: TileLoc -> nat, numMSels: TileLoc -> nat, port: PhysPort)
    requires pb.WellPosed() && NeverNarrows(pb, |pb.workList|) && Distinguishable(pb)
    requires Configured(cfg, pb, entries, packetFlows, priorPacketFlows, numArbiters, numMSels)
    requires numMSels(port.tileLoc) <= 8
    requires forall s :: s in pb.workList && s.physPort == port ==> Apart(pb, port, pb.DestsOf(port, s.id))
    ensures (forall s, p :: s in pb.workList && s.physPort == port ==>
               (Reaches(cfg, s, p) <==> Wanted(packetFlows, priorPacketFlows, s, p))) <==>
            RulesTellFlows(pb, port, packetFlows, priorPacketFlows)
  {
    hide NeverNarrows, Distinguishable, Configured, Wanted, Reaches, Apart, RepeatsAreApart, Compile, RulesTellFlows;
    AllApart(pb, port);
    ConfiguredRules(cfg, pb, entries, packetFlows, priorPacketFlows, numArbiters, numMSels);
    if RulesTellFlows(pb, port, packetFlows, priorPacketFlows) {
      forall s, p | s in pb.workList && s.physPort == port
        ensures Reaches(cfg, s, p) <==> Wanted(packetFlows, priorPacketFlows, s, p)
      {
        PacketsReachTheirDestinations(pb, cfg, entries, packetFlows, priorPacketFlows, numArbiters, numMSels, s, p);
      }
    } else if forall s, p :: s in pb.workList && s.physPort == port ==>
                (Reaches(cfg, s, p) <==> Wanted(packetFlows, priorPacketFlows, s, p)) {
      ExactTellsFlows(pb, cfg, packetFlows, priorPacketFlows, port);
      assert false;
    }
  }

  lemma ConfiguredRules(cfg: Configuration, pb: Problem, entries: seq<Entry>, packetFlows: PacketFlowMap, priorPacketFlows: PacketFlowMap,
                        numArbiters: TileLoc -> nat, numMSels: TileLoc -> nat)
    requires pb.numMaskBits <= 32 && Configured(cfg, pb, entries, packetFlows, priorPacketFlows, numArbiters, numMSels)
    ensures cfg.rules == Compile(pb, |pb.workList|)
  {
    hide Compile, EntriesOf, PairsSolved, MastersSet, ProblemOf;
  }

  lemma ExactTellsFlows(pb: Problem, cfg: Configuration, packetFlows: PacketFlowMap, priorPacketFlows: PacketFlowMap, port: PhysPort)
    requires pb.WellPosed() && cfg.rules == Compile(pb, |pb.workList|) && RepeatsAreApart(pb, port)
    requires forall s :: s in pb.workList && s.physPort == port ==> Apart(pb, port, pb.DestsOf(port, s.id))
    requires forall s, p :: s in pb.workList && s.physPort == port ==>
               (Reaches(cfg, s, p) <==> Wanted(packetFlows, priorPacketFlows, s, p))
    ensures RulesTellFlows(pb, port, packetFlows, priorPacketFlows)
  {
    hide Wanted, Reaches, Apart, RepeatsAreApart, Compile;
    forall s, t, p | s in pb.workList && t in pb.workList && s.physPort == port && t.physPort == port
                     && pb.DestsOf(port, s.id) == pb.DestsOf(port, t.id) && Wanted(packetFlows, priorPacketFlows, s, p)
      ensures Wanted(packetFlows, priorPacketFlows, t, p)
    {
      ApartCaughtTogether(pb, s, t);
      SameRuleSamePorts(cfg, s, t, p);
    }
  }

  lemma SameRuleSamePorts(cfg: Configuration, s: PhysPortAndID, u: PhysPortAndID, p: Port)
    requires s.physPort == u.physPort
    requires Lookup(cfg.rules.masks, s.physPort, cfg.rules.GroupsOf(s.physPort), s.id, 0) ==
             Lookup(cfg.rules.masks, s.physPort, cfg.rules.GroupsOf(s.physPort), u.id, 0)
    ensures Reaches(cfg, s, p) <==> Reaches(cfg, u, p)
  {
  }

  /** The part of `runOnPacketFlow` that computes the configuration of all switches. */
  method RunOnPacketFlow(numArbiters: TileLoc -> nat, numMSels: TileLoc -> nat, numMaskBits: nat,
                         slavePorts: seq<PhysPortAndID>, packetFlows: PacketFlowMap,
                         priorSlavePorts: seq<PhysPortAndID>, priorPacketFlows: PacketFlowMap)
      returns (r: Option<Configuration>, ghost entries: seq<Entry>)
    requires FlowsDirected(packetFlows) && FlowsDirected(priorPacketFlows) && numMaskBits <= 32
    requires forall s :: s in slavePorts ==> s in packetFlows
    requires forall s :: s in priorSlavePorts ==> s in priorPacketFlows
    ensures var pb := MakeProblem(slavePorts, packetFlows, priorSlavePorts, priorPacketFlows, numMaskBits);
            pb.WellPosed() && pb.workList == priorSlavePorts + slavePorts &&
            RoutedThenNew(entries, packetFlows, priorPacketFlows) &&
            (r.None? ==> NoConfiguration(entries, numArbiters, numMSels)) &&
            (r.Some? ==> PairsPlaced(entries, r.value.amsels, numArbiters, numMSels)) &&
            (r.Some? ==> r.value.rules == RoutedFirst(slavePorts, packetFlows, priorSlavePorts, priorPacketFlows, numMaskBits)) &&
            (r.Some? ==> Configured(r.value, pb, entries, packetFlows, priorPacketFlows, numArbiters, numMSels)) &&
            (r.Some? && NeverNarrows(pb, |pb.workList|) && Distinguishable(pb) ==>
              forall s, port :: s in pb.workList && numMSels(s.physPort.tileLoc) <= 8
                                && RulesTellFlows(pb, s.physPort, packetFlows, priorPacketFlows) ==>
                (Reaches(r.value, s, port) <==> Wanted(packetFlows, priorPacketFlows, s, port)))
  {
    hide EntriesOf, RoutedThenNew, PairsPlaced, NoConfiguration, PairsSolved, MastersSet, Compile;
    hide NeverNarrows, Distinguishable, RulesTellFlows, Wanted, Reaches, RoutedFirst;
    ghost var pb := MakeProblem(slavePorts, packetFlows, priorSlavePorts, priorPacketFlows, numMaskBits);
    assert pb.WellPosed();
    var routing;
    routing, entries := EmitPacketRoutingConfiguration(numArbiters, numMSels, packetFlows, priorPacketFlows);
    if routing.None? { return None, entries; }
    var slaveGroups, slaveMasks := EmitSlaveGroupsAndMasksRoutingConfig(slavePorts, packetFlows, priorSlavePorts, priorPacketFlows, numMaskBits);
    var cfg := Configuration(RuleTable(slaveGroups, slaveMasks), routing.value.1, routing.value.0);
    r := Some(cfg);
    assert Configured(cfg, pb, entries, packetFlows, priorPacketFlows, numArbiters, numMSels);
    hide Configured;
    if NeverNarrows(pb, |pb.workList|) && Distinguishable(pb) {
      forall s, port | s in pb.workList && numMSels(s.physPort.tileLoc) <= 8
                       && RulesTellFlows(pb, s.physPort, packetFlows, priorPacketFlows)
        ensures Reaches(cfg, s, port) <==> Wanted(packetFlows, priorPacketFlows, s, port)
      {
        PacketsReachTheirDestinations(pb, cfg, entries, packetFlows, priorPacketFlows, numArbiters, numMSels, s, port);
      }
    }
  }
}
