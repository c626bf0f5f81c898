/** Allocation of DMA channels to circuit and packet flows (`ChannelGenerator`). */
module ChannelGenerator {
  import opened Division
  import opened StreamSwitch

  datatype ChannelAssignmentMode = FirstAvailableCircuitFlow | FirstAvailablePacketFlow | RoundRobinPacketFlow

  // ---------- Sets that remember the order of insertion ----------

  type SetVector = s: seq<nat> | forall i, j :: 0 <= i < j < |s| ==> s[i] != s[j]

  function Insert(s: SetVector, x: nat): SetVector {
    if x in s then s else s + [x]
  }

  function Remove(s: SetVector, x: nat): (r: SetVector)
    ensures forall y :: y in r <==> y in s && y != x
    ensures x !in s ==> r == s
  {
    if s == [] then []
    else
      var last := s[|s| - 1];
      assert s == s[..|s| - 1] + [last] && last !in s[..|s| - 1];
      var init := Remove(s[..|s| - 1], x);
      if last == x then init
      else
        assert last !in init;
        init + [last]
  }

  lemma RemoveLast(s: SetVector, x: nat)
    requires s != []
    ensures var init, last := s[..|s| - 1], s[|s| - 1];
            Remove(s, x) == if last == x then Remove(init, x) else Remove(init, x) + [last]
  {
  }

  /** What is removed leaves the order of the others as it is. */
  lemma {:induction false} RemoveAt(s: SetVector, k: nat)
    requires k < |s|
    ensures Remove(s, s[k]) == s[..k] + s[k + 1..]
  {
    hide Remove;
    var init, last := s[..|s| - 1], s[|s| - 1];
    RemoveLast(s, s[k]);
    if k < |s| - 1 {
      RemoveAt(init, k);
      assert init[k] == s[k] && init[..k] == s[..k];
      assert s[k + 1..] == init[k + 1..] + [last];
    } else {
      assert Remove(init, last) == init;
    }
  }

  /** Removed and inserted again, an element is at the end. */
  lemma Reinserted(s: SetVector, x: nat)
    ensures Insert(Remove(s, x), x) == Remove(s, x) + [x]
    ensures x !in s ==> Remove(s, x) == s
    ensures s != [] && s[0] == x ==> Remove(s, x) == s[1..]
  {
    if s != [] { RemoveAt(s, 0); }
    hide Remove;
  }

  // ---------- One direction: producers or consumers ----------

  /** The channels of one direction and those assigned to circuit and to packet flows. */
  datatype Side = Side(numChannels: nat, circuit: SetVector, packet: SetVector) {
    /** Circuit and packet channels are different channels that exist. */
    ghost predicate Valid() {
      && (forall c :: c in circuit ==> c !in packet && c < numChannels)
      && (forall c :: c in packet ==> c < numChannels)
    }

    /** There is no channel left that no flow uses. */
    ghost predicate AllTaken() {
      forall c :: 0 <= c < numChannels ==> c in circuit || c in packet
    }
  }

  predicate Excluded(excludeSets: seq<SetVector>, channel: nat) {
    exists i :: 0 <= i < |excludeSets| && channel in excludeSets[i]
  }

  /** The first channel, from `channel` on, that is in none of the sets. */
  function FirstAvailable(numChannels: nat, excludeSets: seq<SetVector>, channel: nat): (r: Option<nat>)
    requires channel <= numChannels
    ensures r.Some? ==> channel <= r.value < numChannels && !Excluded(excludeSets, r.value)
    ensures r.Some? ==> forall c :: channel <= c < r.value ==> Excluded(excludeSets, c)
    ensures r.None? ==> forall c :: channel <= c < numChannels ==> Excluded(excludeSets, c)
    decreases numChannels - channel
  {
    if channel == numChannels then None
    else if !Excluded(excludeSets, channel) then Some(channel)
    else FirstAvailable(numChannels, excludeSets, channel + 1)
  }

  function Choose(s: Side, mode: ChannelAssignmentMode): Option<nat> {
    match mode
    case FirstAvailableCircuitFlow => FirstAvailable(s.numChannels, [s.circuit, s.packet], 0)
    case FirstAvailablePacketFlow => FirstAvailable(s.numChannels, [s.circuit], 0)
    case RoundRobinPacketFlow =>
      var channel := FirstAvailable(s.numChannels, [s.circuit, s.packet], 0);
      if channel == None && s.packet != [] then Some(s.packet[0]) else channel
  }

  function Assign(s: Side, channel: nat, mode: ChannelAssignmentMode): Side {
    match mode
    case FirstAvailableCircuitFlow => s.(circuit := Insert(s.circuit, channel))
    case FirstAvailablePacketFlow => s.(packet := Insert(s.packet, channel))
    case RoundRobinPacketFlow => s.(packet := Insert(Remove(s.packet, channel), channel))
  }

  function GetAndAssign(s: Side, mode: ChannelAssignmentMode): Side {
    match Choose(s, mode)
    case None => s
    case Some(channel) => Assign(s, channel, mode)
  }

  /** The side after a run of requests. */
  function Run(s: Side, modes: seq<ChannelAssignmentMode>): Side {
    if modes == [] then s else GetAndAssign(Run(s, modes[..|modes| - 1]), modes[|modes| - 1])
  }

  /** The answer to request `i` of a run. */
  function Answer(s: Side, modes: seq<ChannelAssignmentMode>, i: nat): Option<nat>
    requires i < |modes|
  {
    Choose(Run(s, modes[..i]), modes[i])
  }

  // ---------- One request ----------

  lemma ExcludedBy(a: SetVector, b: SetVector, c: nat)
    ensures Excluded([a, b], c) <==> c in a || c in b
    ensures Excluded([a], c) <==> c in a
  {
    assert [a, b][0] == a && [a, b][1] == b && [a][0] == a;
  }

  /** What a request is answered, in all modes. */
  lemma Answered(s: Side, mode: ChannelAssignmentMode)
    requires s.Valid()
    ensures Choose(s, mode).None? <==>
            match mode
            case FirstAvailableCircuitFlow => s.AllTaken()
            case _ => forall c :: 0 <= c < s.numChannels ==> c in s.circuit
    ensures Choose(s, mode).Some? ==>
              var c := Choose(s, mode).value;
              && c < s.numChannels && c !in s.circuit
              && (mode == FirstAvailableCircuitFlow ==> c !in s.packet)
              && (mode == RoundRobinPacketFlow && c in s.packet ==> s.AllTaken() && c == s.packet[0])
  {
    forall c ensures Excluded([s.circuit, s.packet], c) <==> c in s.circuit || c in s.packet { ExcludedBy(s.circuit, s.packet, c); }
    forall c ensures Excluded([s.circuit], c) <==> c in s.circuit { ExcludedBy(s.circuit, s.packet, c); }
    if s.packet != [] { assert s.packet[0] in s.packet; }
  }

  /** Circuit and packet channels stay apart; none is given up; the answer is assigned to a flow of its kind. */
  lemma GetAndAssignKeeps(s: Side, mode: ChannelAssignmentMode)
    requires s.Valid()
    ensures var t := GetAndAssign(s, mode);
            && t.Valid() && t.numChannels == s.numChannels
            && (forall c :: c in t.circuit <==> c in s.circuit || (mode == FirstAvailableCircuitFlow && Choose(s, mode) == Some(c)))
            && (forall c :: c in t.packet <==> c in s.packet || (mode != FirstAvailableCircuitFlow && Choose(s, mode) == Some(c)))
  {
    Answered(s, mode);
  }

  // ---------- Runs ----------

  lemma {:induction false} RunKeeps(s: Side, modes: seq<ChannelAssignmentMode>)
    requires s.Valid()
    ensures Run(s, modes).Valid() && Run(s, modes).numChannels == s.numChannels
  {
    if modes != [] {
      RunKeeps(s, modes[..|modes| - 1]);
      GetAndAssignKeeps(Run(s, modes[..|modes| - 1]), modes[|modes| - 1]);
    }
  }

  lemma {:induction false} CircuitsStay(s: Side, modes: seq<ChannelAssignmentMode>, i: nat, j: nat, c: nat)
    requires s.Valid() && i <= j <= |modes| && c in Run(s, modes[..i]).circuit
    ensures c in Run(s, modes[..j]).circuit
    decreases j
  {
    hide Choose, GetAndAssign, Side.Valid;
    if i < j {
      CircuitsStay(s, modes, i, j - 1, c);
      assert modes[..j][..j - 1] == modes[..j - 1];
      RunKeeps(s, modes[..j - 1]);
      GetAndAssignKeeps(Run(s, modes[..j - 1]), modes[j - 1]);
    }
  }

  /** A channel that was given to a circuit flow is never given out again. */
  lemma CircuitNeverAgain(s: Side, modes: seq<ChannelAssignmentMode>, i: nat, j: nat)
    requires s.Valid() && i < j < |modes| && modes[i] == FirstAvailableCircuitFlow && Answer(s, modes, i).Some?
    ensures Answer(s, modes, j) != Answer(s, modes, i)
  {
    var c := Answer(s, modes, i).value;
    RunKeeps(s, modes[..i]);
    GetAndAssignKeeps(Run(s, modes[..i]), modes[i]);
    assert modes[..i + 1][..i] == modes[..i];
    CircuitsStay(s, modes, i + 1, j, c);
    RunKeeps(s, modes[..j]);
    Answered(Run(s, modes[..j]), modes[j]);
  }

  /** And it had not been given to any flow before. */
  lemma CircuitNeverBefore(s: Side, modes: seq<ChannelAssignmentMode>, i: nat, j: nat)
    requires s.Valid() && i < j < |modes| && modes[j] == FirstAvailableCircuitFlow && Answer(s, modes, i).Some?
    ensures Answer(s, modes, j) != Answer(s, modes, i)
  {
    if modes[i] == FirstAvailableCircuitFlow {
      CircuitNeverAgain(s, modes, i, j);
    } else {
      var c := Answer(s, modes, i).value;
      RunKeeps(s, modes[..i]);
      GetAndAssignKeeps(Run(s, modes[..i]), modes[i]);
      assert modes[..i + 1][..i] == modes[..i];
      PacketsStay(s, modes, i + 1, j, c);
      RunKeeps(s, modes[..j]);
      Answered(Run(s, modes[..j]), modes[j]);
    }
  }

  lemma {:induction false} PacketsStay(s: Side, modes: seq<ChannelAssignmentMode>, i: nat, j: nat, c: nat)
    requires s.Valid() && i <= j <= |modes| && c in Run(s, modes[..i]).packet
    ensures c in Run(s, modes[..j]).packet
    decreases j
  {
    hide Choose, GetAndAssign, Side.Valid;
    if i < j {
      PacketsStay(s, modes, i, j - 1, c);
      assert modes[..j][..j - 1] == modes[..j - 1];
      RunKeeps(s, modes[..j - 1]);
      GetAndAssignKeeps(Run(s, modes[..j - 1]), modes[j - 1]);
    }
  }

  // ---------- The least recently used channel ----------

  /** One more than the last request of the run that was answered `c`; 0 if none was. */
  function LastUse(s: Side, modes: seq<ChannelAssignmentMode>, c: nat): nat {
    if modes == [] then 0
    else if Answer(s, modes, |modes| - 1) == Some(c) then |modes|
    else LastUse(s, modes[..|modes| - 1], c)
  }

  /** After the run the packet channels are listed in the order of their last use. */
  ghost predicate ByUse(s: Side, modes: seq<ChannelAssignmentMode>) {
    var packet := Run(s, modes).packet;
    forall a, b :: 0 <= a < b < |packet| ==> LastUse(s, modes, packet[a]) <= LastUse(s, modes, packet[b])
  }

  /** The request uses a packet channel again, without moving it, that is not the last of the list. */
  ghost predicate SkipsQueue(t: Side, mode: ChannelAssignmentMode) {
    && mode == FirstAvailablePacketFlow && Choose(t, mode).Some?
    && Choose(t, mode).value in t.packet && Choose(t, mode).value != t.packet[|t.packet| - 1]
  }

  lemma {:induction false} UsedBefore(s: Side, modes: seq<ChannelAssignmentMode>, c: nat)
    ensures LastUse(s, modes, c) <= |modes|
  {
    if modes != [] { UsedBefore(s, modes[..|modes| - 1], c); }
  }

  lemma OneMoreUse(s: Side, modes: seq<ChannelAssignmentMode>, mode: ChannelAssignmentMode, c: nat)
    ensures Run(s, modes + [mode]) == GetAndAssign(Run(s, modes), mode)
    ensures LastUse(s, modes + [mode], c) ==
            if Choose(Run(s, modes), mode) == Some(c) then |modes| + 1 else LastUse(s, modes, c)
  {
    hide Choose, GetAndAssign;
    assert (modes + [mode])[..|modes|] == modes;
  }

  /** What a request does to the list of packet channels: the answer is put at the end, or nothing changes. */
  lemma PacketAfter(t: Side, mode: ChannelAssignmentMode)
    requires t.Valid()
    ensures var packet, c := GetAndAssign(t, mode).packet, Choose(t, mode);
            if c == None || mode == FirstAvailableCircuitFlow || (mode == FirstAvailablePacketFlow && c.value in t.packet)
            then packet == t.packet
            else if c.value in t.packet then packet == t.packet[1..] + [c.value] && t.packet[0] == c.value
            else packet == t.packet + [c.value]
  {
    Answered(t, mode);
    hide Choose, Remove, Side.Valid, Side.AllTaken;
    if Choose(t, mode).Some? { Reinserted(t.packet, Choose(t, mode).value); }
  }

  /** Whether the channels of a list are in the order of their uses. */
  ghost predicate InOrderOf(packet: seq<nat>, use: nat -> nat) {
    forall a, b :: 0 <= a < b < |packet| ==> use(packet[a]) <= use(packet[b])
  }

  /** `use'` differs from `use` in the use of `c`, which is the last one. */
  ghost predicate UsedNow(use: nat -> nat, use': nat -> nat, c: nat, now: nat) {
    forall x :: use(x) <= now && use'(x) == if x == c then now + 1 else use(x)
  }

  /** The used channel is put at the end. */
  lemma MovedToEnd(before: SetVector, after: seq<nat>, use: nat -> nat, use': nat -> nat, c: nat, now: nat)
    requires InOrderOf(before, use) && UsedNow(use, use', c, now)
    requires (c !in before && after == before + [c]) || (before != [] && before[0] == c && after == before[1..] + [c])
    ensures InOrderOf(after, use')
  {
  }

  /** The used channel stays at its place. */
  lemma NotMoved(packet: SetVector, use: nat -> nat, use': nat -> nat, c: nat, now: nat)
    requires InOrderOf(packet, use) && UsedNow(use, use', c, now) && c in packet
    ensures InOrderOf(packet, use') <==> c == packet[|packet| - 1]
  {
    var k :| 0 <= k < |packet| && packet[k] == c;
    if k < |packet| - 1 {
      assert use'(packet[k]) > use'(packet[|packet| - 1]);
    }
  }

  ghost function Uses(s: Side, modes: seq<ChannelAssignmentMode>): nat -> nat {
    x => LastUse(s, modes, x)
  }

  lemma UsesAfter(s: Side, modes: seq<ChannelAssignmentMode>, mode: ChannelAssignmentMode)
    ensures Run(s, modes + [mode]) == GetAndAssign(Run(s, modes), mode)
    ensures match Choose(Run(s, modes), mode)
            case None => forall x :: Uses(s, modes + [mode])(x) == Uses(s, modes)(x)
            case Some(c) => UsedNow(Uses(s, modes), Uses(s, modes + [mode]), c, |modes|)
  {
    hide Choose, GetAndAssign, LastUse, Run;
    OneMoreUse(s, modes, mode, 0);
    forall x: nat ensures LastUse(s, modes, x) <= |modes|
                  ensures LastUse(s, modes + [mode], x) ==
                          if Choose(Run(s, modes), mode) == Some(x) then |modes| + 1 else LastUse(s, modes, x)
    {
      UsedBefore(s, modes, x);
      OneMoreUse(s, modes, mode, x);
    }
  }

  lemma ByUseIs(s: Side, modes: seq<ChannelAssignmentMode>)
    ensures ByUse(s, modes) <==> InOrderOf(Run(s, modes).packet, Uses(s, modes))
  {
    hide LastUse, Run;
  }

  /** The order of use is kept unless the request skips the queue. */
  lemma StillByUse(s: Side, modes: seq<ChannelAssignmentMode>, mode: ChannelAssignmentMode)
    requires s.Valid() && ByUse(s, modes)
    ensures ByUse(s, modes + [mode]) <==> !SkipsQueue(Run(s, modes), mode)
  {
    var t, now := Run(s, modes), |modes|;
    RunKeeps(s, modes);
    Answered(t, mode);
    PacketAfter(t, mode);
    UsesAfter(s, modes, mode);
    ByUseIs(s, modes);
    ByUseIs(s, modes + [mode]);
    hide Choose, GetAndAssign, LastUse, Run, ByUse, UsedNow, Uses;
    var use, use' := Uses(s, modes), Uses(s, modes + [mode]);
    if Choose(t, mode).None? {
    } else if mode == FirstAvailableCircuitFlow {
      NotAmong(t.packet, use, use', Choose(t, mode).value, now);
    } else if mode == FirstAvailablePacketFlow && Choose(t, mode).value in t.packet {
      NotMoved(t.packet, use, use', Choose(t, mode).value, now);
    } else {
      MovedToEnd(t.packet, Run(s, modes + [mode]).packet, use, use', Choose(t, mode).value, now);
    }
  }

  lemma NotAmong(packet: SetVector, use: nat -> nat, use': nat -> nat, c: nat, now: nat)
    requires InOrderOf(packet, use) && UsedNow(use, use', c, now) && c !in packet
    ensures InOrderOf(packet, use')
  {
  }

  /**
   * The packet channels are listed in the order of their last use, after every request of the run, if and
   * only if no request `FirstAvailablePacketFlow` is answered with a packet channel that is not the last one.
   */
  lemma {:induction false} ListedByUse(s: Side, modes: seq<ChannelAssignmentMode>)
    requires s.Valid()
    ensures (forall k :: 0 <= k <= |modes| ==> ByUse(s, modes[..k])) <==>
            (forall k :: 0 <= k < |modes| ==> !SkipsQueue(Run(s, modes[..k]), modes[k]))
  {
    hide ByUse, SkipsQueue, Run;
    if modes == [] {
      NoUseYet(s);
    } else {
      var init, last := modes[..|modes| - 1], modes[|modes| - 1];
      ListedByUse(s, init);
      forall k | 0 <= k <= |init| ensures init[..k] == modes[..k] {}
      assert modes[..|modes|] == init + [last] && modes[..|init|] == init;
      if ByUse(s, init) { StillByUse(s, init, last); }
    }
  }

  lemma NoUseYet(s: Side)
    ensures ByUse(s, [])
  {
  }

  /** While the channels are listed in the order of use, a channel that is used again by round robin is a least recently used one. */
  lemma RoundRobinIsLeastUsed(s: Side, modes: seq<ChannelAssignmentMode>, c: nat, d: nat)
    requires s.Valid() && ByUse(s, modes)
    requires Choose(Run(s, modes), RoundRobinPacketFlow) == Some(c) && c in Run(s, modes).packet && d in Run(s, modes).packet
    ensures Run(s, modes).AllTaken() && LastUse(s, modes, c) <= LastUse(s, modes, d)
  {
    RunKeeps(s, modes);
    Answered(Run(s, modes), RoundRobinPacketFlow);
    hide Choose, Run, LastUse;
    var packet := Run(s, modes).packet;
    var k :| 0 <= k < |packet| && packet[k] == d;
    if k > 0 { assert LastUse(s, modes, packet[0]) <= LastUse(s, modes, packet[k]); }
  }

  /** The least channel that may be chosen is chosen. */
  lemma ChooseLeast(s: Side, mode: ChannelAssignmentMode, c: nat)
    requires c < s.numChannels && c !in s.circuit && (mode != FirstAvailablePacketFlow ==> c !in s.packet)
    requires forall d :: 0 <= d < c ==> d in s.circuit || (mode != FirstAvailablePacketFlow && d in s.packet)
    ensures Choose(s, mode) == Some(c)
  {
    forall d ensures Excluded([s.circuit, s.packet], d) <==> d in s.circuit || d in s.packet { ExcludedBy(s.circuit, s.packet, d); }
    forall d ensures Excluded([s.circuit], d) <==> d in s.circuit { ExcludedBy(s.circuit, s.packet, d); }
    hide Excluded;
  }

  /** A chosen packet channel is appended, or stays where it is. */
  lemma AppendedOrKept(s: Side, mode: ChannelAssignmentMode, c: nat, packet: SetVector)
    requires s.Valid() && Choose(s, mode) == Some(c) && mode != FirstAvailableCircuitFlow
    requires if c in s.packet then mode == FirstAvailablePacketFlow && packet == s.packet else packet == s.packet + [c]
    ensures GetAndAssign(s, mode) == s.(packet := packet)
  {
    PacketAfter(s, mode);
    hide Choose, Remove;
  }

  // Two channels, none of them used, then the first and then both by packet flows.
  const UNUSED := Side(2, [], [])
  const ONE_USED := Side(2, [], [0])
  const BOTH_USED := Side(2, [], [0, 1])

  const TWICE := [RoundRobinPacketFlow, RoundRobinPacketFlow]

  lemma FirstUse()
    ensures Choose(UNUSED, RoundRobinPacketFlow) == Some(0) && GetAndAssign(UNUSED, RoundRobinPacketFlow) == ONE_USED
  {
    ChooseLeast(UNUSED, RoundRobinPacketFlow, 0);
    hide Choose, GetAndAssign;
    assert [] + [0] == [0];
    AppendedOrKept(UNUSED, RoundRobinPacketFlow, 0, [0]);
  }

  lemma SecondUse()
    ensures Choose(ONE_USED, RoundRobinPacketFlow) == Some(1) && GetAndAssign(ONE_USED, RoundRobinPacketFlow) == BOTH_USED
  {
    ChooseLeast(ONE_USED, RoundRobinPacketFlow, 1);
    hide Choose, GetAndAssign;
    assert [0] + [1] == [0, 1];
    AppendedOrKept(ONE_USED, RoundRobinPacketFlow, 1, [0, 1]);
  }

  lemma BothAgain()
    ensures Choose(BOTH_USED, FirstAvailablePacketFlow) == Some(0) && GetAndAssign(BOTH_USED, FirstAvailablePacketFlow) == BOTH_USED
    ensures Choose(BOTH_USED, RoundRobinPacketFlow) == Some(0)
  {
    ChooseLeast(BOTH_USED, FirstAvailablePacketFlow, 0);
    hide Choose, GetAndAssign;
    assert BOTH_USED.packet[0] == 0 && BOTH_USED.packet[1] == 1;
    AppendedOrKept(BOTH_USED, FirstAvailablePacketFlow, 0, [0, 1]);
    RoundRobinRotates(BOTH_USED);
  }

  lemma UsedTwice()
    ensures Run(UNUSED, TWICE) == BOTH_USED
  {
    FirstUse();
    SecondUse();
    hide Choose, GetAndAssign, LastUse;
    OneMoreUse(UNUSED, [], RoundRobinPacketFlow, 0);
    OneMoreUse(UNUSED, [RoundRobinPacketFlow], RoundRobinPacketFlow, 0);
    assert [] + [RoundRobinPacketFlow] == [RoundRobinPacketFlow] && TWICE == [RoundRobinPacketFlow] + [RoundRobinPacketFlow];
  }

  /**
   * Of two channels, both used once, `FirstAvailablePacketFlow` uses the first again; then round robin
   * answers it once more, although the other one is the least recently used.
   */
  lemma NotAlwaysLeastUsed()
    ensures var modes := TWICE + [FirstAvailablePacketFlow];
            && Run(UNUSED, TWICE) == BOTH_USED && SkipsQueue(BOTH_USED, FirstAvailablePacketFlow)
            && Choose(BOTH_USED, FirstAvailablePacketFlow) == Some(0) && Run(UNUSED, modes) == BOTH_USED
            && Choose(BOTH_USED, RoundRobinPacketFlow) == Some(0)
            && LastUse(UNUSED, modes, 1) < LastUse(UNUSED, modes, 0)
  {
    UsedTwice();
    BothAgain();
    hide Choose, GetAndAssign, Run, LastUse;
    assert BOTH_USED.packet[1] == 1;
    OneMoreUse(UNUSED, TWICE, FirstAvailablePacketFlow, 0);
    OneMoreUse(UNUSED, TWICE, FirstAvailablePacketFlow, 1);
    UsedBefore(UNUSED, TWICE, 1);
  }

  // ---------- Round robin ----------

  function RoundRobins(k: nat): seq<ChannelAssignmentMode> {
    seq(k, i => RoundRobinPacketFlow)
  }

  /** `s` moved on by `k` places. */
  function Rotated(s: seq<nat>, k: nat): seq<nat>
    requires k <= |s|
  {
    s[k..] + s[..k]
  }

  lemma RotateOn(s: seq<nat>, k: nat)
    requires k < |s|
    ensures Rotated(s, k)[1..] + [Rotated(s, k)[0]] == Rotated(s, if k + 1 == |s| then 0 else k + 1)
  {
    if k + 1 == |s| {
      assert s[k..] == [s[k]] && s == s[..k] + [s[k]];
    } else {
      assert s[k..][1..] == s[k + 1..] && s[..k + 1] == s[..k] + [s[k]];
    }
  }

  lemma RotatedElements(s: seq<nat>, k: nat, c: nat)
    requires k < |s|
    ensures c in Rotated(s, k) <==> c in s
    ensures Rotated(s, k)[0] == s[k]
  {
    assert s == s[..k] + s[k..];
  }

  /** When all channels are taken a round-robin request moves the first packet channel to the end. */
  lemma RoundRobinRotates(s: Side)
    requires s.Valid() && s.AllTaken() && s.packet != []
    ensures Choose(s, RoundRobinPacketFlow) == Some(s.packet[0])
    ensures GetAndAssign(s, RoundRobinPacketFlow) == s.(packet := s.packet[1..] + [s.packet[0]])
  {
    Answered(s, RoundRobinPacketFlow);
    PacketAfter(s, RoundRobinPacketFlow);
    hide Choose, Remove;
    assert s.packet[0] in s.packet;
  }

  /** All channels are taken, and the packet channels are those of `s` moved on by `r` places. */
  ghost predicate RotatedBy(s: Side, t: Side, r: nat) {
    r < |s.packet| && t.Valid() && t.AllTaken() && t == s.(packet := t.packet) && t.packet == Rotated(s.packet, r)
  }

  lemma RotatedOnce(s: Side, t: Side, r: nat)
    requires RotatedBy(s, t, r)
    ensures RotatedBy(s, GetAndAssign(t, RoundRobinPacketFlow), if r + 1 == |s.packet| then 0 else r + 1)
  {
    var next := if r + 1 == |s.packet| then 0 else r + 1;
    RoundRobinRotates(t);
    GetAndAssignKeeps(t, RoundRobinPacketFlow);
    RotateOn(s.packet, r);
    hide Choose, GetAndAssign, Rotated;
    forall c ensures c in Rotated(s.packet, next) <==> c in Rotated(s.packet, r) {
      RotatedElements(s.packet, next, c);
      RotatedElements(s.packet, r, c);
    }
  }

  /** Whose turn of `n` it is in round `k`. */
  function Turn(k: nat, n: nat): (r: nat)
    requires n > 0
    ensures r < n
  {
    k % n
  }

  lemma NextTurn(k: nat, n: nat)
    requires n > 0
    ensures Turn(0, n) == 0
    ensures Turn(k + 1, n) == if Turn(k, n) + 1 == n then 0 else Turn(k, n) + 1
  {
    NextModulo(k, n);
  }

  lemma {:induction false} AfterRoundRobins(s: Side, k: nat)
    requires s.Valid() && s.AllTaken() && s.packet != []
    ensures RotatedBy(s, Run(s, RoundRobins(k)), Turn(k, |s.packet|))
  {
    hide Choose, GetAndAssign, RotatedBy, Turn;
    if k == 0 {
      NotRotated(s);
      NextTurn(0, |s.packet|);
    } else {
      AfterRoundRobins(s, k - 1);
      assert RoundRobins(k)[..k - 1] == RoundRobins(k - 1);
      NextTurn(k - 1, |s.packet|);
      RotatedOnce(s, Run(s, RoundRobins(k - 1)), Turn(k - 1, |s.packet|));
    }
  }

  lemma NotRotated(s: Side)
    requires s.Valid() && s.AllTaken() && s.packet != []
    ensures RotatedBy(s, s, 0)
  {
    assert Rotated(s.packet, 0) == s.packet;
  }

  /**
   * When all channels are taken, round-robin request `k` is answered the packet channel `k` modulo
   * their number; so as many consecutive requests as there are packet channels return each one once.
   */
  lemma RoundRobinIsFair(s: Side, modes: seq<ChannelAssignmentMode>, k: nat)
    requires s.Valid() && s.AllTaken() && s.packet != []
    requires k < |modes| && forall i :: 0 <= i < |modes| ==> modes[i] == RoundRobinPacketFlow
    ensures Answer(s, modes, k) == Some(s.packet[k % |s.packet|])
  {
    AfterRoundRobins(s, k);
    assert modes[..k] == RoundRobins(k);
    RotatedElements(s.packet, Turn(k, |s.packet|), s.packet[0]);
    RoundRobinRotates(Run(s, modes[..k]));
    hide Choose, Run, Rotated;
  }

  // ---------- When round robin answers a least recently used channel ----------

  /** The channel that round robin would use again is a least recently used one. */
  ghost predicate FrontIsLeast(s: Side, modes: seq<ChannelAssignmentMode>) {
    var packet := Run(s, modes).packet;
    forall c :: c in packet ==> LastUse(s, modes, packet[0]) <= LastUse(s, modes, c)
  }

  lemma MoreRoundRobins(modes: seq<ChannelAssignmentMode>, k: nat, l: nat)
    ensures modes + RoundRobins(0) == modes
    ensures modes + RoundRobins(k + 1) == modes + RoundRobins(k) + [RoundRobinPacketFlow]
    ensures modes + RoundRobins(k) + RoundRobins(l) == modes + RoundRobins(k + l)
    ensures modes + [RoundRobinPacketFlow] + RoundRobins(k) == modes + RoundRobins(k + 1)
  {
  }

  /** After `k` more round-robin requests the packet channels have been moved on by `k` places. */
  lemma {:induction false} AfterMore(s: Side, modes: seq<ChannelAssignmentMode>, k: nat)
    requires s.Valid() && Run(s, modes).AllTaken() && k < |Run(s, modes).packet|
    ensures RotatedBy(Run(s, modes), Run(s, modes + RoundRobins(k)), k)
  {
    RunKeeps(s, modes);
    hide Choose, GetAndAssign, RotatedBy, Run, LastUse, RoundRobins, Side.Valid, Side.AllTaken;
    if k == 0 {
      MoreRoundRobins(modes, 0, 0);
      NotRotated(Run(s, modes));
    } else {
      AfterMore(s, modes, k - 1);
      OneMoreRoundRobin(s, modes, k - 1);
      NextIsUsed(Run(s, modes), Run(s, modes + RoundRobins(k - 1)), k - 1);
    }
  }

  lemma OneMoreRoundRobin(s: Side, modes: seq<ChannelAssignmentMode>, k: nat)
    ensures Run(s, modes + RoundRobins(k + 1)) == GetAndAssign(Run(s, modes + RoundRobins(k)), RoundRobinPacketFlow)
  {
    hide Choose, GetAndAssign, Run, LastUse;
    MoreRoundRobins(modes, k, 0);
    OneMoreUse(s, modes + RoundRobins(k), RoundRobinPacketFlow, 0);
  }

  /** And the first `k` of them have been used, in this order. */
  lemma {:induction false} UsesAfterMore(s: Side, modes: seq<ChannelAssignmentMode>, k: nat, i: nat)
    requires s.Valid() && Run(s, modes).AllTaken() && k < |Run(s, modes).packet| && i < |Run(s, modes).packet|
    ensures var c := Run(s, modes).packet[i];
            LastUse(s, modes + RoundRobins(k), c) == if i < k then |modes| + i + 1 else LastUse(s, modes, c)
  {
    var packet := Run(s, modes).packet;
    hide Choose, GetAndAssign, RotatedBy, Run, LastUse, RoundRobins, Side.Valid, Side.AllTaken;
    MoreRoundRobins(modes, if k == 0 then 0 else k - 1, 0);
    RoundRobinCount(k);
    if k > 0 {
      UsesAfterMore(s, modes, k - 1, i);
      AfterMore(s, modes, k - 1);
      RoundRobinCount(k - 1);
      NextIsUsed(Run(s, modes), Run(s, modes + RoundRobins(k - 1)), k - 1);
      OneMoreUse(s, modes + RoundRobins(k - 1), RoundRobinPacketFlow, packet[i]);
      assert packet[i] == packet[k - 1] <==> i == k - 1;
    }
  }

  lemma RoundRobinCount(k: nat)
    ensures |RoundRobins(k)| == k
  {
  }

  /** One more round-robin request, when the packet channels have been moved on by `k` places. */
  lemma NextIsUsed(s: Side, t: Side, k: nat)
    requires RotatedBy(s, t, k)
    ensures Choose(t, RoundRobinPacketFlow) == Some(s.packet[k])
    ensures k + 1 < |s.packet| ==> RotatedBy(s, GetAndAssign(t, RoundRobinPacketFlow), k + 1)
  {
    RotatedElements(s.packet, k, s.packet[k]);
    RoundRobinRotates(t);
    RotatedOnce(s, t, k);
    hide Choose, GetAndAssign, Rotated, Side.Valid, Side.AllTaken;
  }

  lemma FrontIsLeastAfter(s: Side, modes: seq<ChannelAssignmentMode>, k: nat)
    requires s.Valid() && Run(s, modes).AllTaken() && k < |Run(s, modes).packet|
    ensures FrontIsLeast(s, modes + RoundRobins(k)) <==>
            forall i :: k <= i < |Run(s, modes).packet| ==>
              LastUse(s, modes, Run(s, modes).packet[k]) <= LastUse(s, modes, Run(s, modes).packet[i])
  {
    AfterMore(s, modes, k);
    var t, after, packet := Run(s, modes), modes + RoundRobins(k), Run(s, modes).packet;
    UsedBefore(s, modes, packet[k]);
    forall i | 0 <= i < |packet|
      ensures LastUse(s, after, packet[i]) == if i < k then |modes| + i + 1 else LastUse(s, modes, packet[i])
    {
      UsesAfterMore(s, modes, k, i);
    }
    forall c ensures c in Run(s, after).packet <==> c in packet
             ensures Run(s, after).packet[0] == packet[k]
    {
      RotatedElements(packet, k, c);
    }
    hide Choose, GetAndAssign, Run, LastUse, Rotated, Side.Valid, Side.AllTaken;
    if FrontIsLeast(s, after) {
      forall i | k <= i < |packet| ensures LastUse(s, modes, packet[k]) <= LastUse(s, modes, packet[i]) {
        assert packet[i] in Run(s, after).packet;
      }
    }
  }

  /**
   * When all channels are taken, the packet channels are listed in the order of their last use if and
   * only if each of the next round-robin requests, one for every packet channel, would use a least
   * recently used channel.
   */
  lemma ListedByUseIffLeastUsed(s: Side, modes: seq<ChannelAssignmentMode>)
    requires s.Valid() && Run(s, modes).AllTaken()
    ensures ByUse(s, modes) <==>
            forall k :: 0 <= k < |Run(s, modes).packet| ==> FrontIsLeast(s, modes + RoundRobins(k))
  {
    var packet := Run(s, modes).packet;
    hide Choose, GetAndAssign, Run, LastUse, FrontIsLeast, Side.Valid, Side.AllTaken;
    forall k | 0 <= k < |packet|
      ensures FrontIsLeast(s, modes + RoundRobins(k)) <==>
              forall i :: k <= i < |packet| ==> LastUse(s, modes, packet[k]) <= LastUse(s, modes, packet[i])
    {
      FrontIsLeastAfter(s, modes, k);
    }
    hide RoundRobins;
    if forall k :: 0 <= k < |packet| ==> FrontIsLeast(s, modes + RoundRobins(k)) {
      forall a, b | 0 <= a < b < |packet| ensures LastUse(s, modes, packet[a]) <= LastUse(s, modes, packet[b]) {
        assert FrontIsLeast(s, modes + RoundRobins(a));
      }
    }
  }

  lemma AppendedInOrder(packet: SetVector, use: nat -> nat, use': nat -> nat, c: nat, now: nat)
    requires UsedNow(use, use', c, now) && c !in packet
    ensures InOrderOf(packet + [c], use') <==> InOrderOf(packet, use)
  {
    if InOrderOf(packet + [c], use') {
      forall a, b | 0 <= a < b < |packet| ensures use(packet[a]) <= use(packet[b]) {
        assert (packet + [c])[a] == packet[a] && (packet + [c])[b] == packet[b];
      }
    }
  }

  /** Taking an unused channel neither makes nor ends the order of use. */
  lemma UnusedKeepsOrder(s: Side, modes: seq<ChannelAssignmentMode>, c: nat)
    requires s.Valid() && Choose(Run(s, modes), RoundRobinPacketFlow) == Some(c) && c !in Run(s, modes).packet
    ensures ByUse(s, modes + [RoundRobinPacketFlow]) <==> ByUse(s, modes)
    ensures Run(s, modes + [RoundRobinPacketFlow]).packet == Run(s, modes).packet + [c]
  {
    var after := modes + [RoundRobinPacketFlow];
    RunKeeps(s, modes);
    PacketAfter(Run(s, modes), RoundRobinPacketFlow);
    UsesAfter(s, modes, RoundRobinPacketFlow);
    ByUseIs(s, modes);
    ByUseIs(s, after);
    hide Choose, GetAndAssign, LastUse, Run, ByUse, UsedNow, Uses, Side.Valid;
    AppendedInOrder(Run(s, modes).packet, Uses(s, modes), Uses(s, after), c, |modes|);
  }

  /** All channels below `from` are taken. */
  ghost predicate TakenBelow(t: Side, from: nat) {
    forall c :: 0 <= c < from ==> c in t.circuit || c in t.packet
  }

  /** When all channels below `from` are taken and `from` is not, it is taken next. */
  lemma TakesNext(s: Side, modes: seq<ChannelAssignmentMode>, from: nat)
    requires s.Valid() && from < s.numChannels && TakenBelow(Run(s, modes), from) && !TakenBelow(Run(s, modes), from + 1)
    ensures TakenBelow(Run(s, modes + [RoundRobinPacketFlow]), from + 1)
    ensures ByUse(s, modes + [RoundRobinPacketFlow]) <==> ByUse(s, modes)
  {
    RunKeeps(s, modes);
    ChooseLeast(Run(s, modes), RoundRobinPacketFlow, from);
    UnusedKeepsOrder(s, modes, from);
    CircuitsAfter(s, modes);
    hide Choose, GetAndAssign, Run, ByUse, Side.Valid;
  }

  lemma AllBelow(t: Side)
    requires TakenBelow(t, t.numChannels)
    ensures t.AllTaken()
  {
  }

  /** Round robin takes up the unused channels, without a change to the order of use. */
  lemma {:induction false} FillUp(s: Side, modes: seq<ChannelAssignmentMode>, from: nat) returns (l: nat)
    requires s.Valid() && from <= s.numChannels && TakenBelow(Run(s, modes), from)
    ensures Run(s, modes + RoundRobins(l)).AllTaken()
    ensures ByUse(s, modes + RoundRobins(l)) <==> ByUse(s, modes)
    decreases s.numChannels - from
  {
    hide Choose, GetAndAssign, Run, ByUse, Side.Valid, Side.AllTaken, TakenBelow, RoundRobins;
    if from == s.numChannels {
      l := 0;
      MoreRoundRobins(modes, 0, 0);
      RunKeeps(s, modes);
      AllBelow(Run(s, modes));
    } else if TakenBelow(Run(s, modes), from + 1) {
      l := FillUp(s, modes, from + 1);
    } else {
      TakesNext(s, modes, from);
      l := FillUp(s, modes + [RoundRobinPacketFlow], from + 1);
      MoreRoundRobins(modes, l, 0);
      l := l + 1;
    }
  }

  lemma CircuitsAfter(s: Side, modes: seq<ChannelAssignmentMode>)
    requires s.Valid()
    ensures Run(s, modes + [RoundRobinPacketFlow]).circuit == Run(s, modes).circuit
  {
    OneMoreUse(s, modes, RoundRobinPacketFlow, 0);
  }

  lemma {:induction false} RoundRobinsKeepOrder(s: Side, modes: seq<ChannelAssignmentMode>, l: nat)
    requires s.Valid() && ByUse(s, modes)
    ensures ByUse(s, modes + RoundRobins(l))
  {
    hide ByUse, Run, Choose;
    MoreRoundRobins(modes, if l == 0 then 0 else l - 1, 0);
    if l > 0 {
      RoundRobinsKeepOrder(s, modes, l - 1);
      StillByUse(s, modes + RoundRobins(l - 1), RoundRobinPacketFlow);
    }
  }

  lemma ByUseIsLeast(s: Side, modes: seq<ChannelAssignmentMode>)
    requires ByUse(s, modes)
    ensures FrontIsLeast(s, modes)
  {
    hide Run, LastUse;
    var packet := Run(s, modes).packet;
    forall c | c in packet ensures LastUse(s, modes, packet[0]) <= LastUse(s, modes, c) {
      var k :| 0 <= k < |packet| && packet[k] == c;
    }
  }

  /** From every point of the run on, round robin uses a least recently used channel whenever it uses one again. */
  ghost predicate AlwaysLeastUsed(s: Side, modes: seq<ChannelAssignmentMode>) {
    forall k, l: nat :: 0 <= k <= |modes| && Run(s, modes[..k] + RoundRobins(l)).AllTaken() ==>
      FrontIsLeast(s, modes[..k] + RoundRobins(l))
  }

  lemma StillTaken(s: Side, modes: seq<ChannelAssignmentMode>, k: nat)
    requires s.Valid() && Run(s, modes).AllTaken() && k < |Run(s, modes).packet|
    ensures Run(s, modes + RoundRobins(k)).AllTaken()
  {
    AfterMore(s, modes, k);
    hide Run;
  }

  /** An order that is lost shows in an answer of round robin. */
  lemma LostOrderShows(s: Side, modes: seq<ChannelAssignmentMode>) returns (l: nat)
    requires s.Valid() && !ByUse(s, modes)
    ensures Run(s, modes + RoundRobins(l)).AllTaken() && !FrontIsLeast(s, modes + RoundRobins(l))
  {
    hide Run, ByUse, FrontIsLeast, LastUse, RoundRobins, Side.Valid, Side.AllTaken;
    var fill := FillUp(s, modes, 0);
    var full := modes + RoundRobins(fill);
    ListedByUseIffLeastUsed(s, full);
    var k :| 0 <= k < |Run(s, full).packet| && !FrontIsLeast(s, full + RoundRobins(k));
    StillTaken(s, full, k);
    MoreRoundRobins(modes, fill, k);
    l := fill + k;
  }

  /**
   * In every run, whatever was given out before: round robin uses a least recently used channel whenever
   * it uses one again, after each request and for any number of further round-robin requests, if and
   * only if no request `FirstAvailablePacketFlow` is answered with a packet channel that is not the last one.
   */
  lemma LeastUsedUnlessSkipped(s: Side, modes: seq<ChannelAssignmentMode>)
    requires s.Valid()
    ensures AlwaysLeastUsed(s, modes) <==>
            forall k :: 0 <= k < |modes| ==> !SkipsQueue(Run(s, modes[..k]), modes[k])
  {
    ListedByUse(s, modes);
    hide ByUse, SkipsQueue, Run, FrontIsLeast, Side.AllTaken, Side.Valid;
    if forall k :: 0 <= k <= |modes| ==> ByUse(s, modes[..k]) {
      forall k, l: nat | 0 <= k <= |modes| ensures FrontIsLeast(s, modes[..k] + RoundRobins(l)) {
        RoundRobinsKeepOrder(s, modes[..k], l);
        ByUseIsLeast(s, modes[..k] + RoundRobins(l));
      }
    } else {
      var k :| 0 <= k <= |modes| && !ByUse(s, modes[..k]);
      var l := LostOrderShows(s, modes[..k]);
    }
  }

  // ---------- The class ----------

  class ChannelGenerator {
    const numProducerChannels: nat
    const numConsumerChannels: nat
    var assignedCircuitProducerChannels: SetVector
    var assignedCircuitConsumerChannels: SetVector
    var assignedPacketProducerChannels: SetVector
    var assignedPacketConsumerChannels: SetVector

    ghost function Producers(): Side
      reads this
    {
      Side(numProducerChannels, assignedCircuitProducerChannels, assignedPacketProducerChannels)
    }

    ghost function Consumers(): Side
      reads this
    {
      Side(numConsumerChannels, assignedCircuitConsumerChannels, assignedPacketConsumerChannels)
    }

    constructor (numProducerChannels: nat, numConsumerChannels: nat)
      requires 0 < numProducerChannels < 256 && 0 < numConsumerChannels < 256
      ensures Producers() == Side(numProducerChannels, [], []) && Consumers() == Side(numConsumerChannels, [], [])
      ensures Producers().Valid() && Consumers().Valid()
    {
      this.numProducerChannels := numProducerChannels;
      this.numConsumerChannels := numConsumerChannels;
      assignedCircuitProducerChannels := [];
      assignedCircuitConsumerChannels := [];
      assignedPacketProducerChannels := [];
      assignedPacketConsumerChannels := [];
    }

    static method FindFirstAvailableChannel(numChannels: nat, excludeSets: seq<SetVector>) returns (r: Option<nat>)
      ensures r.Some? ==> r.value < numChannels && !Excluded(excludeSets, r.value)
      ensures r.Some? ==> forall c :: 0 <= c < r.value ==> Excluded(excludeSets, c)
      ensures r.None? ==> forall c :: 0 <= c < numChannels ==> Excluded(excludeSets, c)
      ensures r == FirstAvailable(numChannels, excludeSets, 0)
    {
      var channel := 0;
      while channel < numChannels
        invariant channel <= numChannels && forall c :: 0 <= c < channel ==> Excluded(excludeSets, c)
        invariant FirstAvailable(numChannels, excludeSets, 0) == FirstAvailable(numChannels, excludeSets, channel)
      {
        if forall i :: 0 <= i < |excludeSets| ==> channel !in excludeSets[i] { return Some(channel); }
        channel := channel + 1;
      }
      return None;
    }

    method GetAndAssignProducerDMAChannel(mode: ChannelAssignmentMode) returns (channel: Option<nat>)
      requires Producers().Valid()
      modifies this
      ensures channel == Choose(old(Producers()), mode) && Producers() == GetAndAssign(old(Producers()), mode)
      ensures Producers().Valid() && Consumers() == old(Consumers())
    {
      GetAndAssignKeeps(Producers(), mode);
      match mode {
        case FirstAvailableCircuitFlow =>
          channel := FindFirstAvailableChannel(numProducerChannels, [assignedCircuitProducerChannels, assignedPacketProducerChannels]);
        case FirstAvailablePacketFlow =>
          channel := FindFirstAvailableChannel(numProducerChannels, [assignedCircuitProducerChannels]);
        case RoundRobinPacketFlow =>
          channel := FindFirstAvailableChannel(numProducerChannels, [assignedCircuitProducerChannels, assignedPacketProducerChannels]);
          if channel == None && assignedPacketProducerChannels != [] { channel := Some(assignedPacketProducerChannels[0]); }
      }
      if channel.Some? { AssignProducerDMAChannel(channel.value, mode); }
    }

    method GetAndAssignConsumerDMAChannel(mode: ChannelAssignmentMode) returns (channel: Option<nat>)
      requires Consumers().Valid()
      modifies this
      ensures channel == Choose(old(Consumers()), mode) && Consumers() == GetAndAssign(old(Consumers()), mode)
      ensures Consumers().Valid() && Producers() == old(Producers())
    {
      GetAndAssignKeeps(Consumers(), mode);
      match mode {
        case FirstAvailableCircuitFlow =>
          channel := FindFirstAvailableChannel(numConsumerChannels, [assignedCircuitConsumerChannels, assignedPacketConsumerChannels]);
        case FirstAvailablePacketFlow =>
          channel := FindFirstAvailableChannel(numConsumerChannels, [assignedCircuitConsumerChannels]);
        case RoundRobinPacketFlow =>
          channel := FindFirstAvailableChannel(numConsumerChannels, [assignedCircuitConsumerChannels, assignedPacketConsumerChannels]);
          if channel == None && assignedPacketConsumerChannels != [] { channel := Some(assignedPacketConsumerChannels[0]); }
      }
      if channel.Some? { AssignConsumerDMAChannel(channel.value, mode); }
    }

    method AssignProducerDMAChannel(channel: nat, mode: ChannelAssignmentMode)
      modifies this
      ensures mode == FirstAvailableCircuitFlow ==>
                assignedPacketProducerChannels == old(assignedPacketProducerChannels) &&
                assignedCircuitProducerChannels == old(assignedCircuitProducerChannels)
                  + if channel in old(assignedCircuitProducerChannels) then [] else [channel]
      ensures mode == FirstAvailablePacketFlow ==>
                assignedCircuitProducerChannels == old(assignedCircuitProducerChannels) &&
                assignedPacketProducerChannels == old(assignedPacketProducerChannels)
                  + if channel in old(assignedPacketProducerChannels) then [] else [channel]
      ensures mode == RoundRobinPacketFlow ==>
                assignedCircuitProducerChannels == old(assignedCircuitProducerChannels) &&
                assignedPacketProducerChannels == Remove(old(assignedPacketProducerChannels), channel) + [channel]
      ensures Producers() == Assign(old(Producers()), channel, mode) && Consumers() == old(Consumers())
    {
      match mode {
        case FirstAvailableCircuitFlow =>
          assignedCircuitProducerChannels := Insert(assignedCircuitProducerChannels, channel);
        case FirstAvailablePacketFlow =>
          assignedPacketProducerChannels := Insert(assignedPacketProducerChannels, channel);
        case RoundRobinPacketFlow =>
          assignedPacketProducerChannels := Remove(assignedPacketProducerChannels, channel);
          assignedPacketProducerChannels := Insert(assignedPacketProducerChannels, channel);
      }
    }

    method AssignConsumerDMAChannel(channel: nat, mode: ChannelAssignmentMode)
      modifies this
      ensures mode == FirstAvailableCircuitFlow ==>
                assignedPacketConsumerChannels == old(assignedPacketConsumerChannels) &&
                assignedCircuitConsumerChannels == old(assignedCircuitConsumerChannels)
                  + if channel in old(assignedCircuitConsumerChannels) then [] else [channel]
      ensures mode == FirstAvailablePacketFlow ==>
                assignedCircuitConsumerChannels == old(assignedCircuitConsumerChannels) &&
                assignedPacketConsumerChannels == old(assignedPacketConsumerChannels)
                  + if channel in old(assignedPacketConsumerChannels) then [] else [channel]
      ensures mode == RoundRobinPacketFlow ==>
                assignedCircuitConsumerChannels == old(assignedCircuitConsumerChannels) &&
                assignedPacketConsumerChannels == Remove(old(assignedPacketConsumerChannels), channel) + [channel]
      ensures Consumers() == Assign(old(Consumers()), channel, mode) && Producers() == old(Producers())
    {
      match mode {
        case FirstAvailableCircuitFlow =>
          assignedCircuitConsumerChannels := Insert(assignedCircuitConsumerChannels, channel);
        case FirstAvailablePacketFlow =>
          assignedPacketConsumerChannels := Insert(assignedPacketConsumerChannels, channel);
        case RoundRobinPacketFlow =>
          assignedPacketConsumerChannels := Remove(assignedPacketConsumerChannels, channel);
          assignedPacketConsumerChannels := Insert(assignedPacketConsumerChannels, channel);
      }
    }
  }
}
