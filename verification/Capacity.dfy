/** The capacity accounts of the channels, and why a channel within its capacity is used legally. */
module Capacity {
  import opened SwitchFabric

  const MAX_CIRCUIT_STREAM_CAPACITY: nat := 1
  const MAX_PACKET_STREAM_CAPACITY: nat := 32
  const OVER_CAPACITY_COEFF := 0.1
  const USED_CAPACITY_COEFF := 0.1
  const DEMAND_COEFF := 1.5
  const DEMAND_BASE := 1.0

  // ---------- The updates of one channel ----------

  /** `updateDemand` */
  function WithDemand(cell: Cell): Cell {
    var history := DEMAND_BASE + OVER_CAPACITY_COEFF * cell.overCapacity as real;
    var congestion := DEMAND_BASE + USED_CAPACITY_COEFF * cell.usedCapacity as real;
    cell.(demand := history * congestion)
  }

  /** `bumpDemand` */
  function Bumped(cell: Cell): Cell {
    if cell.usedCapacity >= MAX_CIRCUIT_STREAM_CAPACITY then cell.(demand := cell.demand * DEMAND_COEFF) else cell
  }

  /** All histories are forgotten. */
  function Cleared(cell: Cell): Cell {
    cell.(usedCapacity := 0, overCapacity := 0)
  }

  /** All routes are taken away, but for the packet flows that are fixed. */
  function RippedUp(cell: Cell): Cell {
    cell.(usedCapacity := 0, packetFlowCount := cell.fixedPacketFlowCount, packetGroupId := -1)
  }

  /** A channel that packet flows of `group` may share. */
  predicate Joins(cell: Cell, group: int) {
    group >= 0 && (cell.packetGroupId == -1 || cell.packetGroupId == group)
  }

  /** One more flow of `group`, before the demand is bumped. */
  function Charged(cell: Cell, group: int): Cell {
    if Joins(cell, group) then
      if cell.packetFlowCount + 1 >= MAX_PACKET_STREAM_CAPACITY
      then cell.(packetGroupId := group, packetFlowCount := 0, usedCapacity := cell.usedCapacity + 1)
      else cell.(packetGroupId := group, packetFlowCount := cell.packetFlowCount + 1)
    else cell.(usedCapacity := cell.usedCapacity + 1)
  }

  /** The packet flows of a finished group take up the capacity. */
  function Closed(cell: Cell): Cell {
    Bumped(if cell.packetFlowCount > 0 then cell.(packetFlowCount := 0, usedCapacity := cell.usedCapacity + 1) else cell)
  }

  /** The check of the capacity at the end of an iteration. */
  function Checked(cell: Cell): Cell {
    if cell.usedCapacity > MAX_CIRCUIT_STREAM_CAPACITY then cell.(overCapacity := cell.overCapacity + 1) else cell
  }

  /** In one switchbox, from the same source port or to the same destination port. */
  predicate SameRowOrColumn(a: Channel, b: Channel) {
    a.srcTile == b.srcTile && a.dstTile == b.dstTile && (a.srcPort == b.srcPort || a.dstPort == b.dstPort)
  }

  /** A flow of `group` is charged to `c`; a packet flow also claims the row and the column of `c` for its group. */
  ghost function ChargeChannel(g: Fabric, c: Channel, group: int): Fabric
    requires c in g
  {
    map k | k in g ::
      if k == c then Bumped(Charged(g[c], group))
      else if Joins(g[c], group) && SameRowOrColumn(k, c) then g[k].(packetGroupId := group)
      else g[k]
  }

  /**
   * What one charge does to the other channels: of those of the same switchbox that have its source port
   * or its destination port, a channel that is shared makes the group its own, and nothing else changes.
   */
  lemma ChargesOthers(g: Fabric, c: Channel, group: int, k: Channel)
    requires c in g && k in g && k != c
    ensures k in ChargeChannel(g, c, group)
    ensures ChargeChannel(g, c, group)[k] ==
            if group >= 0 && (g[c].packetGroupId == -1 || g[c].packetGroupId == group)
               && k.srcTile == c.srcTile && k.dstTile == c.dstTile && (k.srcPort == c.srcPort || k.dstPort == c.dstPort)
            then g[k].(packetGroupId := group) else g[k]
  {
  }

  /** A shared channel claims its row and column: there, flows of any other group count like circuits. */
  lemma ClaimsRowAndColumn(g: Fabric, c: Channel, group: int, k: Channel, other: int)
    requires c in g && k in g && Joins(g[c], group) && SameRowOrColumn(k, c) && other != group
    ensures var cell := ChargeChannel(g, c, group)[k];
            && Joins(cell, group) && !Joins(cell, other)
            && Charged(cell, other) == cell.(usedCapacity := cell.usedCapacity + 1)
  {
    BumpedDemand(Charged(g[c], group));
  }

  // ---------- Demands ----------

  /** A channel in use becomes half as dear again with every bump, and one that is not in use stays as it is. */
  lemma BumpRaises(cell: Cell)
    ensures cell.usedCapacity == 0 ==> Bumped(cell) == cell
    ensures cell.usedCapacity >= 1 ==> Bumped(cell) == cell.(demand := 1.5 * cell.demand)
    ensures cell.usedCapacity >= 1 && cell.demand > 0.0 ==> Bumped(cell).demand > cell.demand
  {
  }

  /** A charge makes the channel half as dear again if it is then in use, and no other channel dearer or cheaper. */
  lemma ChargeRaises(g: Fabric, c: Channel, group: int, k: Channel)
    requires c in g && k in g
    ensures var h := ChargeChannel(g, c, group);
            k in h && h[k].demand == if k == c && h[c].usedCapacity >= 1 then 1.5 * g[c].demand else g[k].demand
  {
    BumpRaises(Charged(g[c], group));
  }

  /** Every round over capacity and every use of the last round make a channel dearer by a tenth. */
  lemma DemandIs(cell: Cell)
    ensures WithDemand(cell) == cell.(demand := WithDemand(cell).demand)
    ensures 100.0 * WithDemand(cell).demand == (10 + cell.overCapacity) as real * (10 + cell.usedCapacity) as real
  {
    var x, y := cell.overCapacity as real, cell.usedCapacity as real;
    assert WithDemand(cell).demand == (1.0 + 0.1 * x) * (1.0 + 0.1 * y);
    TenTimes(x, y);
  }

  lemma TenTimes(x: real, y: real)
    ensures 100.0 * ((1.0 + 0.1 * x) * (1.0 + 0.1 * y)) == (10.0 + x) * (10.0 + y)
  {
    var a, b := 1.0 + 0.1 * x, 1.0 + 0.1 * y;
    assert 10.0 * a == 10.0 + x && 10.0 * b == 10.0 + y;
    assert 100.0 * (a * b) == (10.0 * a) * (10.0 * b);
  }

  lemma DemandStaysAtLeastOne(cell: Cell)
    ensures WithDemand(cell).demand >= 1.0
    ensures cell.demand >= 1.0 ==> Bumped(cell).demand >= cell.demand
  {
    var history := DEMAND_BASE + OVER_CAPACITY_COEFF * cell.overCapacity as real;
    var congestion := DEMAND_BASE + USED_CAPACITY_COEFF * cell.usedCapacity as real;
    assert (history - 1.0) * (congestion - 1.0) >= 0.0;
    assert history * congestion == (history - 1.0) * (congestion - 1.0) + history + congestion - 1.0;
  }

  /** A channel that was never used costs 1; a history of being over capacity, and use, make it dearer. */
  lemma DemandGrows(a: Cell, b: Cell)
    ensures a.overCapacity == 0 && a.usedCapacity == 0 ==> WithDemand(a).demand == 1.0
    ensures a.overCapacity <= b.overCapacity && a.usedCapacity <= b.usedCapacity ==> WithDemand(a).demand <= WithDemand(b).demand
    ensures a.overCapacity < b.overCapacity && a.usedCapacity <= b.usedCapacity ==> WithDemand(a).demand < WithDemand(b).demand
  {
    ProductGrows(1.0 + 0.1 * a.overCapacity as real, 1.0 + 0.1 * b.overCapacity as real,
                 1.0 + 0.1 * a.usedCapacity as real, 1.0 + 0.1 * b.usedCapacity as real);
  }

  lemma ProductIsPositive(x: real, y: real)
    ensures x >= 0.0 && y >= 0.0 ==> x * y >= 0.0
    ensures x > 0.0 && y > 0.0 ==> x * y > 0.0
  {
  }

  lemma ProductGrows(ha: real, hb: real, ca: real, cb: real)
    requires ha >= 1.0 && hb >= 1.0 && ca >= 1.0 && cb >= 1.0
    ensures ha <= hb && ca <= cb ==> ha * ca <= hb * cb
    ensures ha < hb && ca <= cb ==> ha * ca < hb * cb
  {
    ProductIsPositive(hb - ha, cb);
    ProductIsPositive(ha, cb - ca);
    assert hb * cb == ha * ca + (hb - ha) * cb + ha * (cb - ca);
  }

  // ---------- What the accounts say ----------

  /**
   * A legal use of a channel by flows of these groups: none, or one circuit flow where no packet flow
   * is fixed, or packet flows of one group that with the fixed ones are at most 32.
   */
  ghost predicate Legal(groups: seq<int>, fixedCount: nat) {
    && (forall i :: 0 <= i < |groups| ==> groups[i] == groups[0])
    && (groups != [] && groups[0] < 0 ==> |groups| == 1 && fixedCount == 0)
    && (groups != [] && groups[0] >= 0 ==> fixedCount + |groups| <= MAX_PACKET_STREAM_CAPACITY)
  }

  /**
   * One packet flow beside 32 or more fixed ones, which is not legal: at the cap the count is set back
   * to 0 and all of its packet flows are taken for one full channel.
   */
  ghost predicate Overlooked(groups: seq<int>, fixedCount: nat) {
    |groups| == 1 && groups[0] >= 0 && fixedCount >= MAX_PACKET_STREAM_CAPACITY
  }

  function Copies(group: int, n: nat): seq<int> {
    seq(n, i => group)
  }

  /** No flow is charged yet, and no group has claimed the channel. */
  ghost predicate Unclaimed(cell: Cell) {
    cell.usedCapacity == 0 && cell.packetGroupId == -1
  }

  /** Between two groups, when flows of these groups use the channel; `closed` if there was one before. */
  ghost predicate Between(cell: Cell, groups: seq<int>, closed: bool) {
    && cell.packetFlowCount == (if closed then 0 else cell.fixedPacketFlowCount)
    && (!closed ==> Unclaimed(cell) && groups == [])
    && (closed && cell.usedCapacity == 0 ==> groups == [] && cell.fixedPacketFlowCount == 0)
    && (cell.usedCapacity <= MAX_CIRCUIT_STREAM_CAPACITY ==>
         Legal(groups, cell.fixedPacketFlowCount) || Overlooked(groups, cell.fixedPacketFlowCount))
  }

  /** All `n` flows of the group are still counted. */
  ghost predicate Counting(cell: Cell, start: Cell, group: int, n: nat) {
    && cell.usedCapacity == start.usedCapacity
    && cell.packetFlowCount == start.packetFlowCount + n
    && (n > 0 ==> group >= 0 && cell.packetFlowCount < MAX_PACKET_STREAM_CAPACITY)
  }

  /** The `n` flows of the group take up the capacity of one circuit. */
  ghost predicate Full(cell: Cell, start: Cell, group: int, n: nat) {
    && cell.usedCapacity == start.usedCapacity + 1 && cell.packetFlowCount == 0 && n > 0
    && (n == 1 || start.packetFlowCount + n <= MAX_PACKET_STREAM_CAPACITY)
    && (group < 0 ==> n == 1 && start.packetFlowCount == 0)
  }

  /** Closing the group will exceed the capacity. */
  ghost predicate Exceeding(cell: Cell, start: Cell) {
    cell.usedCapacity + (if cell.packetFlowCount > 0 then 1 else 0) >= start.usedCapacity + 2
  }

  /** The account after `n` flows of a group, all of which can join in, on a channel with `count` packet flows. */
  ghost predicate Exact(cell: Cell, group: int, n: nat, count: nat) {
    if group < 0 then cell.usedCapacity == n && cell.packetFlowCount == count
    else
      && (cell.packetGroupId == -1 || cell.packetGroupId == group)
      && (n == 0 || count + n < MAX_PACKET_STREAM_CAPACITY ==> cell.usedCapacity == 0 && cell.packetFlowCount == count + n)
      && (n > 0 && (count + n == MAX_PACKET_STREAM_CAPACITY || (n == 1 && count >= MAX_PACKET_STREAM_CAPACITY)) ==>
            cell.usedCapacity == 1 && cell.packetFlowCount == 0)
      && (n > 1 && count + n > MAX_PACKET_STREAM_CAPACITY ==>
            cell.usedCapacity + (if cell.packetFlowCount > 0 then 1 else 0) > 1)
  }

  lemma ChargeExact(cell: Cell, group: int, n: nat, count: nat)
    requires Exact(cell, group, n, count)
    ensures Exact(Bumped(Charged(cell, group)), group, n + 1, count)
  {
    BumpedDemand(Charged(cell, group));
    hide Bumped;
  }

  /** Within a group that found the channel at `start`, when `n` of its flows use the channel. */
  ghost predicate Within(cell: Cell, start: Cell, group: int, n: nat) {
    && cell.fixedPacketFlowCount == start.fixedPacketFlowCount
    && (Counting(cell, start, group, n) || Full(cell, start, group, n) || Exceeding(cell, start))
    && (Unclaimed(start) ==> Exact(cell, group, n, start.packetFlowCount))
  }

  lemma ChargeWithin(cell: Cell, start: Cell, group: int, n: nat)
    requires Within(cell, start, group, n)
    ensures Within(Bumped(Charged(cell, group)), start, group, n + 1)
  {
    if Unclaimed(start) { ChargeExact(cell, group, n, start.packetFlowCount); }
    hide Exact;
  }

  /** However the flows of a group were charged, after closing it a channel within its capacity is used legally or overlooked. */
  lemma CloseBetween(cell: Cell, start: Cell, group: int, n: nat, groups: seq<int>, closed: bool)
    requires Between(start, groups, closed) && Within(cell, start, group, n)
    ensures Between(Closed(cell), groups + Copies(group, n), true)
  {
    if Exceeding(cell, start) {
    } else if n == 0 {
      assert groups + Copies(group, 0) == groups;
    } else if Closed(cell).usedCapacity <= MAX_CIRCUIT_STREAM_CAPACITY {
      assert groups + Copies(group, n) == Copies(group, n);
    }
  }

  /** An iteration starts with only the fixed packet flows in the accounts. */
  lemma RippedUpIsBetween(cell: Cell)
    ensures Between(RippedUp(cell), [], false)
  {
  }

  /** A packet flow of a later group never fits into a channel with fixed packet flows. */
  lemma LaterGroupsDoNotFit(cell: Cell, start: Cell, group: int, n: nat, groups: seq<int>)
    requires Between(start, groups, true) && start.fixedPacketFlowCount > 0 && Within(cell, start, group, n) && n > 0
    ensures Closed(cell).usedCapacity > MAX_CIRCUIT_STREAM_CAPACITY
  {
    assert start.usedCapacity >= 1;
  }

  /** The cell after `n` flows of the group. */
  function ChargedTimes(cell: Cell, group: int, n: nat): Cell {
    if n == 0 then cell else Bumped(Charged(ChargedTimes(cell, group, n - 1), group))
  }

  lemma {:induction false} AfterCharges(cell: Cell, group: int, n: nat)
    requires Unclaimed(cell)
    ensures Exact(ChargedTimes(cell, group, n), group, n, cell.packetFlowCount)
  {
    hide Bumped, Charged;
    if n > 0 {
      AfterCharges(cell, group, n - 1);
      ChargeExact(ChargedTimes(cell, group, n - 1), group, n - 1, cell.packetFlowCount);
    }
  }

  lemma BumpedDemand(cell: Cell)
    ensures Bumped(cell) == cell.(demand := Bumped(cell).demand)
  {
  }

  /** An exact account tells, after closing, whether the use is legal or overlooked. */
  lemma CloseExact(cell: Cell, group: int, n: nat)
    requires Exact(cell, group, n, cell.fixedPacketFlowCount)
    ensures Closed(cell).usedCapacity <= MAX_CIRCUIT_STREAM_CAPACITY <==>
            Legal(Copies(group, n), cell.fixedPacketFlowCount) || Overlooked(Copies(group, n), cell.fixedPacketFlowCount)
  {
    if n > 0 { assert Copies(group, n)[0] == group; }
    BumpedDemand(if cell.packetFlowCount > 0 then cell.(packetFlowCount := 0, usedCapacity := cell.usedCapacity + 1) else cell);
    hide Bumped;
  }

  lemma {:induction false} ChargesKeepFixed(cell: Cell, group: int, n: nat)
    ensures ChargedTimes(cell, group, n).fixedPacketFlowCount == cell.fixedPacketFlowCount
  {
    if n > 0 { ChargesKeepFixed(cell, group, n - 1); }
  }

  /**
   * For the first group to be routed the account is exact: the channel is within its capacity if and
   * only if its use is legal or it is one packet flow beside 32 or more fixed ones.
   */
  lemma FirstGroupIsExact(cell: Cell, group: int, n: nat)
    ensures Closed(ChargedTimes(RippedUp(cell), group, n)).usedCapacity <= MAX_CIRCUIT_STREAM_CAPACITY <==>
            Legal(Copies(group, n), cell.fixedPacketFlowCount) ||
            (n == 1 && group >= 0 && cell.fixedPacketFlowCount >= MAX_PACKET_STREAM_CAPACITY)
    ensures Overlooked(Copies(group, n), cell.fixedPacketFlowCount) <==>
            n == 1 && group >= 0 && cell.fixedPacketFlowCount >= MAX_PACKET_STREAM_CAPACITY
    ensures Closed(ChargedTimes(RippedUp(cell), group, n)).usedCapacity <= 1 <==>
            if n == 0 then true
            else if group < 0 then n == 1 && cell.fixedPacketFlowCount == 0
            else cell.fixedPacketFlowCount + n <= 32 || (n == 1 && cell.fixedPacketFlowCount >= 32)
  {
    AfterCharges(RippedUp(cell), group, n);
    ChargesKeepFixed(RippedUp(cell), group, n);
    CloseExact(ChargedTimes(RippedUp(cell), group, n), group, n);
    if n > 0 { assert Copies(group, n)[0] == group; }
    hide ChargedTimes, Exact, Closed;
  }

  /** Beside 40 fixed packet flows, which are above the cap, one more is taken for a channel within its capacity. */
  lemma OneTooMany(cell: Cell)
    requires cell.fixedPacketFlowCount == 40
    ensures Closed(ChargedTimes(RippedUp(cell), 0, 1)).usedCapacity == 1
    ensures !Legal([0], cell.fixedPacketFlowCount) && Overlooked([0], cell.fixedPacketFlowCount)
  {
    AfterCharges(RippedUp(cell), 0, 1);
    hide ChargedTimes;
  }
}
