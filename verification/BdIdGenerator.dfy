/** Allocation of buffer descriptor ids to DMA channels (`ChannelBdIdGenerator`). */
module BdIdGenerator {
  import opened Division
  import opened Words
  import opened StreamSwitch

  datatype BdIdAssignmentMode = Incremental | Smallest

  const UINT32_MAX: Word := 0xFFFF_FFFF

  // ---------- The choice of an id ----------

  predicate IsFree(taken: set<Word>, id: Word) {
    id !in taken
  }

  /** The first entry, from `from` on, that is free and on the given side of `last`. */
  function FirstFree(list: seq<Word>, taken: set<Word>, lo: int, hi: int, from: nat): (r: Option<Word>)
    requires from <= |list|
    ensures r.Some? ==> r.value in list && IsFree(taken, r.value) && lo < r.value <= hi
    ensures r.None? ==> forall i :: from <= i < |list| ==> !(IsFree(taken, list[i]) && lo < list[i] <= hi)
    decreases |list| - from
  {
    if from == |list| then None
    else if IsFree(taken, list[from]) && lo < list[from] <= hi then Some(list[from])
    else FirstFree(list, taken, lo, hi, from + 1)
  }

  function Pick(list: seq<Word>, taken: set<Word>, lastUsed: Word, mode: BdIdAssignmentMode): Option<Word> {
    match mode
    case Smallest => FirstFree(list, taken, -1, UINT32_MAX, 0)
    case Incremental =>
      var next := FirstFree(list, taken, lastUsed, UINT32_MAX, 0);
      if next.Some? then next else FirstFree(list, taken, -1, lastUsed, 0)
  }

  /** How many of the first `n` entries are free. */
  function CountFree(list: seq<Word>, taken: set<Word>, n: nat): nat
    requires n <= |list|
  {
    if n == 0 then 0 else CountFree(list, taken, n - 1) + if IsFree(taken, list[n - 1]) then 1 else 0
  }

  lemma {:induction false} NoneFree(list: seq<Word>, taken: set<Word>, n: nat)
    requires n <= |list|
    ensures CountFree(list, taken, n) == 0 <==> forall i :: 0 <= i < n ==> !IsFree(taken, list[i])
  {
    if n > 0 { NoneFree(list, taken, n - 1); }
  }

  /** The places of the list whose ids are free. */
  function FreeEntries(list: seq<Word>, taken: set<Word>, n: nat): set<nat>
    requires n <= |list|
  {
    set i: nat | i < n && list[i] !in taken
  }

  lemma {:induction false} CountsEntries(list: seq<Word>, taken: set<Word>, n: nat)
    requires n <= |list|
    ensures CountFree(list, taken, n) == |FreeEntries(list, taken, n)|
  {
    if n > 0 {
      CountsEntries(list, taken, n - 1);
      var before := FreeEntries(list, taken, n - 1);
      assert FreeEntries(list, taken, n) == before + if list[n - 1] in taken then {} else {n - 1};
      assert n - 1 !in before;
    }
  }

  /** In both modes an id is found if and only if one is available, and it was free. */
  lemma PickFindsFree(list: seq<Word>, taken: set<Word>, lastUsed: Word, mode: BdIdAssignmentMode)
    ensures Pick(list, taken, lastUsed, mode).None? <==> CountFree(list, taken, |list|) == 0
    ensures Pick(list, taken, lastUsed, mode).Some? ==>
              Pick(list, taken, lastUsed, mode).value in list && IsFree(taken, Pick(list, taken, lastUsed, mode).value)
  {
    NoneFree(list, taken, |list|);
    var r := Pick(list, taken, lastUsed, mode);
    if r.Some? {
      var i :| 0 <= i < |list| && list[i] == r.value;
    } else {
      forall i | 0 <= i < |list| ensures !IsFree(taken, list[i]) {
        assert -1 < list[i] <= UINT32_MAX;
      }
    }
  }

  ghost predicate Ascending(list: seq<Word>) {
    forall i, j :: 0 <= i < j < |list| ==> list[i] < list[j]
  }

  lemma {:induction false} FirstFreeIsFirst(list: seq<Word>, taken: set<Word>, lo: int, hi: int, from: nat, k: nat)
    requires from <= k < |list| && IsFree(taken, list[k]) && lo < list[k] <= hi
    requires forall i :: from <= i < k ==> !(IsFree(taken, list[i]) && lo < list[i] <= hi)
    ensures FirstFree(list, taken, lo, hi, from) == Some(list[k])
    decreases |list| - from
  {
    if from < k { FirstFreeIsFirst(list, taken, lo, hi, from + 1, k); }
  }

  lemma {:induction false} FirstFreeIndex(list: seq<Word>, taken: set<Word>, lo: int, hi: int, from: nat) returns (k: nat)
    requires from <= |list| && FirstFree(list, taken, lo, hi, from).Some?
    ensures from <= k < |list| && FirstFree(list, taken, lo, hi, from) == Some(list[k])
    ensures forall i :: from <= i < k ==> !(IsFree(taken, list[i]) && lo < list[i] <= hi)
    decreases |list| - from
  {
    if IsFree(taken, list[from]) && lo < list[from] <= hi {
      k := from;
    } else {
      k := FirstFreeIndex(list, taken, lo, hi, from + 1);
    }
  }

  /** No id is listed before a smaller one, unless the smaller one has been listed even earlier. */
  ghost predicate InOrder(list: seq<Word>) {
    forall i, j :: 0 <= i < j < |list| ==> list[i] <= list[j] || list[j] in list[..i]
  }

  lemma InOrderIsAscending(list: seq<Word>)
    requires forall i, j :: 0 <= i < j < |list| ==> list[i] != list[j]
    ensures InOrder(list) <==> Ascending(list)
  {
    forall i, j | 0 <= i < j < |list| ensures list[j] !in list[..i] {
      assert forall k :: 0 <= k < i ==> list[..i][k] == list[k];
    }
  }

  /**
   * Of the free ids of the list the request is answered the smallest one or, in the mode `Incremental`,
   * the smallest one above the last used id if there is one.
   */
  ghost predicate AnswersLeast(list: seq<Word>, taken: set<Word>, lastUsed: Word, mode: BdIdAssignmentMode) {
    forall id :: id in list && IsFree(taken, id) ==>
      var r := Pick(list, taken, lastUsed, mode);
      r.Some? &&
      match mode
      case Smallest => r.value <= id
      case Incremental => (id > lastUsed ==> lastUsed < r.value <= id) && (r.value <= lastUsed ==> r.value <= id)
  }

  lemma NotListedEarlier(list: seq<Word>, taken: set<Word>, lo: int, hi: int, k: nat, id: Word)
    requires k < |list| && IsFree(taken, id) && lo < id <= hi
    requires forall i :: 0 <= i < k ==> !(IsFree(taken, list[i]) && lo < list[i] <= hi)
    ensures id !in list[..k]
  {
    forall i | 0 <= i < k ensures list[..k][i] != id {
      assert list[..k][i] == list[i];
    }
  }

  /** On a list in order, all requests are answered the least id. */
  lemma PickIsLeast(list: seq<Word>, taken: set<Word>, lastUsed: Word, mode: BdIdAssignmentMode)
    requires InOrder(list)
    ensures AnswersLeast(list, taken, lastUsed, mode)
  {
    PickFindsFree(list, taken, lastUsed, mode);
    NoneFree(list, taken, |list|);
    forall id | id in list && IsFree(taken, id)
      ensures Pick(list, taken, lastUsed, mode).Some?
      ensures var r := Pick(list, taken, lastUsed, mode).value;
              match mode
              case Smallest => r <= id
              case Incremental => (id > lastUsed ==> lastUsed < r <= id) && (r <= lastUsed ==> r <= id)
    {
      var i :| 0 <= i < |list| && list[i] == id;
      assert CountFree(list, taken, |list|) != 0;
      var lo, hi := if mode == Incremental then lastUsed as int else -1, UINT32_MAX;
      if FirstFree(list, taken, lo, hi, 0).Some? {
        var k := FirstFreeIndex(list, taken, lo, hi, 0);
        if lo < id {
          NotListedEarlier(list, taken, lo, hi, k, id);
        }
      } else {
        var k := FirstFreeIndex(list, taken, -1, lastUsed, 0);
        NotListedEarlier(list, taken, -1, lastUsed, k, id);
      }
    }
  }

  /** All ids of the list but these two. */
  ghost function AllBut(list: seq<Word>, x: Word, y: Word): set<Word> {
    set id | id in list && id != x && id != y
  }

  /** With only two ids free, of which the greater one is listed first, the greater one is answered. */
  lemma GreaterIsFirst(list: seq<Word>, i: nat, j: nat, mode: BdIdAssignmentMode)
    requires i < j < |list| && list[i] > list[j] && list[j] !in list[..i]
    ensures !AnswersLeast(list, AllBut(list, list[i], list[j]), UINT32_MAX, mode)
  {
    var x, y := list[i], list[j];
    var taken := AllBut(list, x, y);
    NothingInRange(list, taken, UINT32_MAX, UINT32_MAX, 0);
    PickFindsFree(list, taken, UINT32_MAX, mode);
    assert IsFree(taken, list[i]);
    var k := FirstFreeIndex(list, taken, -1, UINT32_MAX, 0);
    assert k <= i;
    assert k < i ==> list[..i][k] == list[k];
    assert list[k] in list && list[k] != y;
    assert y in list && IsFree(taken, y);
  }

  /** On any list, every request is answered the least id, whatever is assigned, if and only if the list is in order. */
  lemma LeastNeedsOrder(list: seq<Word>, mode: BdIdAssignmentMode)
    ensures (forall taken, lastUsed :: AnswersLeast(list, taken, lastUsed, mode)) <==> InOrder(list)
  {
    hide AnswersLeast;
    if InOrder(list) {
      forall taken, lastUsed ensures AnswersLeast(list, taken, lastUsed, mode) { PickIsLeast(list, taken, lastUsed, mode); }
    } else {
      var i, j :| 0 <= i < j < |list| && list[i] > list[j] && list[j] !in list[..i];
      GreaterIsFirst(list, i, j, mode);
    }
  }

  // ---------- Going round ----------

  /** The fields of the generator that change. */
  datatype State = State(taken: set<Word>, lastUsed: Word)

  /** The state after an id has been given out. */
  function Taken(s: State, id: Word): State {
    State(s.taken + {id}, id)
  }

  /** The state after an id has been released; it stays the last used one. */
  function Released(s: State, id: Word): State {
    s.(taken := s.taken - {id})
  }

  /** The state after `k` incremental requests, each followed by the release of the id that was given out. */
  function AfterRounds(list: seq<Word>, s: State, k: nat): State {
    if k == 0 then s
    else
      var before := AfterRounds(list, s, k - 1);
      match Pick(list, before.taken, before.lastUsed, Incremental)
      case None => before
      case Some(id) => Released(Taken(before, id), id)
  }

  /** After `last` it is the turn of entry `i`: the one after the last used, or the first after the last one. */
  ghost predicate TurnOf(list: seq<Word>, last: Word, i: nat) {
    i < |list| && if i == 0 then last >= list[|list| - 1] else last == list[i - 1]
  }

  ghost predicate AllFree(list: seq<Word>, taken: set<Word>) {
    forall i :: 0 <= i < |list| ==> IsFree(taken, list[i])
  }

  lemma {:induction false} NothingInRange(list: seq<Word>, taken: set<Word>, lo: int, hi: int, from: nat)
    requires from <= |list| && forall i :: from <= i < |list| ==> !(lo < list[i] <= hi)
    ensures FirstFree(list, taken, lo, hi, from) == None
    decreases |list| - from
  {
    if from < |list| { NothingInRange(list, taken, lo, hi, from + 1); }
  }

  lemma PickNext(list: seq<Word>, taken: set<Word>, last: Word, i: nat)
    requires Ascending(list) && AllFree(list, taken) && TurnOf(list, last, i)
    ensures Pick(list, taken, last, Incremental) == Some(list[i])
    ensures TurnOf(list, list[i], if i + 1 == |list| then 0 else i + 1)
  {
    if i == 0 {
      forall j | 0 <= j < |list| ensures !(last < list[j] <= UINT32_MAX) {
        if j < |list| - 1 { assert list[j] < list[|list| - 1]; }
      }
      NothingInRange(list, taken, last, UINT32_MAX, 0);
      assert list[0] <= list[|list| - 1];
      FirstFreeIsFirst(list, taken, -1, last, 0, 0);
    } else {
      assert list[i - 1] < list[i];
      forall j | 0 <= j < i ensures !(last < list[j]) {
        if j < i - 1 { assert list[j] < list[i - 1]; }
      }
      FirstFreeIsFirst(list, taken, last, UINT32_MAX, 0, i);
    }
  }

  lemma {:induction false} TurnAfter(list: seq<Word>, taken: set<Word>, k: nat)
    requires Ascending(list) && list != [] && AllFree(list, taken)
    ensures var s := AfterRounds(list, State(taken, UINT32_MAX), k);
            s.taken == taken && TurnOf(list, s.lastUsed, k % |list|)
  {
    hide Pick, Ascending, TurnOf, IsFree;
    if k == 0 {
      FirstTurn(list);
    } else {
      TurnAfter(list, taken, k - 1);
      var s := AfterRounds(list, State(taken, UINT32_MAX), k - 1);
      var i := (k - 1) % |list|;
      NextModulo(k - 1, |list|);
      DivBounds(k - 1, |list|);
      PickNext(list, taken, s.lastUsed, i);
      NotTaken(list, taken, i);
      assert taken + {list[i]} - {list[i]} == taken;
    }
  }

  lemma NotTaken(list: seq<Word>, taken: set<Word>, i: nat)
    requires AllFree(list, taken) && i < |list|
    ensures list[i] !in taken
  {
    assert IsFree(taken, list[i]);
  }

  lemma FirstTurn(list: seq<Word>)
    requires list != []
    ensures TurnOf(list, UINT32_MAX, 0)
  {
  }

  /**
   * On an ascending list of free ids, and with the initial value for the last used id, incremental
   * request `k` is answered entry `k` modulo the length, when each id is released before the next request.
   */
  lemma IncrementalGoesRound(list: seq<Word>, taken: set<Word>, k: nat)
    requires Ascending(list) && list != [] && AllFree(list, taken)
    ensures var s := AfterRounds(list, State(taken, UINT32_MAX), k);
            s.taken == taken && Pick(list, s.taken, s.lastUsed, Incremental) == Some(list[k % |list|])
  {
    hide Pick, Ascending, TurnOf, AllFree;
    TurnAfter(list, taken, k);
    DivBounds(k, |list|);
    PickNext(list, taken, AfterRounds(list, State(taken, UINT32_MAX), k).lastUsed, k % |list|);
  }

  /** On a list that is not in order the mode `Smallest` may choose another id than the smallest one. */
  lemma SmallestNeedsOrder()
    ensures Pick([5, 3], {}, UINT32_MAX, Smallest) == Some(5) && !InOrder([5, 3])
  {
    assert [5, 3][..0] == [];
    assert [5, 3][0] > [5, 3][1];
  }

  // ---------- The class ----------

  class ChannelBdIdGenerator {
    const channelToValidBdIds: map<Word, seq<Word>>
    var assignedBdIds: set<Word>
    var lastUsedBdId: Word

    constructor (channelToValidBdIds: map<Word, seq<Word>>)
      ensures this.channelToValidBdIds == channelToValidBdIds && assignedBdIds == {} && lastUsedBdId == UINT32_MAX
    {
      this.channelToValidBdIds := channelToValidBdIds;
      assignedBdIds := {};
      lastUsedBdId := UINT32_MAX;
    }

    ghost function Now(): State
      reads this
    {
      State(assignedBdIds, lastUsedBdId)
    }

    /** The ids of a channel; none if the channel is not known. */
    function ValidIds(channel: Word): seq<Word> {
      if channel in channelToValidBdIds then channelToValidBdIds[channel] else []
    }

    method AssignBdId(bdId: Word)
      modifies this
      ensures assignedBdIds == old(assignedBdIds) + {bdId} && lastUsedBdId == bdId && Now() == Taken(old(Now()), bdId)
    {
      assignedBdIds := assignedBdIds + {bdId};
      lastUsedBdId := bdId;
    }

    predicate IsBdIdAssigned(bdId: Word)
      reads this
    {
      bdId in assignedBdIds
    }

    method ReleaseBdId(bdId: Word)
      modifies this`assignedBdIds
      ensures assignedBdIds == old(assignedBdIds) - {bdId} && Now() == Released(old(Now()), bdId)
    {
      assignedBdIds := assignedBdIds - {bdId};
    }

    method GetNumAvailableBdIds(channel: Word) returns (count: nat)
      ensures count == CountFree(ValidIds(channel), assignedBdIds, |ValidIds(channel)|)
      ensures count == 0 <==> forall id :: id in ValidIds(channel) ==> IsBdIdAssigned(id)
      ensures count == |FreeEntries(ValidIds(channel), assignedBdIds, |ValidIds(channel)|)|
    {
      if channel !in channelToValidBdIds { CountsEntries([], assignedBdIds, 0); return 0; }
      var list := channelToValidBdIds[channel];
      NoneFree(list, assignedBdIds, |list|);
      CountsEntries(list, assignedBdIds, |list|);
      assert forall i :: 0 <= i < |list| ==> list[i] in ValidIds(channel);
      count := 0;
      for n := 0 to |list|
        invariant count == CountFree(list, assignedBdIds, n)
      {
        if !IsBdIdAssigned(list[n]) { count := count + 1; }
      }
    }

    /** An id is returned if and only if one is available; it belongs to the channel, was free, and is now assigned and the last used one. */
    method GetAndAssignBdId(channel: Word, mode: BdIdAssignmentMode) returns (r: Option<Word>)
      modifies this
      ensures r == Pick(ValidIds(channel), old(assignedBdIds), old(lastUsedBdId), mode)
      ensures r.None? <==> CountFree(ValidIds(channel), old(assignedBdIds), |ValidIds(channel)|) == 0
      ensures r.Some? ==> r.value in ValidIds(channel) && r.value !in old(assignedBdIds)
      ensures r.Some? ==> assignedBdIds == old(assignedBdIds) + {r.value} && lastUsedBdId == r.value && Now() == Taken(old(Now()), r.value)
      ensures r.None? ==> unchanged(this)
    {
      PickFindsFree(ValidIds(channel), assignedBdIds, lastUsedBdId, mode);
      if channel !in channelToValidBdIds || channelToValidBdIds[channel] == [] { return None; }
      if mode == Smallest {
        r := FindAndAssign(channelToValidBdIds[channel], -1, UINT32_MAX);
      } else {
        r := FindAndAssign(channelToValidBdIds[channel], lastUsedBdId, UINT32_MAX);
        if r.None? { r := FindAndAssign(channelToValidBdIds[channel], -1, lastUsedBdId); }
      }
    }

    /** One pass over the list: the first free id above `lo` and not above `hi` is assigned. */
    method FindAndAssign(list: seq<Word>, lo: int, hi: int) returns (r: Option<Word>)
      modifies this
      ensures r == FirstFree(list, old(assignedBdIds), lo, hi, 0)
      ensures r.Some? ==> assignedBdIds == old(assignedBdIds) + {r.value} && lastUsedBdId == r.value
      ensures r.None? ==> unchanged(this)
    {
      for n := 0 to |list|
        invariant unchanged(this)
        invariant FirstFree(list, assignedBdIds, lo, hi, 0) == FirstFree(list, assignedBdIds, lo, hi, n)
      {
        if lo < list[n] <= hi && !IsBdIdAssigned(list[n]) {
          AssignBdId(list[n]);
          return Some(list[n]);
        }
      }
      return None;
    }
  }
}
