/**
 * The bookkeeping of a query in execution: which matches are in progress, which lists of captures
 * they own, which are pruned, and in which order finished ones are returned.
 */
module QueryCursors {
  import opened Options
  import opened Gathering
  import opened Sequences
  import opened QueryCaptures
  import opened CaptureLists
  import opened FinishedHeaps
  import opened StableSorts
  import opened QueryStates
  import opened Prunings

  /** The state can say what it will capture first. */
  predicate IsCandidate(query: Query, lists: Lists, s: QueryState, skipGuaranteed: bool) {
    !s.dead && HasNext(lists, s) && !(skipGuaranteed && query.isGuaranteed(s.stepIndex))
  }

  /** Captures before the cursor's range have been passed over. */
  predicate Passed(query: Query, lists: Lists, s: QueryState) {
    !s.dead && HasNext(lists, s) ==> !query.precedesRange(Next(lists, s))
  }

  /** `t` is `s` with perhaps more of its captures consumed. */
  predicate MoreConsumed(s: QueryState, t: QueryState) {
    t == s.(consumedCaptureCount := t.consumedCaptureCount) && s.consumedCaptureCount <= t.consumedCaptureCount
  }

  ghost predicate AllMoreConsumed(before: seq<QueryState>, after: seq<QueryState>) {
    |before| == |after| && forall i :: 0 <= i < |before| ==> MoreConsumed(before[i], after[i])
  }

  /** The first in the order of position and pattern among the candidates. */
  ghost predicate IsEarliest(query: Query, lists: Lists, states: seq<QueryState>, n: nat, skipGuaranteed: bool, index: nat) {
    && index < n <= |states| && IsCandidate(query, lists, states[index], skipGuaranteed)
    && forall k :: 0 <= k < n && IsCandidate(query, lists, states[k], skipGuaranteed) ==>
         !EarlierCapture(Next(lists, states[k]).startByte, states[k].patternIndex,
                         Next(lists, states[index]).startByte, states[index].patternIndex)
  }

  predicate EarlierCapture(byte: nat, pattern: nat, otherByte: nat, otherPattern: nat) {
    byte < otherByte || (byte == otherByte && pattern < otherPattern)
  }

  /** The state is sure to match, so that its captures may be returned before it has finished. */
  predicate IsDefinite(query: Query, s: QueryState) { query.isGuaranteed(s.stepIndex) && !query.isImmediate(s.stepIndex) }

  /** From `i` on, the first capture that is not to be skipped. */
  function FirstKept(skip: Capture -> bool, captures: seq<Capture>, i: nat): (j: nat)
    ensures i <= j && (j < |captures| ==> !skip(captures[j])) && forall k :: i <= k < j && k < |captures| ==> skip(captures[k])
    decreases |captures| - i
  {
    if i < |captures| && skip(captures[i]) then FirstKept(skip, captures, i + 1) else i
  }

  /** A state in progress once its captures before the cursor's range have been passed over. */
  function PassedOver(query: Query, lists: Lists, s: QueryState): (t: QueryState)
    ensures MoreConsumed(s, t) && (Captures(lists, t) == Captures(lists, s) ==> Passed(query, lists, t))
  {
    if s.dead then s
    else s.(consumedCaptureCount := FirstKept(query.precedesRange, Captures(lists, s), s.consumedCaptureCount))
  }

  function AllPassedOver(query: Query, lists: Lists, states: seq<QueryState>): (after: seq<QueryState>)
    ensures |after| == |states| && forall i :: 0 <= i < |states| ==> after[i] == PassedOver(query, lists, states[i])
  {
    seq(|states|, i requires 0 <= i < |states| => PassedOver(query, lists, states[i]))
  }

  predicate IsOutside(query: Query, c: Capture) { query.precedesRange(c) || query.followsRange(c) }

  /** `u` is the finished state `t` with only captures outside of the cursor's range consumed. */
  predicate CleanedTo(query: Query, lists: Lists, t: QueryState, u: QueryState) {
    && MoreConsumed(t, u)
    && forall i :: t.consumedCaptureCount <= i < u.consumedCaptureCount && i < |Captures(lists, t)| ==>
         IsOutside(query, Captures(lists, t)[i])
  }

  /** The finished state has no capture left in the cursor's range. */
  predicate UsedUp(query: Query, lists: Lists, t: QueryState) {
    forall i :: t.consumedCaptureCount <= i < |Captures(lists, t)| ==> IsOutside(query, Captures(lists, t)[i])
  }

  /** Every finished state has been cleaned, or dropped if it was used up, and there are no others. */
  ghost predicate AllCleaned(query: Query, lists: Lists, before: seq<QueryState>, after: seq<QueryState>) {
    && (forall t :: t in before ==> UsedUp(query, lists, t) || Kept(query, lists, t, after))
    && forall u :: u in after ==> Stems(query, lists, before, u)
  }

  ghost predicate Kept(query: Query, lists: Lists, t: QueryState, after: seq<QueryState>) {
    exists u :: u in after && CleanedTo(query, lists, t, u)
  }

  ghost predicate Stems(query: Query, lists: Lists, before: seq<QueryState>, u: QueryState) {
    exists t :: t in before && CleanedTo(query, lists, t, u)
  }

  datatype Returned = Returned(id: nat, patternIndex: nat, captures: seq<Capture>, captureIndex: nat)

  /**
   * What matching asks of the bookkeeping: `Renew` a state for the next node, so that it forgets that
   * there were alternatives, and so on; `EndNode` is the pruning after each node.
   */
  datatype Step =
    | Begin(stepIndex: nat, patternIndex: nat, startDepth: nat, needsParent: bool)
    | Renew(index: nat)
    | Fail(index: nat)
    | Split(index: nat)
    | Jump(index: nat, stepIndex: nat, seeking: bool, skipped: bool)
    | Match(index: nat, parentMissing: bool, parentCaptures: seq<Capture>, captures: seq<Capture>, nextStep: nat, seeking: bool)
    | EndNode
    | Halt

  /** The state belongs after those that start where the pattern does: deeper, or as deep with a later pattern. */
  predicate StartsAfter(s: QueryState, startDepth: nat, patternIndex: nat) {
    s.startDepth > startDepth || (s.startDepth == startDepth && s.patternIndex > patternIndex)
  }

  predicate SameStart(s: QueryState, startDepth: nat, patternIndex: nat, stepIndex: nat) {
    s.startDepth == startDepth && s.patternIndex == patternIndex && s.stepIndex == stepIndex
  }

  /** Finished states have been added at most, and the earlier ones have the captures they had. */
  ghost predicate Progressed(lists: Lists, items: seq<QueryState>, lists': Lists, items': seq<QueryState>) {
    |items| <= |items'| && items'[..|items|] == items && SameCaptures(lists, lists', items)
  }

  /** The states from the `n`th on finished when `number` was the next number, or later. */
  ghost predicate NumberedFrom(items: seq<QueryState>, n: nat, number: nat) {
    forall k :: n <= k < |items| ==> items[k].heapInsertOrder >= number
  }

  /** The pool once a state's list has been given back. */
  function Released(lists: Lists, s: QueryState): Lists {
    if s.captureListId < |lists| then lists[s.captureListId := Free] else lists
  }

  /** `s`, the first to have finished among some states, has been returned and the others remain. */
  ghost predicate IsReturned(s: QueryState, among: multiset<QueryState>, rest: multiset<QueryState>, lists: Lists, result: Returned) {
    && s in among && rest + multiset{s} == among
    && (forall t :: t in among ==> s.heapInsertOrder <= t.heapInsertOrder)
    && result.captures == Captures(lists, s) && result.patternIndex == s.patternIndex
    && (s.id != UNSET ==> result.id == s.id)
  }

  predicate EarlierThan(lists: Lists, t: QueryState, s: QueryState)
    requires HasNext(lists, t) && HasNext(lists, s)
  {
    EarlierCapture(Next(lists, t).startByte, t.patternIndex, Next(lists, s).startByte, s.patternIndex)
  }

  /** What is returned is the next capture of `s`, and no other state has one that comes before it. */
  ghost predicate IsFirstCapture(query: Query, lists: Lists, inProgress: seq<QueryState>, done: seq<QueryState>, s: QueryState,
                                 result: Returned)
  {
    && (s in inProgress || s in done) && HasNext(lists, s)
    && result.captures == Captures(lists, s) && result.captureIndex == s.consumedCaptureCount
    && result.patternIndex == s.patternIndex && (s.id != UNSET ==> result.id == s.id)
    && (forall t :: t in done && HasNext(lists, t) ==> !EarlierThan(lists, t, s))
    && (forall t :: t in inProgress && IsCandidate(query, lists, t, false) ==> !EarlierThan(lists, t, s))
  }

  /** `t` has just had a capture consumed and returned, and no other state has one that comes before it. */
  ghost predicate IsReturnedFirst(query: Query, lists: Lists, states: seq<QueryState>, items: seq<QueryState>, t: QueryState,
                                  result: Returned)
  {
    && (t in states || t in items) && t.id == result.id && t.patternIndex == result.patternIndex
    && result.captures == Captures(lists, t) && result.captureIndex + 1 == t.consumedCaptureCount
    && result.captureIndex < |result.captures|
    && var c := result.captures[result.captureIndex];
    && (forall u :: u in items && u != t && HasNext(lists, u) ==>
          !EarlierCapture(Next(lists, u).startByte, u.patternIndex, c.startByte, t.patternIndex))
    && (forall u :: u in states && u != t && IsCandidate(query, lists, u, false) ==>
          !EarlierCapture(Next(lists, u).startByte, u.patternIndex, c.startByte, t.patternIndex))
  }

  /** The captures of each state start one after the other, as nodes are visited. */
  ghost predicate InStartOrder(lists: Lists, states: seq<QueryState>) {
    forall s, i, j :: s in states && 0 <= i < j < |Captures(lists, s)| ==>
      Captures(lists, s)[i].startByte <= Captures(lists, s)[j].startByte
  }

  /** What is returned does not come before what was returned earlier. */
  predicate NotBefore(result: Returned, earlier: Returned) {
    result.captureIndex < |result.captures| && earlier.captureIndex < |earlier.captures| ==>
      !EarlierCapture(result.captures[result.captureIndex].startByte, result.patternIndex,
                      earlier.captures[earlier.captureIndex].startByte, earlier.patternIndex)
  }

  /** A state and what has become of it: the captures still ahead of it are no earlier. */
  lemma LaterNext(lists: Lists, states: seq<QueryState>, u: QueryState, s: QueryState)
    requires InStartOrder(lists, states) && u in states && MoreConsumed(u, s) && HasNext(lists, s)
    ensures HasNext(lists, u) && s.patternIndex == u.patternIndex && Next(lists, u).startByte <= Next(lists, s).startByte
    ensures forall i :: 0 <= i < u.consumedCaptureCount && i < |Captures(lists, u)| ==>
              Captures(lists, u)[i].startByte <= Next(lists, s).startByte
  {
    assert Captures(lists, s) == Captures(lists, u);
  }

  /**
   * Nothing new having been found since the last call, the first capture ahead does not come before
   * the one that was returned then.
   */
  lemma CapturesComeInOrder(query: Query, lists: Lists, states: seq<QueryState>, items: seq<QueryState>, t: QueryState,
                            earlier: Returned, done: seq<QueryState>, s: QueryState, result: Returned)
    requires IsReturnedFirst(query, lists, states, items, t, earlier)
    requires InStartOrder(lists, states) && InStartOrder(lists, items)
    requires forall u :: u in states && u.dead ==> !HasNext(lists, u)
    requires AllCleaned(query, lists, items, done)
    requires IsFirstCapture(query, lists, AllPassedOver(query, lists, states), done, s, result)
    ensures NotBefore(result, earlier)
  {
    hide AllCleaned, InStartOrder, PassedOver;
    var c := earlier.captures[earlier.captureIndex];
    var inProgress := AllPassedOver(query, lists, states);
    if s in inProgress {
      var k :| 0 <= k < |inProgress| && inProgress[k] == s;
      assert states[k] in states;
      LaterNext(lists, states, states[k], s);
    } else {
      CleanedFrom(query, lists, items, done, s);
      var u :| u in items && MoreConsumed(u, s);
      LaterNext(lists, items, u, s);
    }
  }

  /** Whatever was returned last, with the states as they are, the first capture ahead does not come before it. */
  ghost predicate InOrderAfter(query: Query, lists: Lists, states: seq<QueryState>, items: seq<QueryState>, result: Returned) {
    InStartOrder(lists, states) && InStartOrder(lists, items) ==>
      forall t, earlier :: IsReturnedFirst(query, lists, states, items, t, earlier) ==> NotBefore(result, earlier)
  }

  lemma FirstIsInOrder(query: Query, lists: Lists, states: seq<QueryState>, items: seq<QueryState>,
                       done: seq<QueryState>, s: QueryState, result: Returned)
    requires forall u :: u in states && u.dead ==> !HasNext(lists, u)
    requires AllCleaned(query, lists, items, done)
    requires IsFirstCapture(query, lists, AllPassedOver(query, lists, states), done, s, result)
    ensures InOrderAfter(query, lists, states, items, result)
  {
    hide AllCleaned, InStartOrder, IsReturnedFirst, IsFirstCapture, NotBefore;
    if InStartOrder(lists, states) && InStartOrder(lists, items) {
      forall t, earlier | IsReturnedFirst(query, lists, states, items, t, earlier) ensures NotBefore(result, earlier) {
        CapturesComeInOrder(query, lists, states, items, t, earlier, done, s, result);
      }
    }
  }

  /** In plain words: the capture that was returned starts first, and of those that start there it is of the first pattern. */
  lemma ReturnedStartsFirst(query: Query, lists: Lists, states: seq<QueryState>, items: seq<QueryState>, t: QueryState,
                            result: Returned, u: QueryState)
    requires IsReturnedFirst(query, lists, states, items, t, result)
    requires u != t && (u in items || (u in states && !u.dead)) && u.consumedCaptureCount < |CapturesOf(lists, u.captureListId)|
    ensures result.captureIndex < |result.captures|
    ensures var mine, other := result.captures[result.captureIndex], CapturesOf(lists, u.captureListId)[u.consumedCaptureCount];
            mine.startByte < other.startByte || (mine.startByte == other.startByte && result.patternIndex <= u.patternIndex)
  {
    assert HasNext(lists, u) && (u in states ==> IsCandidate(query, lists, u, false) || u in items);
  }

  lemma CleanedFrom(query: Query, lists: Lists, before: seq<QueryState>, after: seq<QueryState>, u: QueryState)
    requires AllCleaned(query, lists, before, after) && u in after
    ensures exists t :: t in before && MoreConsumed(t, u)
  {
    assert Stems(query, lists, before, u);
  }

  /** The state `s` with a capture consumed, under the id that was returned. */
  function Consumed(s: QueryState, id: nat): QueryState { s.(id := id, consumedCaptureCount := s.consumedCaptureCount + 1) }

  class QueryCursor {
    const query: Query
    const capturePool: CaptureListPool
    const finished: FinishedStates<QueryState>
    var states: seq<QueryState>
    var nextStateId: nat
    var nextFinishedStateId: nat
    var didExceedMatchLimit: bool

    ghost predicate Valid()
      reads this, capturePool, finished
    {
      OkBut(multiset{})
    }

    /** The invariant while the lists in `extra` are held by an operation. */
    ghost predicate OkBut(extra: multiset<nat>)
      reads this`states, this`nextFinishedStateId, capturePool, finished
    {
      && capturePool.Valid()
      && CursorOk(capturePool.list, states, finished.items, finished.heapSize, nextFinishedStateId, extra)
    }

    constructor (query: Query)
      ensures Valid() && this.query == query && fresh(capturePool) && fresh(finished)
      ensures states == [] && finished.items == [] && capturePool.list == []
    {
      this.query := query;
      capturePool := new CaptureListPool();
      finished := new FinishedStates<QueryState>();
      states, nextStateId, nextFinishedStateId, didExceedMatchLimit := [], 0, 0, false;
      new;
      NothingYet();
    }

    /** Begin anew: all lists are free and nothing is in progress or finished. */
    method Exec()
      requires Valid()
      modifies this, capturePool, finished
      ensures Valid() && states == [] && finished.items == [] && capturePool.highest == old(capturePool.highest)
      ensures |capturePool.list| == |old(capturePool.list)|
      ensures forall i :: 0 <= i < |capturePool.list| ==> capturePool.list[i].Free?
    {
      states, finished.items, finished.heapSize := [], [], 0;
      capturePool.Reset();
      nextStateId, nextFinishedStateId, didExceedMatchLimit := 0, 0, false;
      NothingWithFree(capturePool.list);
    }

    // ----- single states -----------------------------------------------------------------------

    /** Begin to match a pattern where a node matches its first step. */
    method AddState(stepIndex: nat, patternIndex: nat, startDepth: nat, needsParent: bool) returns (ghost at: nat)
      requires Valid()
      modifies this`states
      ensures Valid()
      ensures at <= |old(states)| && forall k :: at <= k < |old(states)| ==> StartsAfter(old(states)[k], startDepth, patternIndex)
      ensures at > 0 ==> !StartsAfter(old(states)[at - 1], startDepth, patternIndex)
      ensures states == if at > 0 && SameStart(old(states)[at - 1], startDepth, patternIndex, stepIndex) then old(states)
                        else InsertAt(old(states), at, NewState(stepIndex, patternIndex, startDepth, needsParent))
    {
      hide CursorOk, InsertAt;
      at := |states|;
      var index: nat := |states|;
      while index > 0
        invariant index <= |states| && states == old(states) && at == index
        invariant forall k :: at <= k < |states| ==> StartsAfter(states[k], startDepth, patternIndex)
      {
        var previous := states[index - 1];
        if previous.startDepth < startDepth { break; }
        if previous.startDepth == startDepth {
          if previous.patternIndex == patternIndex && previous.stepIndex == stepIndex { return; }
          if previous.patternIndex <= patternIndex { break; }
        }
        index := index - 1;
        at := index;
      }
      var s := NewState(stepIndex, patternIndex, startDepth, needsParent);
      assert multiset{} + ListIdOf(s) == multiset{};
      InsertKeepsCursor(capturePool.list, states, finished.items, finished.heapSize, nextFinishedStateId, multiset{}, index, s);
      states := InsertAt(states, index, s);
    }

    /** Drop a state in progress and give its list back. */
    method DropState(i: nat)
      requires Valid() && i < |states|
      modifies this`states, capturePool
      ensures Valid() && states == Erase(old(states), i) && capturePool.highest == old(capturePool.highest)
      ensures SameCaptures(old(capturePool.list), capturePool.list, states)
      ensures SameCaptures(old(capturePool.list), capturePool.list, finished.items)
    {
      hide CursorOk, Erase, SameCaptures;
      var s := states[i];
      EraseKeeps(capturePool.list, states, finished.items, finished.heapSize, nextFinishedStateId, multiset{}, i);
      states := Erase(states, i);
      ReleaseList(s);
    }

    method ReleaseList(s: QueryState)
      requires OkBut(multiset{} + ListIdOf(s))
      modifies capturePool
      ensures Valid() && capturePool.highest == old(capturePool.highest)
      ensures SameCaptures(old(capturePool.list), capturePool.list, states)
      ensures SameCaptures(old(capturePool.list), capturePool.list, finished.items)
    {
      hide CursorOk;
      ListsAreFew(multiset{} + ListIdOf(s));
      if s.captureListId != CAPTURE_LIST_NONE {
        ReleaseKeeps(capturePool.list, states, finished.items, finished.heapSize, nextFinishedStateId, multiset{}, s.captureListId);
      } else {
        assert multiset{} + ListIdOf(s) == multiset{};
      }
      capturePool.Release(s.captureListId);
    }

    ghost method ListsAreFew(extra: multiset<nat>)
      requires OkBut(extra)
      ensures |capturePool.list| <= CAPTURE_LIST_NONE
    {
    }

    /** Change a state in progress without touching its list. */
    method SetState(i: nat, t: QueryState)
      requires Valid() && i < |states| && t.captureListId == states[i].captureListId && ListOk(t)
      modifies this`states
      ensures Valid() && states == old(states)[i := t]
    {
      hide CursorOk;
      var s := states[i];
      SetKeeps(capturePool.list, states, finished.items, finished.heapSize, nextFinishedStateId, multiset{}, i, t);
      states := states[i := t];
    }

    /**
     * The state in progress whose next capture comes first. Captures before the cursor's range are
     * passed over on the way.
     */
    method FirstInProgressCapture(skipGuaranteed: bool)
      returns (found: bool, index: nat, byteOffset: nat, patternIndex: nat, isDefinite: bool)
      requires Valid()
      modifies this`states
      ensures Valid() && states == AllPassedOver(query, capturePool.list, old(states))
      ensures AllMoreConsumed(old(states), states)
      ensures forall k :: 0 <= k < |states| ==> Passed(query, capturePool.list, states[k])
      ensures found ==> IsEarliest(query, capturePool.list, states, |states|, skipGuaranteed, index)
      ensures found ==> byteOffset == Next(capturePool.list, states[index]).startByte && patternIndex == states[index].patternIndex
      ensures found && !skipGuaranteed ==> isDefinite == IsDefinite(query, states[index])
      ensures !found ==> forall k :: 0 <= k < |states| ==> !IsCandidate(query, capturePool.list, states[k], skipGuaranteed)
    {
      hide CursorOk, IsEarliest, IsCandidate, Passed, AllMoreConsumed, PassedOver;
      found, index, byteOffset, patternIndex, isDefinite := false, UNSET, UNSET, UNSET, false;
      var lists := capturePool.list;
      SameConsumed(states);
      var i := 0;
      while i < |states|
        invariant i <= |states| && Valid() && AllMoreConsumed(old(states), states)
        invariant |states| == |old(states)|
        invariant forall k :: 0 <= k < i ==> states[k] == PassedOver(query, lists, old(states)[k])
        invariant forall k :: i <= k < |states| ==> states[k] == old(states)[k]
        invariant forall k :: 0 <= k < i ==> Passed(query, lists, states[k])
        invariant found ==> IsEarliest(query, lists, states, i, skipGuaranteed, index)
        invariant found ==> index < i && HasNext(lists, states[index])
        invariant found ==> byteOffset == Next(lists, states[index]).startByte && patternIndex == states[index].patternIndex
        invariant found && !skipGuaranteed ==> isDefinite == IsDefinite(query, states[index])
        invariant !found ==> forall k :: 0 <= k < i ==> !IsCandidate(query, lists, states[k], skipGuaranteed)
      {
        ghost var before := states;
        PassOver(i);
        StillEarliest(query, lists, before, states, i, skipGuaranteed, index);
        MoreConsumedOnce(old(states), before, states, i);
        var s := states[i];
        OneMoreCandidate(query, lists, states, i, skipGuaranteed, found, index);
        if !s.dead && HasNext(lists, s) {
          var c := Next(lists, s);
          if (!found || EarlierCapture(c.startByte, s.patternIndex, byteOffset, patternIndex))
             && !(skipGuaranteed && query.isGuaranteed(s.stepIndex)) {
            isDefinite := query.isGuaranteed(s.stepIndex) && !query.isImmediate(s.stepIndex);
            found, index, byteOffset, patternIndex := true, i, c.startByte, s.patternIndex;
          }
        }
        i := i + 1;
      }
    }

    /** Pass over the captures of a state that lie before the cursor's range. */
    method PassOver(i: nat)
      requires Valid() && i < |states|
      modifies this`states
      ensures Valid() && |states| == |old(states)| && states == old(states)[i := states[i]]
      ensures states[i] == PassedOver(query, capturePool.list, old(states)[i])
      ensures MoreConsumed(old(states)[i], states[i]) && Passed(query, capturePool.list, states[i])
    {
      hide CursorOk;
      while !states[i].dead && HasNext(capturePool.list, states[i]) && query.precedesRange(Next(capturePool.list, states[i]))
        invariant Valid() && |states| == |old(states)| && states == old(states)[i := states[i]]
        invariant MoreConsumed(old(states)[i], states[i])
        invariant PassedOver(query, capturePool.list, states[i]) == PassedOver(query, capturePool.list, old(states)[i])
        decreases |Captures(capturePool.list, states[i])| - states[i].consumedCaptureCount
      {
        ListsOk(multiset{});
        SetState(i, states[i].(consumedCaptureCount := states[i].consumedCaptureCount + 1));
      }
    }

    // ----- capturing ---------------------------------------------------------------------------

    /**
     * Get an empty list for a state that has none: from the pool or, when that is exhausted, from
     * the state in progress that has captured the earliest node, which dies of it. A state whose
     * captures are guaranteed to be returned, and the one at `preserve`, are spared.
     */
    method PrepareToCapture(preserve: nat) returns (ok: bool, id: nat)
      requires Valid()
      modifies this`states, this`didExceedMatchLimit, capturePool
      ensures OkBut(if ok then multiset{id} else multiset{}) && |states| == |old(states)|
      ensures capturePool.highest == old(capturePool.highest)
      ensures ok ==> id < |capturePool.list| && capturePool.list[id] == Used([])
      ensures forall k :: 0 <= k < |states| ==>
                || Spared(old(capturePool.list), old(states)[k], capturePool.list, states[k])
                || (ok && Robbed(old(states)[k], states[k]) && old(states)[k].captureListId == id)
      ensures preserve < |states| ==> Spared(old(capturePool.list), old(states)[preserve], capturePool.list, states[preserve])
      ensures SameCaptures(old(capturePool.list), capturePool.list, finished.items)
      ensures !old(capturePool.IsEmpty()) ==> ok && states == old(states)
      ensures !ok ==> didExceedMatchLimit
    {
      hide CursorOk, SameCaptures, Spared, Robbed, AllMoreConsumed, IsEarliest, Passed;
      ghost var lists, before := capturePool.list, states;
      AllSpared(lists, states);
      SameCapturesItself(lists, finished.items);
      id := capturePool.Acquire();
      ok := true;
      if id != CAPTURE_LIST_NONE {
        ListsAreFewIn(capturePool);
        AcquireKeeps(lists, states, finished.items, finished.heapSize, nextFinishedStateId, multiset{}, id, capturePool.list);
        SparedBySame(lists, capturePool.list, states);
        assert multiset{} + multiset{id} == multiset{id};
        return;
      }
      didExceedMatchLimit := true;
      var found, index, byteOffset, patternIndex, definite := FirstInProgressCapture(true);
      ConsumedSpared(lists, before, states);
      if !found || index == preserve {
        ok := false;
        return;
      }
      EarliestIsOwner(query, capturePool.list, states, index, true);
      ghost var middle := states;
      var victim := states[index];
      id := victim.captureListId;
      var robbed := victim.(captureListId := CAPTURE_LIST_NONE, dead := true);
      assert multiset{} + ListIdOf(robbed) == multiset{} && multiset{} + ListIdOf(victim) == multiset{id};
      UpdateKeeps(capturePool.list, states, finished.items, finished.heapSize, nextFinishedStateId, multiset{}, index, robbed);
      states := states[index := robbed];
      ChangeKeeps(capturePool.list, states, finished.items, finished.heapSize, nextFinishedStateId, multiset{id}, id, []);
      capturePool.Clear(id);
      RobbedOne(lists, before, middle, states, index, capturePool.list, id);
    }

    ghost method ListsAreFewIn(pool: CaptureListPool)
      requires pool.Valid()
      ensures |pool.list| <= CAPTURE_LIST_NONE
    {
    }

    /** Add captures to the list of a state; a state that can get no list dies. */
    method CaptureNodes(i: nat, captures: seq<Capture>)
      requires Valid() && i < |states| && (states[i].dead || !states[i].needsParent)
      modifies this`states, this`didExceedMatchLimit, capturePool
      ensures Valid() && |states| == |old(states)| && capturePool.highest == old(capturePool.highest)
      ensures !states[i].dead ==> Captures(capturePool.list, states[i]) == Captures(old(capturePool.list), old(states)[i]) + captures
      ensures var s, t := old(states)[i], states[i];
              && MoreConsumed(s.(captureListId := t.captureListId, dead := t.dead), t) && (s.dead ==> t.dead)
              && (t.dead && !s.dead ==> s.captureListId == CAPTURE_LIST_NONE && old(capturePool.IsEmpty()))
      ensures OthersAlone(old(capturePool.list), old(states), capturePool.list, states, i)
      ensures SameCaptures(old(capturePool.list), capturePool.list, finished.items)
    {
      hide CursorOk, SameCaptures, Spared, Robbed, OthersAlone;
      SameCapturesItself(capturePool.list, finished.items);
      AloneAtFirst(capturePool.list, states, i);
      if states[i].dead { return; }
      if states[i].captureListId == CAPTURE_LIST_NONE {
        CaptureFirst(i, captures);
      } else {
        CaptureMore(i, captures);
      }
    }

    /** Add the first captures of a state to a list that it gets, if it gets one. */
    method CaptureFirst(i: nat, captures: seq<Capture>)
      requires Valid() && i < |states| && !states[i].dead && !states[i].needsParent && states[i].captureListId == CAPTURE_LIST_NONE
      modifies this`states, this`didExceedMatchLimit, capturePool
      ensures Valid() && |states| == |old(states)| && capturePool.highest == old(capturePool.highest)
      ensures !states[i].dead ==> Captures(capturePool.list, states[i]) == Captures(old(capturePool.list), old(states)[i]) + captures
      ensures MoreConsumed(old(states)[i].(captureListId := states[i].captureListId, dead := states[i].dead), states[i])
      ensures states[i].dead ==> old(capturePool.IsEmpty())
      ensures OthersAlone(old(capturePool.list), old(states), capturePool.list, states, i)
      ensures SameCaptures(old(capturePool.list), capturePool.list, finished.items)
    {
      hide CursorOk, SameCaptures, Spared, Robbed, Numbered, Owned, OthersAlone;
      ghost var lists, items := capturePool.list, finished.items;
      ListsAreFewIn(capturePool);
      var ok, id := PrepareToCapture(UNSET);
      ghost var lists1, s := capturePool.list, states[i];
      SparedHasList(lists, old(states)[i], lists1, s);
      ListsOk(if ok then multiset{id} else multiset{});
      PreparedAlone(lists, old(states), lists1, states, i);
      assert states[i := s] == states;
      if !ok {
        SameCapturesItself(lists1, states);
        AloneWith(lists, old(states), lists1, states, lists1, i, s, s.(dead := true));
        SetState(i, states[i].(dead := true));
        return;
      }
      ghost var t := s.(captureListId := id);
      ChangeKeeps(capturePool.list, states, items, finished.heapSize, nextFinishedStateId, multiset{id}, id, captures);
      assert [] + captures == captures;
      capturePool.Push(id, captures);
      SameCapturesThrough(lists, lists1, capturePool.list, items);
      assert multiset{} + ListIdOf(t) == multiset{id} && multiset{} + ListIdOf(s) == multiset{};
      UpdateKeeps(capturePool.list, states, items, finished.heapSize, nextFinishedStateId, multiset{}, i, t);
      AloneWith(lists, old(states), lists1, states, capturePool.list, i, s, t);
      states := states[i := states[i].(captureListId := id)];
    }

    /** Add captures to the list that a state has. */
    method CaptureMore(i: nat, captures: seq<Capture>)
      requires Valid() && i < |states| && !states[i].dead && states[i].captureListId != CAPTURE_LIST_NONE
      modifies capturePool
      ensures Valid() && capturePool.highest == old(capturePool.highest)
      ensures Captures(capturePool.list, states[i]) == Captures(old(capturePool.list), states[i]) + captures
      ensures OthersAlone(old(capturePool.list), states, capturePool.list, states, i)
      ensures SameCaptures(old(capturePool.list), capturePool.list, finished.items)
    {
      hide CursorOk, SameCaptures, Spared, Robbed, Numbered, Owned, OthersAlone;
      ghost var lists, items := capturePool.list, finished.items;
      var s := states[i];
      var id := s.captureListId;
      ListsAreFewIn(capturePool);
      ListsOk(multiset{});
      AloneAtFirst(lists, states, i);
      OwnList(lists, states, items, finished.heapSize, nextFinishedStateId, i);
      ghost var s0 := s.(captureListId := CAPTURE_LIST_NONE);
      assert multiset{} + ListIdOf(s0) == multiset{} && multiset{} + ListIdOf(s) == multiset{id};
      UpdateKeeps(lists, states, items, finished.heapSize, nextFinishedStateId, multiset{}, i, s0);
      ChangeKeeps(lists, states[i := s0], items, finished.heapSize, nextFinishedStateId, multiset{id}, id, lists[id].captures + captures);
      capturePool.Push(id, captures);
      UpdateKeeps(capturePool.list, states[i := s0], items, finished.heapSize, nextFinishedStateId, multiset{}, i, s);
      assert states[i := s0][i := s] == states && states[i := s] == states;
      AloneWith(lists, states, lists, states, capturePool.list, i, s0, s);
    }

    /** A list with the captures of a state that has some, for its copy. */
    method CopyList(i: nat) returns (ok: bool, id: nat)
      requires Valid() && i < |states| && states[i].captureListId != CAPTURE_LIST_NONE
      modifies this`states, this`didExceedMatchLimit, capturePool
      ensures OkBut(if ok then multiset{id} else multiset{}) && |states| == |old(states)|
      ensures capturePool.highest == old(capturePool.highest) && MoreConsumed(old(states)[i], states[i])
      ensures ok ==> id != CAPTURE_LIST_NONE
      ensures !ok ==> didExceedMatchLimit && old(capturePool.IsEmpty())
      ensures OthersAlone(old(capturePool.list), old(states), capturePool.list, states, i)
      ensures ok ==> CapturesOf(capturePool.list, id) == Captures(old(capturePool.list), old(states)[i])
      ensures Captures(capturePool.list, states[i]) == Captures(old(capturePool.list), old(states)[i])
      ensures SameCaptures(old(capturePool.list), capturePool.list, finished.items)
    {
      hide CursorOk, SameCaptures, Robbed, Numbered, Owned, Spared, OthersAlone;
      ghost var lists, items := capturePool.list, finished.items;
      ok, id := PrepareToCapture(i);
      SparedHasList(lists, old(states)[i], capturePool.list, states[i]);
      PreparedAlone(lists, old(states), capturePool.list, states, i);
      if !ok { return; }
      ghost var lists1 := capturePool.list;
      ListsAreFewIn(capturePool);
      var captures := CapturesOf(capturePool.list, states[i].captureListId);
      ChangeKeeps(capturePool.list, states, items, finished.heapSize, nextFinishedStateId, multiset{id}, id, captures);
      assert [] + captures == captures;
      capturePool.Push(id, captures);
      SameCapturesThrough(lists, lists1, capturePool.list, items);
      SameCapturesAt(lists1, capturePool.list, states, i);
      assert states[i := states[i]] == states;
      AloneWith(lists, old(states), lists1, states, capturePool.list, i, states[i], states[i]);
    }

    /** Split a state in two: the copy follows it and has its own list with the same captures. */
    method CopyState(i: nat) returns (ok: bool)
      requires Valid() && i < |states|
      modifies this`states, this`didExceedMatchLimit, capturePool
      ensures Valid() && capturePool.highest == old(capturePool.highest)
      ensures |states| == |old(states)| + if ok then 1 else 0
      ensures ok ==> Captures(capturePool.list, states[i + 1]) == Captures(capturePool.list, states[i])
                  == Captures(old(capturePool.list), old(states)[i])
      ensures ok ==> states[i + 1] == old(states)[i].(captureListId := states[i + 1].captureListId)
      ensures ok ==> MoreConsumed(old(states)[i], states[i])
      ensures !ok ==> didExceedMatchLimit && old(capturePool.IsEmpty()) && old(states)[i].captureListId != CAPTURE_LIST_NONE
      ensures OthersAlone(old(capturePool.list), old(states), capturePool.list, if ok then Erase(states, i + 1) else states, i)
      ensures SameCaptures(old(capturePool.list), capturePool.list, finished.items)
    {
      hide CursorOk, SameCaptures, Numbered, Owned, InsertAt, Erase, OthersAlone, Spared, Robbed;
      SameCapturesItself(capturePool.list, finished.items);
      AloneAtFirst(capturePool.list, states, i);
      ListsAreFewIn(capturePool);
      ListsOk(multiset{});
      var copy := states[i].(captureListId := CAPTURE_LIST_NONE);
      ghost var held := multiset{};
      if states[i].captureListId != CAPTURE_LIST_NONE {
        var id;
        ok, id := CopyList(i);
        if !ok { return; }
        copy := copy.(captureListId := id);
        held := multiset{id};
      }
      ok := true;
      assert multiset{} + ListIdOf(copy) == held;
      InsertKeepsCursor(capturePool.list, states, finished.items, finished.heapSize, nextFinishedStateId, multiset{}, i + 1, copy);
      InsertedMembers(states, i + 1, copy);
      InsertedErased(states, i + 1, copy);
      states := InsertAt(states, i + 1, copy);
    }

    // ----- pruning -----------------------------------------------------------------------------

    /** Sort the states in progress, keeping the order of those that rank alike. */
    method SortStates()
      requires Valid()
      modifies this`states
      ensures Valid() && states == StableSort(old(states), StateOrder(capturePool.list))
      ensures Sorted(states, StateOrder(capturePool.list)) && multiset(states) == multiset(old(states))
    {
      hide CursorOk, StableSort, Insert, Sorted, StatePrecedes, MovedTo;
      ghost var s0, precedes := states, StateOrder(capturePool.list);
      var lists := capturePool.list;
      OneSorted(s0, precedes);
      var i: nat := 1;
      while i < |states|
        invariant |states| == |s0| && capturePool.list == lists
        invariant i <= |s0| ==> states == StableSort(s0[..i], precedes) + s0[i..]
        invariant i > |s0| ==> states == s0 == []
        decreases |s0| - i
      {
        ghost var before, j := states, i;
        SortedLength(s0[..i], precedes);
        if !StatePrecedes(lists, states[i], states[i - 1]) {
          Unmoved(states, i);
        } else {
          j := MoveBack(i);
        }
        Placed(s0, i, before, states, j, precedes);
        i := i + 1;
      }
      SortedKeeps(lists, s0, states, i, finished.items, finished.heapSize, nextFinishedStateId);
    }

    /** Move a state back to before those that it precedes. */
    method MoveBack(i: nat) returns (j: nat)
      requires 0 < i < |states| && StatePrecedes(capturePool.list, states[i], states[i - 1])
      modifies this`states
      ensures j < i && states == MovedTo(old(states), i, j)
      ensures forall k :: j <= k < i ==> StatePrecedes(capturePool.list, old(states)[i], old(states)[k])
      ensures j == 0 || !StatePrecedes(capturePool.list, old(states)[i], old(states)[j - 1])
    {
      hide StatePrecedes, Shifted, MovedTo;
      ghost var s := states;
      var key := states[i];
      j := i;
      ShiftNone(s, i);
      while true
        invariant 0 < j <= i < |states| == |s| && states == Shifted(s, i, j)
        invariant forall k :: j - 1 <= k < i ==> StatePrecedes(capturePool.list, key, s[k])
        decreases j
      {
        ShiftOne(s, i, j);
        states := states[j := states[j - 1]];
        j := j - 1;
        if !(j > 0 && StatePrecedes(capturePool.list, key, states[j - 1])) { break; }
      }
      ShiftedThenSet(s, i, j);
      states := states[j := key];
    }

    /** Record a finished match under the next number. */
    method FinishState(i: nat)
      requires Valid() && i < |states|
      modifies this`states, this`nextFinishedStateId, finished`items
      ensures Valid() && states == Erase(old(states), i)
      ensures finished.items == old(finished.items) + [old(states)[i].(heapInsertOrder := old(nextFinishedStateId))]
      ensures nextFinishedStateId == old(nextFinishedStateId) + 1
    {
      hide CursorOk, Erase;
      var s := states[i].(heapInsertOrder := nextFinishedStateId);
      EraseKeeps(capturePool.list, states, finished.items, finished.heapSize, nextFinishedStateId, multiset{}, i);
      states := Erase(states, i);
      assert ListIdOf(s) == ListIdOf(old(states)[i]);
      FinishKeeps(capturePool.list, states, finished.items, finished.heapSize, nextFinishedStateId, multiset{}, s);
      nextFinishedStateId := nextFinishedStateId + 1;
      finished.items := finished.items + [s];
    }

    /**
     * Enforce the longest match: drop states whose captures another state of the same pattern at
     * the same step has as well, and finish those that are done and have no alternative left.
     */
    method Prune() returns (didMatch: bool, ghost done: seq<QueryState>)
      requires Valid() && Sorted(states, StateOrder(capturePool.list))
      modifies this`states, this`nextFinishedStateId, capturePool, finished`items
      ensures Valid() && finished.items == old(finished.items) + done && didMatch == (done != [])
      ensures capturePool.highest == old(capturePool.highest) && nextFinishedStateId >= old(nextFinishedStateId)
      ensures NumberedFrom(done, 0, old(nextFinishedStateId))
      ensures Pruned(query, old(capturePool.list), old(states), states, done)
      ensures AllCovered(old(capturePool.list), old(states), states, done)
      ensures AllFrom(old(states), states) && AllFrom(old(states), done)
      ensures SameCaptures(old(capturePool.list), capturePool.list, states)
      ensures SameCaptures(old(capturePool.list), capturePool.list, finished.items)
    {
      hide CursorOk, Erase, SameCaptures, AllCovered, AllFrom, Contains, Scanned, Sorted, Pruned, PruneOk;
      ghost var s0, lists0, items0 := states, capturePool.list, finished.items;
      didMatch, done := false, [];
      PruneStarts(lists0, s0, items0);
      ScanStarts(query, lists0, s0);
      var j := 0;
      while j < |states|
        invariant j <= |states| && Valid() && capturePool.highest == old(capturePool.highest)
        invariant finished.items == items0 + done && didMatch == (done != [])
        invariant nextFinishedStateId >= old(nextFinishedStateId) && NumberedFrom(done, 0, old(nextFinishedStateId))
        invariant PruneOk(lists0, s0, capturePool.list, states, finished.items, done)
        invariant Scanned(query, lists0, s0, states, done, j, j + 1)
        decreases |states| - j
      {
        if states[j].dead {
          ScanErases(query, lists0, s0, states, done, j, j + 1, j);
          PruneDead(lists0, s0, capturePool.list, states, finished.items, done, j);
          ErasedMembers(states, j);
          ListsOk(multiset{});
          ghost var lists := capturePool.list;
          DropDead(j);
          continue;
        }
        var didRemove := PruneAgainst(j, s0, lists0, done);
        if !didRemove {
          if query.isDone(states[j].stepIndex) && !states[j].hasInProgressAlternatives {
            ghost var before, items := states, finished.items;
            FinishState(j);
            ErasedMembers(before, j);
            ghost var t := finished.items[|items|];
            PruneFinished(lists0, s0, capturePool.list, before, items, done, j, t);
            ScanFinishes(query, lists0, s0, before, done, j, t);
            done := done + [t];
            didMatch := true;
          } else {
            ScanPasses(query, lists0, s0, states, done, j);
            j := j + 1;
          }
        }
      }
      ScanEnds(query, lists0, s0, states, done, j + 1);
      PruneEnds(lists0, s0, capturePool.list, states, finished.items, done);
    }

    /** Remove a state that has died, which has no list. */
    method DropDead(i: nat)
      requires Valid() && i < |states| && ListOk(states[i]) && states[i].dead
      modifies this`states
      ensures Valid() && states == Erase(old(states), i)
    {
      hide CursorOk, Erase;
      EraseKeeps(capturePool.list, states, finished.items, finished.heapSize, nextFinishedStateId, multiset{}, i);
      assert multiset{} + ListIdOf(states[i]) == multiset{};
      states := Erase(states, i);
    }

    /** Note that a state has an alternative in progress, which is state `other`. */
    method MarkState(i: nat, ghost other: nat, j: nat, k: nat, ghost s0: seq<QueryState>, ghost lists0: Lists, ghost done: seq<QueryState>)
      requires Valid() && j <= i < |states| && other < |states| && ListOk(states[i])
      requires PruneOk(lists0, s0, capturePool.list, states, finished.items, done)
      requires Scanned(query, lists0, s0, states, done, j, k)
      requires SameGroup(states[other], states[i]) && SaysContains(lists0, states[other], states[i]) && !StandsFor(states[other], states[i])
      modifies this`states
      ensures Valid() && states == old(states)[i := old(states)[i].(hasInProgressAlternatives := true)]
      ensures PruneOk(lists0, s0, capturePool.list, states, finished.items, done)
      ensures Scanned(query, lists0, s0, states, done, j, k)
    {
      hide CursorOk, PruneOk, SaysContains, Scanned;
      ScannedFrom(query, lists0, s0, states, done, j, k);
      PruneFlagged(lists0, s0, capturePool.list, states, finished.items, done, i);
      MarkJustified(lists0, s0, states[other], states[i]);
      ScanMarks(query, lists0, s0, states, done, j, k, i);
      SetState(i, states[i].(hasInProgressAlternatives := true));
    }

    /** Compare two states of a group; if one makes the other redundant, that one goes. */
    method PrunePair(j: nat, k: nat, ghost s0: seq<QueryState>, ghost lists0: Lists, ghost done: seq<QueryState>)
      returns (droppedFirst: bool, droppedSecond: bool)
      requires Valid() && j < k < |states| && SameGroup(states[j], states[k])
      requires PruneOk(lists0, s0, capturePool.list, states, finished.items, done)
      requires Scanned(query, lists0, s0, states, done, j, k) && !states[j].dead
      modifies this`states, capturePool
      ensures Valid() && capturePool.highest == old(capturePool.highest) && !(droppedFirst && droppedSecond)
      ensures |states| == |old(states)| - if droppedFirst || droppedSecond then 1 else 0
      ensures PruneOk(lists0, s0, capturePool.list, states, finished.items, done)
      ensures Scanned(query, lists0, s0, states, done, j, if droppedFirst then j + 1 else if droppedSecond then k else k + 1)
      ensures !droppedFirst ==> !states[j].dead
    {
      hide CursorOk, Erase, PruneOk, Contains, SameCaptures, Covers, Compared, Scanned, Captures, SaysContains;
      droppedFirst, droppedSecond := false, false;
      var state, other := states[j], states[k];
      PairIs(query, lists0, s0, capturePool.list, states, finished.items, done, j, k);
      var leftContainsRight, rightContainsLeft :=
        CompareCaptures(Captures(capturePool.list, state), Captures(capturePool.list, other));
      ComparedIsSound(Captures(capturePool.list, state), Captures(capturePool.list, other));
      Redundant(capturePool.list, state, other);
      ListsOk(multiset{});
      if leftContainsRight {
        if state.stepIndex == other.stepIndex && (other.seekingImmediateMatch || !state.seekingImmediateMatch) {
          ScanErases(query, lists0, s0, states, done, j, k, k);
          ErasedMembers(states, k);
          DropRedundant(k, j, s0, lists0, done);
          droppedSecond := true;
          return;
        }
        MarkState(k, j, j, k, s0, lists0, done);
        SameSays(capturePool.list, lists0, other, states[k], state);
      }
      droppedFirst := PruneFirst(j, k, rightContainsLeft, s0, lists0, done);
    }

    /** The second half of it: the first state may be the redundant one. */
    method PruneFirst(j: nat, k: nat, rightContainsLeft: bool, ghost s0: seq<QueryState>, ghost lists0: Lists,
                      ghost done: seq<QueryState>)
      returns (dropped: bool)
      requires Valid() && j < k < |states| && SameGroup(states[j], states[k]) && !states[j].dead
      requires PruneOk(lists0, s0, capturePool.list, states, finished.items, done) && Scanned(query, lists0, s0, states, done, j, k)
      requires rightContainsLeft == SaysContains(lists0, states[k], states[j])
      requires rightContainsLeft ==> Contains(Captures(capturePool.list, states[k]), Captures(capturePool.list, states[j]))
      requires SaysContains(lists0, states[j], states[k]) ==>
                 !StandsFor(states[j], states[k]) && states[k].hasInProgressAlternatives
      modifies this`states, capturePool
      ensures Valid() && capturePool.highest == old(capturePool.highest)
      ensures |states| == |old(states)| - if dropped then 1 else 0
      ensures PruneOk(lists0, s0, capturePool.list, states, finished.items, done)
      ensures Scanned(query, lists0, s0, states, done, j, if dropped then j + 1 else k + 1)
      ensures !dropped ==> !states[j].dead
    {
      hide CursorOk, Erase, PruneOk, Contains, SameCaptures, Covers, Compared, Scanned, Captures, SaysContains;
      dropped := false;
      var state, other := states[j], states[k];
      Redundant(capturePool.list, other, state);
      ListsOk(multiset{});
      if rightContainsLeft {
        if state.stepIndex == other.stepIndex && (state.seekingImmediateMatch || !other.seekingImmediateMatch) {
          ScanErases(query, lists0, s0, states, done, j, k, j);
          DropRedundant(j, k, s0, lists0, done);
          dropped := true;
          return;
        }
        MarkState(j, k, j, k, s0, lists0, done);
      }
      PairSettled(lists0, state, other, states[j], states[k]);
      ScanMoves(query, lists0, s0, states, done, j, k);
    }

    method DropRedundant(drop: nat, keep: nat, ghost s0: seq<QueryState>, ghost lists0: Lists, ghost done: seq<QueryState>)
      requires Valid() && drop < |states| && keep < |states| && drop != keep
      requires Covers(capturePool.list, states[keep], states[drop])
      requires PruneOk(lists0, s0, capturePool.list, states, finished.items, done)
      modifies this`states, capturePool
      ensures Valid() && capturePool.highest == old(capturePool.highest) && |states| == |old(states)| - 1
      ensures states == Erase(old(states), drop)
      ensures PruneOk(lists0, s0, capturePool.list, states, finished.items, done)
    {
      hide CursorOk, Erase, PruneOk, SameCaptures, Covers;
      ghost var before, lists := states, capturePool.list;
      DropState(drop);
      ErasedMembers(before, drop);
      PruneDropped(lists0, s0, lists, before, capturePool.list, finished.items, done, drop, keep);
    }

    /** Compare a state with those of its group that come after it; one of each redundant pair goes. */
    method PruneAgainst(j: nat, ghost s0: seq<QueryState>, ghost lists0: Lists, ghost done: seq<QueryState>)
      returns (didRemove: bool)
      requires Valid() && j < |states|
      requires PruneOk(lists0, s0, capturePool.list, states, finished.items, done)
      requires Scanned(query, lists0, s0, states, done, j, j + 1) && !states[j].dead
      modifies this`states, capturePool
      ensures Valid() && |states| <= |old(states)| && capturePool.highest == old(capturePool.highest)
      ensures didRemove ==> j <= |states| < |old(states)| && Scanned(query, lists0, s0, states, done, j, j + 1)
      ensures !didRemove ==> j < |states| && !states[j].dead && Scanned(query, lists0, s0, states, done, j, |states|)
      ensures PruneOk(lists0, s0, capturePool.list, states, finished.items, done)
    {
      hide CursorOk, PruneOk, Scanned, Captures;
      didRemove := false;
      var k: nat := j + 1;
      while k < |states|
        invariant j < k <= |states| && |states| <= |old(states)| && !states[j].dead
        invariant Scanned(query, lists0, s0, states, done, j, k)
        invariant Valid() && capturePool.highest == old(capturePool.highest)
        invariant PruneOk(lists0, s0, capturePool.list, states, finished.items, done)
        decreases |states| - k
      {
        var state, other := states[j], states[k];
        PairIs(query, lists0, s0, capturePool.list, states, finished.items, done, j, k);
        if other.startDepth != state.startDepth || other.patternIndex != state.patternIndex {
          ScanBreaks(query, lists0, s0, states, done, j, k);
          break;
        }
        var left, right := Captures(capturePool.list, state), Captures(capturePool.list, other);
        if |left| > 0 && |right| > 0 && right[0].startByte >= left[|left| - 1].endByte {
          ScanBreaks(query, lists0, s0, states, done, j, k);
          break;
        }
        var droppedFirst, droppedSecond := PrunePair(j, k, s0, lists0, done);
        if droppedFirst {
          didRemove := true;
          return;
        }
        if !droppedSecond {
          k := k + 1;
        }
      }
    }

    // ----- returning matches -------------------------------------------------------------------

    /** Sift newly finished states into the heap. */
    method Heapify()
      requires Valid()
      modifies finished
      ensures Valid() && finished.heapSize == |finished.items| == |old(finished.items)|
      ensures multiset(finished.items) == multiset(old(finished.items))
    {
      hide CursorOk, Heap;
      ghost var items, heapSize := finished.items, finished.heapSize;
      FinishedOrderIsWeak(capturePool.list);
      HeapIsOk();
      finished.Heapify(FinishedOrder(capturePool.list));
      AllPlaced(items, finished.items);
      ReorderKeeps(capturePool.list, states, items, heapSize, nextFinishedStateId, finished.items, finished.heapSize);
    }

    ghost method HeapIsOk()
      requires Valid()
      ensures Heap(finished.items, finished.heapSize, FinishedOrder(capturePool.list))
      ensures finished.heapSize == 0 ==> ByNumber(finished.items)
      ensures Numbered(multiset(finished.items), nextFinishedStateId)
    {
    }

    /** Take a finished state out and give its list back. */
    method RemoveFinished(i: nat)
      requires Valid() && i < |finished.items|
      requires finished.heapSize == 0 || finished.heapSize == |finished.items|
      modifies finished, capturePool
      ensures Valid() && multiset(finished.items) + multiset{old(finished.items)[i]} == multiset(old(finished.items))
      ensures SameCaptures(old(capturePool.list), capturePool.list, finished.items)
      ensures SameCaptures(old(capturePool.list), capturePool.list, states)
      ensures finished.heapSize == if old(finished.heapSize) == 0 then 0 else |finished.items|
      ensures capturePool.highest == old(capturePool.highest)
      ensures capturePool.list == Released(old(capturePool.list), old(finished.items)[i])
    {
      hide CursorOk, Heap, SameCaptures, InOrderAround, Erase, FinishedPrecedes;
      ghost var lists, items, heapSize := capturePool.list, finished.items, finished.heapSize;
      var x := finished.items[i];
      HeapIsOk();
      FinishedOwner(lists, states, items, heapSize, nextFinishedStateId, i);
      capturePool.Release(x.captureListId);
      FinishedOrderIsWeak(lists);
      FinishedOrderIsWeak(capturePool.list);
      if finished.heapSize > 0 {
        RemovedKey(lists, capturePool.list, states, items, heapSize, nextFinishedStateId, i);
        HeapAround(items, i, FinishedOrder(lists), FinishedOrder(capturePool.list));
        finished.Erase(i, FinishedOrder(capturePool.list));
        NoneByNumber(finished.items);
      } else {
        ErasedMembers(finished.items, i);
        finished.items := Erase(finished.items, i);
        ErasedByNumber(items, i);
        NoHeap(finished.items, FinishedOrder(capturePool.list));
      }
      RemoveKeeps(lists, states, items, heapSize, nextFinishedStateId, x, capturePool.list, finished.items, finished.heapSize);
    }

    // ----- matching, as far as the bookkeeping sees it -----------------------------------------

    /** A pattern whose root needs a parent fails without one, and captures it if it has to. */
    method FindParent(i: nat, step: Step)
      requires Valid() && step.Match? && i < |states|
      modifies this`states, this`didExceedMatchLimit, capturePool
      ensures Valid() && |states| == |old(states)| && capturePool.highest == old(capturePool.highest)
      ensures var s, t := old(states)[i], states[i];
        && (s.dead ==> t.dead) && (s.needsParent && step.parentMissing ==> t.dead) && (t.dead || !t.needsParent)
        && (!t.dead ==> Captures(capturePool.list, t)
                        == Captures(old(capturePool.list), s) + (if s.needsParent then step.parentCaptures else []))
      ensures OthersAlone(old(capturePool.list), old(states), capturePool.list, states, i)
      ensures SameCaptures(old(capturePool.list), capturePool.list, finished.items)
    {
      hide CursorOk, SameCaptures, OthersAlone, Captures;
      ListsOk(multiset{});
      ghost var lists, before := capturePool.list, states;
      SameCapturesItself(lists, finished.items);
      AloneAtFirst(lists, states, i);
      if states[i].needsParent {
        if step.parentMissing {
          SetOne(i, states[i].(dead := true), lists, before);
        } else {
          SetOne(i, states[i].(needsParent := false), lists, before);
          if step.parentCaptures != [] {
            CaptureOne(i, step.parentCaptures, lists, before);
          }
        }
      }
    }

    /** A state matches its step at a node: it captures what the step asks for and moves on, unless it dies. */
    method MatchStep(i: nat, step: Step) returns (ghost t: QueryState)
      requires Valid() && step.Match? && i < |states|
      modifies this`states, this`didExceedMatchLimit, capturePool
      ensures Valid() && capturePool.highest == old(capturePool.highest)
      ensures var s := old(states)[i];
        && |states| == |old(states)| - (if t.dead then 1 else 0) && (s.dead ==> t.dead)
        && (s.needsParent && step.parentMissing ==> t.dead)
        && OthersAlone(old(capturePool.list), old(states), capturePool.list, if t.dead then InsertAt(states, i, t) else states, i)
        && (!t.dead ==>
              && states[i] == t && !t.needsParent && t.stepIndex == step.nextStep && t.seekingImmediateMatch == step.seeking
              && Captures(capturePool.list, t)
                 == Captures(old(capturePool.list), s) + (if s.needsParent then step.parentCaptures else []) + step.captures)
      ensures SameCaptures(old(capturePool.list), capturePool.list, finished.items)
    {
      hide CursorOk, SameCaptures, OthersAlone, InsertAt, Erase, Captures;
      ghost var lists, before := capturePool.list, states;
      FindParent(i, step);
      if step.captures != [] && (states[i].dead || !states[i].needsParent) {
        CaptureOne(i, step.captures, lists, before);
      }
      t := states[i];
      ListsOk(multiset{});
      if states[i].dead {
        ErasedInserted(states, i);
        DropDead(i);
        return;
      }
      SetOne(i, states[i].(stepIndex := step.nextStep, seekingImmediateMatch := step.seeking, skippedQuantifier := false), lists, before);
      t := states[i];
    }

    /** Add captures to the list of a state that matching has changed since it was `before[i]`. */
    method CaptureOne(i: nat, captures: seq<Capture>, ghost lists: Lists, ghost before: seq<QueryState>)
      requires Valid() && i < |states| && (states[i].dead || !states[i].needsParent)
      requires OthersAlone(lists, before, capturePool.list, states, i)
      requires SameCaptures(lists, capturePool.list, finished.items)
      modifies this`states, this`didExceedMatchLimit, capturePool
      ensures Valid() && |states| == |old(states)| && capturePool.highest == old(capturePool.highest)
      ensures !states[i].dead ==> Captures(capturePool.list, states[i]) == Captures(old(capturePool.list), old(states)[i]) + captures
      ensures states[i].needsParent == old(states)[i].needsParent && (old(states)[i].dead ==> states[i].dead)
      ensures OthersAlone(lists, before, capturePool.list, states, i)
      ensures SameCaptures(lists, capturePool.list, finished.items)
    {
      hide CursorOk, SameCaptures, OthersAlone;
      CaptureNodes(i, captures);
      AloneThrough(lists, before, old(capturePool.list), old(states), capturePool.list, states, i);
      SameCapturesThrough(lists, old(capturePool.list), capturePool.list, finished.items);
    }

    /** Change a state but for its list and its captures. */
    method SetOne(i: nat, t: QueryState, ghost lists: Lists, ghost before: seq<QueryState>)
      requires Valid() && i < |states| && t.captureListId == states[i].captureListId && ListOk(t)
      requires OthersAlone(lists, before, capturePool.list, states, i)
      modifies this`states
      ensures Valid() && states == old(states)[i := t] && OthersAlone(lists, before, capturePool.list, states, i)
      ensures Captures(capturePool.list, t) == Captures(capturePool.list, old(states)[i])
    {
      hide CursorOk, SameCaptures, OthersAlone;
      SameCapturesItself(capturePool.list, states);
      assert states[i := states[i]] == states;
      AloneWith(lists, before, capturePool.list, states, capturePool.list, i, states[i], t);
      SetState(i, t);
    }

    /** One step of matching; steps on states that are not there do nothing. */
    method Execute(step: Step)
      requires Valid()
      modifies this, capturePool, finished
      ensures Valid() && capturePool.highest == old(capturePool.highest) && nextStateId == old(nextStateId)
      ensures finished.heapSize == old(finished.heapSize)
      ensures Progressed(old(capturePool.list), old(finished.items), capturePool.list, finished.items)
      ensures nextFinishedStateId >= old(nextFinishedStateId)
      ensures NumberedFrom(finished.items, |old(finished.items)|, old(nextFinishedStateId))
      ensures step.Halt? ==> states == [] && finished.items == old(finished.items)
      ensures step.EndNode? ==>
                Pruned(query, old(capturePool.list), StableSort(old(states), StateOrder(old(capturePool.list))), states,
                       finished.items[|old(finished.items)|..])
    {
      hide CursorOk, SameCaptures, AllCovered, AllFrom, Sorted, Pruned, StableSort;
      ghost var lists, items := capturePool.list, finished.items;
      SameCapturesItself(lists, items);
      match step
      case Begin(stepIndex, patternIndex, startDepth, needsParent) =>
        ghost var at := AddState(stepIndex, patternIndex, startDepth, needsParent);
      case Renew(i) =>
        if i < |states| {
          ListsOk(multiset{});
          SetState(i, states[i].(hasInProgressAlternatives := false));
        }
      case Fail(i) =>
        if i < |states| { DropState(i); }
      case Split(i) =>
        if i < |states| { var ok := CopyState(i); }
      case Jump(i, stepIndex, seeking, skipped) =>
        if i < |states| {
          ListsOk(multiset{});
          SetState(i, states[i].(stepIndex := stepIndex, seekingImmediateMatch := seeking, skippedQuantifier := skipped));
        }
      case Match(i, _, _, _, _, _) =>
        if i < |states| { ghost var t := MatchStep(i, step); }
      case EndNode =>
        SortStates();
        var didMatch, done := Prune();
        MoreFinished(lists, capturePool.list, items, done);
        assert finished.items[|items|..] == done;
      case Halt =>
        while |states| > 0
          invariant Valid() && capturePool.highest == old(capturePool.highest) && nextStateId == old(nextStateId)
          invariant finished.items == items && SameCaptures(lists, capturePool.list, items)
          invariant nextFinishedStateId == old(nextFinishedStateId)
          invariant finished.heapSize == old(finished.heapSize)
        {
          ghost var lists1 := capturePool.list;
          DropState(|states| - 1);
          SameCapturesThrough(lists, lists1, capturePool.list, items);
        }
    }

    /** Go on matching: until something has matched or, with an empty script, until there is no more. */
    method Advance(script: seq<Step>, stopOnDefiniteStep: bool) returns (didMatch: bool)
      requires Valid()
      modifies this, capturePool, finished
      ensures Valid() && capturePool.highest == old(capturePool.highest) && nextStateId == old(nextStateId)
      ensures finished.heapSize == old(finished.heapSize)
      ensures Progressed(old(capturePool.list), old(finished.items), capturePool.list, finished.items)
      ensures nextFinishedStateId >= old(nextFinishedStateId)
      ensures NumberedFrom(finished.items, |old(finished.items)|, old(nextFinishedStateId))
      ensures didMatch && !stopOnDefiniteStep ==> |finished.items| > |old(finished.items)|
      ensures !didMatch ==> |finished.items| == |old(finished.items)|
      ensures script == [] ==> !didMatch && states == [] && finished.items == old(finished.items)
      ensures script != [] && script[|script| - 1].EndNode? ==> forall i :: 0 <= i < |states| ==> MayStay(query, states[i])
    {
      hide CursorOk, SameCaptures, Pruned, MayStay, StableSort;
      ghost var lists, items := capturePool.list, finished.items;
      ProgressedNot(lists, items);
      if script == [] {
        Execute(Halt);
        didMatch := false;
        return;
      }
      var definite, before := false, |finished.items|;
      for k := 0 to |script|
        invariant Valid() && capturePool.highest == old(capturePool.highest) && nextStateId == old(nextStateId)
        invariant finished.heapSize == old(finished.heapSize)
        invariant Progressed(lists, items, capturePool.list, finished.items)
        invariant nextFinishedStateId >= old(nextFinishedStateId)
        invariant NumberedFrom(finished.items, |items|, old(nextFinishedStateId))
        invariant k > 0 && script[k - 1].EndNode? ==> forall i :: 0 <= i < |states| ==> MayStay(query, states[i])
      {
        ghost var lists1, items1 := capturePool.list, finished.items;
        ghost var next1, s1 := nextFinishedStateId, states;
        Execute(script[k]);
        NumberedThrough(items, items1, finished.items, old(nextFinishedStateId), next1);
        ProgressedThrough(lists, items, lists1, items1, capturePool.list, finished.items);
        if script[k].EndNode? {
          PrunedStay(query, lists1, StableSort(s1, StateOrder(lists1)), states, finished.items[|items1|..]);
        }
        if script[k].Match? && query.isGuaranteed(script[k].nextStep) {
          definite := true;
        }
      }
      didMatch := |finished.items| > before || (stopOnDefiniteStep && definite);
    }

    /** Among the finished states the one that finished first. */
    method EarliestFinished() returns (index: nat)
      requires Valid() && finished.items != []
      ensures index < |finished.items|
      ensures forall k :: 0 <= k < |finished.items| ==> finished.items[index].heapInsertOrder <= finished.items[k].heapInsertOrder
    {
      hide CursorOk, Heap;
      index := 0;
      HeapIsOk();
      if finished.heapSize > 0 {
        for i := 1 to |finished.items|
          invariant index < i
          invariant forall k :: 0 <= k < i ==> finished.items[index].heapInsertOrder <= finished.items[k].heapInsertOrder
        {
          if finished.items[i].heapInsertOrder < finished.items[index].heapInsertOrder {
            index := i;
          }
        }
      }
    }

    /** Return a finished match: the one that finished first. */
    method ReturnMatch() returns (result: Returned, ghost s: QueryState)
      requires Valid() && finished.items != []
      modifies this`nextStateId, capturePool, finished
      ensures Valid() && capturePool.highest == old(capturePool.highest)
      ensures s in old(finished.items)
      ensures IsReturned(s, multiset(old(finished.items)), multiset(finished.items), old(capturePool.list), result)
      ensures capturePool.list == Released(old(capturePool.list), s)
      ensures SameCaptures(old(capturePool.list), capturePool.list, finished.items)
      ensures SameCaptures(old(capturePool.list), capturePool.list, states)
    {
      hide CursorOk, SameCaptures, Heap, IsReturned, Released;
      if finished.heapSize > 0 {
        Heapify();
      }
      SameItems(old(finished.items), finished.items);
      var index := EarliestFinished();
      ghost var items := finished.items;
      s := items[index];
      result := ReturnNext(finished.items[index]);
      RemoveFinished(index);
      FirstReturned(items, index, multiset(finished.items), old(capturePool.list), result);
    }

    /**
     * The next match: of those that have finished and have not been returned the one that finished
     * first. If there is none, matching goes on, and what is returned finished in the course of that;
     * `lists` are the lists when matching pauses, which keep what is returned.
     */
    method NextMatch(script: seq<Step>)
      returns (result: Option<Returned>, ghost s: QueryState, ghost lists: Lists)
      requires Valid()
      modifies this, capturePool, finished
      ensures Valid() && capturePool.highest == old(capturePool.highest)
      ensures old(finished.items) != [] ==>
        && result.Some? && lists == old(capturePool.list) && states == old(states) && s in old(finished.items)
        && IsReturned(s, multiset(old(finished.items)), multiset(finished.items), lists, result.value)
      ensures old(finished.items) == [] && result.Some? ==>
        && IsReturned(s, multiset(finished.items) + multiset{s}, multiset(finished.items), lists, result.value)
        && s.heapInsertOrder >= old(nextFinishedStateId) && NumberedFrom(finished.items, 0, old(nextFinishedStateId))
      ensures result.Some? ==> capturePool.list == Released(lists, s) && SameCaptures(lists, capturePool.list, finished.items)
      ensures result.None? ==> old(finished.items) == [] && finished.items == []
      ensures old(finished.items) == [] && script == [] ==> result.None? && states == []
    {
      hide CursorOk, SameCaptures, Progressed, Heap, IsReturned, Released;
      s := NewState(0, 0, 0, false);
      if |finished.items| == 0 {
        var didMatch := Advance(script, false);
        lists := capturePool.list;
        if !didMatch {
          return None, s, lists;
        }
      }
      lists := capturePool.list;
      ghost var items := finished.items;
      var returned;
      returned, s := ReturnMatch();
      AmongReturned(items, finished.items, s, lists, returned);
      RestNumbered(items, finished.items, s, old(nextFinishedStateId));
      result := Some(returned);
    }

    /** Drop a match, finished or not. */
    method RemoveMatch(matchId: nat)
      requires Valid()
      modifies this`states, capturePool, finished
      ensures Valid() && capturePool.highest == old(capturePool.highest)
      ensures multiset(finished.items) <= multiset(old(finished.items))
      ensures (exists s :: s in old(finished.items) && s.id == matchId) ==>
        states == old(states)
        && exists s :: s in old(finished.items) && s.id == matchId
                    && multiset(finished.items) + multiset{s} == multiset(old(finished.items))
      ensures (forall s :: s in old(finished.items) ==> s.id != matchId) ==>
        multiset(finished.items) == multiset(old(finished.items))
        && (if exists i :: 0 <= i < |old(states)| && old(states)[i].id == matchId
            then exists i :: 0 <= i < |old(states)| && old(states)[i].id == matchId && states == Erase(old(states), i)
            else states == old(states))
    {
      hide CursorOk, SameCaptures, Heap, Erase;
      ghost var all := multiset(finished.items);
      if finished.heapSize > 0 {
        Heapify();
      }
      var i := 0;
      while i < |finished.items|
        invariant i <= |finished.items| && Valid() && multiset(finished.items) == all && states == old(states)
        invariant finished.heapSize == 0 || finished.heapSize == |finished.items|
        invariant forall k :: 0 <= k < i ==> finished.items[k].id != matchId
        invariant capturePool.highest == old(capturePool.highest)
      {
        if finished.items[i].id == matchId {
          ghost var s := finished.items[i];
          assert s in all;
          RemoveFinished(i);
          return;
        }
        i := i + 1;
      }
      NotAmong(old(finished.items), finished.items, matchId);
      i := 0;
      while i < |states|
        invariant i <= |states| && Valid() && multiset(finished.items) == all && states == old(states)
        invariant forall k :: 0 <= k < i ==> states[k].id != matchId
        invariant capturePool.highest == old(capturePool.highest)
      {
        if states[i].id == matchId {
          DropState(i);
          return;
        }
        i := i + 1;
      }
    }

    // ----- returning captures ------------------------------------------------------------------

    /** Remove the root of the heap, all of whose captures have been returned. */
    method PopRoot()
      requires Valid() && finished.items != [] && finished.heapSize == |finished.items|
      modifies finished, capturePool
      ensures Valid() && finished.heapSize == |finished.items|
      ensures multiset(finished.items) + multiset{old(finished.items)[0]} == multiset(old(finished.items))
      ensures SameCaptures(old(capturePool.list), capturePool.list, finished.items)
      ensures SameCaptures(old(capturePool.list), capturePool.list, states)
      ensures capturePool.highest == old(capturePool.highest)
    {
      hide CursorOk, Heap, SameCaptures, InOrderAround, FinishedPrecedes;
      ghost var lists, items, heapSize := capturePool.list, finished.items, finished.heapSize;
      var x := finished.items[0];
      HeapIsOk();
      FinishedOwner(lists, states, items, heapSize, nextFinishedStateId, 0);
      capturePool.Release(x.captureListId);
      FinishedOrderIsWeak(lists);
      FinishedOrderIsWeak(capturePool.list);
      RemovedKey(lists, capturePool.list, states, items, heapSize, nextFinishedStateId, 0);
      HeapAround(items, 0, FinishedOrder(lists), FinishedOrder(capturePool.list));
      finished.Pop(FinishedOrder(capturePool.list));
      NoneByNumber(finished.items);
      RemoveKeeps(lists, states, items, heapSize, nextFinishedStateId, x, capturePool.list, finished.items, finished.heapSize);
    }

    /** The root of the heap has had a capture consumed: it may have to go down. */
    method SinkRoot(t: QueryState)
      requires Valid() && finished.items != [] && finished.heapSize == |finished.items|
      requires t.captureListId == finished.items[0].captureListId && t.heapInsertOrder == finished.items[0].heapInsertOrder
      modifies finished`items
      ensures Valid() && finished.heapSize == |finished.items|
      ensures multiset(finished.items) == multiset(old(finished.items)[0 := t])
    {
      hide CursorOk, Heap, HeapButDown, FinishedPrecedes;
      ghost var lists, items := capturePool.list, finished.items;
      HeapIsOk();
      FinishedOrderIsWeak(lists);
      RootChanges(items, t, FinishedOrder(lists));
      finished.items := finished.items[0 := t];
      finished.SiftDown(0, FinishedOrder(capturePool.list));
      RootKeeps(lists, states, items, finished.heapSize, nextFinishedStateId, t, finished.items);
    }

    /** Pass over finished states that are used up and captures outside of the range, up to a capture to return. */
    method CleanRoot()
      requires Valid() && finished.heapSize == |finished.items|
      modifies finished, capturePool
      ensures Valid() && finished.heapSize == |finished.items| && capturePool.highest == old(capturePool.highest)
      ensures finished.items != [] ==>
        && HasNext(capturePool.list, finished.items[0])
        && !query.precedesRange(Next(capturePool.list, finished.items[0]))
        && !query.followsRange(Next(capturePool.list, finished.items[0]))
      ensures AllCleaned(query, old(capturePool.list), old(finished.items), finished.items)
      ensures SameCaptures(old(capturePool.list), capturePool.list, finished.items)
      ensures SameCaptures(old(capturePool.list), capturePool.list, states)
    {
      hide CursorOk, SameCaptures, Gather, AllCleaned;
      ghost var lists0, items0 := capturePool.list, finished.items;
      SameCapturesItself(lists0, states);
      SameCapturesItself(lists0, items0);
      CleanedItself(query, lists0, items0);
      while |finished.items| > 0
        invariant Valid() && finished.heapSize == |finished.items| && capturePool.highest == old(capturePool.highest)
        invariant SameCaptures(lists0, capturePool.list, states) && SameCaptures(lists0, capturePool.list, finished.items)
        invariant AllCleaned(query, lists0, items0, finished.items)
        decreases Gather(finished.items, WorkOf(capturePool.list))[0]
      {
        ghost var lists, items := capturePool.list, finished.items;
        var state := finished.items[0];
        if !HasNext(capturePool.list, state) {
          PopRoot();
          LessWork(lists, items, capturePool.list, finished.items);
          SameCapturesThrough(lists0, lists, capturePool.list, states);
          CleanedWithout(query, lists0, items0, items, finished.items, lists, capturePool.list);
          continue;
        }
        var c := Next(capturePool.list, state);
        if query.precedesRange(c) || query.followsRange(c) {
          var t := state.(consumedCaptureCount := state.consumedCaptureCount + 1);
          SinkRoot(t);
          LessToConsume(lists, items, t, finished.items);
          CleanedFurther(query, lists0, items0, items, finished.items, t, lists);
          continue;
        }
        break;
      }
    }

    /** What is returned of a state: its captures, and which of them is next. */
    method ReturnNext(state: QueryState) returns (returned: Returned)
      modifies this`nextStateId
      ensures returned == Returned(returned.id, state.patternIndex, Captures(capturePool.list, state), state.consumedCaptureCount)
      ensures if state.id == UNSET then returned.id == old(nextStateId) && nextStateId == old(nextStateId) + 1
              else returned.id == state.id && nextStateId == old(nextStateId)
    {
      var id := state.id;
      if id == UNSET {
        id := nextStateId;
        nextStateId := nextStateId + 1;
      }
      returned := Returned(id, state.patternIndex, Captures(capturePool.list, state), state.consumedCaptureCount);
    }

    /** Find the earliest capture in progress, and bring the earliest finished one to the root of the heap. */
    method LookAhead() returns (found: bool, index: nat, byteOffset: nat, patternIndex: nat, isDefinite: bool)
      requires Valid()
      modifies this`states, capturePool, finished
      ensures Valid() && capturePool.highest == old(capturePool.highest) && finished.heapSize == |finished.items|
      ensures states == AllPassedOver(query, old(capturePool.list), old(states)) && |states| == |old(states)|
      ensures AllCleaned(query, old(capturePool.list), old(finished.items), finished.items)
      ensures SameCaptures(old(capturePool.list), capturePool.list, states)
      ensures SameCaptures(old(capturePool.list), capturePool.list, finished.items)
      ensures found ==>
        && IsEarliest(query, capturePool.list, states, |states|, false, index)
        && index < |states| && HasNext(capturePool.list, states[index])
        && byteOffset == Next(capturePool.list, states[index]).startByte && patternIndex == states[index].patternIndex
        && isDefinite == IsDefinite(query, states[index])
      ensures !found ==> forall k :: 0 <= k < |states| ==> !IsCandidate(query, capturePool.list, states[k], false)
      ensures finished.items != [] ==> HasNext(capturePool.list, finished.items[0])
      ensures forall k :: 0 <= k < |finished.items| ==> !FinishedPrecedes(capturePool.list, finished.items[k], finished.items[0])
    {
      hide CursorOk, SameCaptures, IsEarliest, AllMoreConsumed, FinishedPrecedes, Heap, IsCandidate, AllPassedOver, AllCleaned;
      ghost var lists := capturePool.list;
      Heapify();
      found, index, byteOffset, patternIndex, isDefinite := FirstInProgressCapture(false);
      SameNumber(old(states), states);
      ghost var items := finished.items;
      CleanRoot();
      CleanedPermuted(query, lists, old(finished.items), items, finished.items);
      EarliestStays(query, lists, capturePool.list, states, found, index);
      if found {
        EarliestInside(query, capturePool.list, states, index);
      }
      if |finished.items| > 0 {
        RootFirst();
      }
    }

    /** Return the next capture of the finished state at the root of the heap, which comes first. */
    method ReturnRoot(ghost lists: Lists, ghost found: bool, ghost index: nat) returns (returned: Returned)
      requires Valid() && finished.items != [] && finished.heapSize == |finished.items|
      requires SameCaptures(lists, capturePool.list, states) && SameCaptures(lists, capturePool.list, finished.items)
      requires HasNext(capturePool.list, finished.items[0])
      requires forall k :: 0 <= k < |finished.items| ==> !FinishedPrecedes(capturePool.list, finished.items[k], finished.items[0])
      requires found ==> IsEarliest(query, capturePool.list, states, |states|, false, index)
      requires found ==> EarlierCapture(Next(capturePool.list, finished.items[0]).startByte, finished.items[0].patternIndex,
                                        Next(capturePool.list, states[index]).startByte, states[index].patternIndex)
      requires !found ==> forall k :: 0 <= k < |states| ==> !IsCandidate(query, capturePool.list, states[k], false)
      modifies this`nextStateId, finished`items
      ensures Valid()
      ensures IsFirstCapture(query, lists, states, old(finished.items), old(finished.items)[0], returned)
      ensures SameCaptures(lists, capturePool.list, finished.items) && multiset(finished.items) != multiset(old(finished.items))
      ensures var root := old(finished.items)[0];
              multiset(finished.items)
              == multiset(old(finished.items)) - multiset{root} + multiset{Consumed(root, returned.id)}
      ensures IsReturnedFirst(query, capturePool.list, states, finished.items,
                              Consumed(old(finished.items)[0], returned.id), returned)
    {
      hide CursorOk, SameCaptures, IsEarliest, FinishedPrecedes, Heap, IsFirstCapture, IsCandidate, IsReturnedFirst;
      ghost var done := finished.items;
      var root := finished.items[0];
      returned := ReturnNext(root);
      FinishedIsFirst(query, capturePool.list, states, done, found, index, returned);
      FirstBefore(query, lists, capturePool.list, states, done, root, returned);
      SinkRoot(Consumed(root, returned.id));
      RootConsumed(query, lists, capturePool.list, states, done, finished.items, returned);
    }

    /** Return the next capture of a state in progress, which comes first. */
    method ReturnDefinite(ghost lists: Lists, index: nat) returns (returned: Returned)
      requires Valid() && index < |states|
      requires SameCaptures(lists, capturePool.list, states) && SameCaptures(lists, capturePool.list, finished.items)
      requires IsEarliest(query, capturePool.list, states, |states|, false, index) && HasNext(capturePool.list, states[index])
      requires finished.items != [] ==> HasNext(capturePool.list, finished.items[0])
      requires forall k :: 0 <= k < |finished.items| ==> !FinishedPrecedes(capturePool.list, finished.items[k], finished.items[0])
      requires finished.items != [] ==>
                 !EarlierCapture(Next(capturePool.list, finished.items[0]).startByte, finished.items[0].patternIndex,
                                 Next(capturePool.list, states[index]).startByte, states[index].patternIndex)
      modifies this`nextStateId, this`states
      ensures Valid() && states == old(states)[index := Consumed(old(states)[index], returned.id)]
      ensures IsFirstCapture(query, lists, old(states), finished.items, old(states)[index], returned)
      ensures SameCaptures(lists, capturePool.list, states)
      ensures IsReturnedFirst(query, capturePool.list, states, finished.items,
                              Consumed(old(states)[index], returned.id), returned)
    {
      hide CursorOk, SameCaptures, IsEarliest, FinishedPrecedes, Heap, IsFirstCapture, IsCandidate, IsReturnedFirst;
      ghost var inProgress := states;
      var state := states[index];
      returned := ReturnNext(state);
      DefiniteIsFirst(query, capturePool.list, inProgress, finished.items, index, returned);
      FirstBefore(query, lists, capturePool.list, inProgress, finished.items, state, returned);
      ListsOk(multiset{});
      SetState(index, Consumed(state, returned.id));
      StateConsumed(query, lists, capturePool.list, inProgress, finished.items, index, returned);
    }

    /**
     * Return the next capture if it is certain that none will come before it: `s` is the state it
     * belongs to, in progress or among the finished ones, `done`, that have been cleaned.
     */
    method PickCapture() returns (result: Option<Returned>, found: bool, index: nat, ghost s: QueryState,
                                  ghost done: seq<QueryState>)
      requires Valid()
      modifies this`states, this`nextStateId, capturePool, finished
      ensures Valid() && capturePool.highest == old(capturePool.highest)
      ensures SameCaptures(old(capturePool.list), capturePool.list, states)
      ensures SameCaptures(old(capturePool.list), capturePool.list, finished.items)
      ensures AllCleaned(query, old(capturePool.list), old(finished.items), done)
      ensures var inProgress := AllPassedOver(query, old(capturePool.list), old(states));
              match result
              case None => states == inProgress && multiset(finished.items) == multiset(done)
              case Some(returned) =>
                && IsFirstCapture(query, old(capturePool.list), inProgress, done, s, returned)
                && if multiset(finished.items) == multiset(done) then
                     index < |inProgress| && inProgress[index] == s && IsDefinite(query, s)
                   && states == inProgress[index := Consumed(s, returned.id)]
                   else
                     s in done && states == inProgress
                     && multiset(finished.items) == multiset(done) - multiset{s} + multiset{Consumed(s, returned.id)}
      ensures result.Some? ==> IsReturnedFirst(query, capturePool.list, states, finished.items,
                                               Consumed(s, result.value.id), result.value)
      ensures result.Some? ==> InOrderAfter(query, old(capturePool.list), old(states), old(finished.items), result.value)
      ensures result.None? && found ==> index < |states|
      ensures result.None? && finished.items != [] ==> found
    {
      hide CursorOk, SameCaptures, IsEarliest, AllMoreConsumed, FinishedPrecedes, Heap, IsFirstCapture, IsCandidate,
           AllPassedOver, AllCleaned, IsReturnedFirst, InOrderAfter;
      DeadHaveNone();
      ghost var lists := capturePool.list;
      var byteOffset, patternIndex, isDefinite;
      found, index, byteOffset, patternIndex, isDefinite := LookAhead();
      ghost var inProgress := states;
      done := finished.items;
      s := NewState(0, 0, 0, false);
      if |finished.items| > 0 {
        var root := finished.items[0];
        var c := Next(capturePool.list, root);
        if !found || EarlierCapture(c.startByte, root.patternIndex, byteOffset, patternIndex) {
          s := root;
          var returned := ReturnRoot(lists, found, index);
          FirstIsInOrder(query, lists, old(states), old(finished.items), done, s, returned);
          return Some(returned), found, index, s, done;
        }
      }
      if found {
        if isDefinite {
          s := states[index];
          var returned := ReturnDefinite(lists, index);
          FirstIsInOrder(query, lists, old(states), old(finished.items), done, s, returned);
          return Some(returned), found, index, s, done;
        }
      }
      result := None;
    }

    /**
     * The next capture: the first by position and pattern among the next captures of the matches in
     * progress and of the finished ones. `scripts` says how matching goes on if it has to, and `t` is
     * the state that the capture was returned from, as it is left.
     */
    method NextCapture(scripts: seq<seq<Step>>) returns (result: Option<Returned>, ghost t: QueryState, ghost advanced: bool)
      requires Valid()
      modifies this, capturePool, finished
      ensures Valid() && capturePool.highest == old(capturePool.highest)
      ensures result.None? ==> finished.items == []
      ensures result.Some? ==> IsReturnedFirst(query, capturePool.list, states, finished.items, t, result.value)
      ensures result.Some? && !advanced ==>
                InOrderAfter(query, old(capturePool.list), old(states), old(finished.items), result.value)
    {
      hide CursorOk, SameCaptures, Progressed, IsFirstCapture, IsReturnedFirst, AllCleaned, AllPassedOver, InOrderAfter;
      var k := 0;
      advanced := false;
      var over := false;
      while true
        invariant Valid() && capturePool.highest == old(capturePool.highest) && k <= |scripts|
        invariant over ==> states == [] && k == |scripts|
        invariant !advanced ==> capturePool.list == old(capturePool.list) && states == old(states)
                                && finished.items == old(finished.items)
        decreases |scripts| - k, !over
      {
        var found, index;
        ghost var s, done;
        result, found, index, s, done := PickCapture();
        if result.Some? {
          t := Consumed(s, result.value.id);
          return;
        }
        if capturePool.IsEmpty() && found {
          DropState(index);
        }
        advanced := true;
        var didMatch;
        if k < |scripts| {
          didMatch := Advance(scripts[k], true);
          k := k + 1;
        } else {
          didMatch := Advance([], true);
          over := true;
        }
        if !didMatch && |finished.items| == 0 {
          t := NewState(0, 0, 0, false);
          return;
        }
      }
    }

    ghost method DeadHaveNone()
      requires Valid()
      ensures forall s :: s in states && s.dead ==> !HasNext(capturePool.list, s)
    {
      hide Owned, Heap;
    }

    ghost method RootFirst()
      requires Valid() && finished.items != [] && finished.heapSize == |finished.items|
      ensures forall k :: 0 <= k < |finished.items| ==> !FinishedPrecedes(capturePool.list, finished.items[k], finished.items[0])
    {
      hide CursorOk, Heap, FinishedPrecedes;
      HeapIsOk();
      FinishedOrderIsWeak(capturePool.list);
      forall k | 0 <= k < |finished.items| ensures !FinishedPrecedes(capturePool.list, finished.items[k], finished.items[0]) {
        RootIsFirst(finished.items, |finished.items|, FinishedOrder(capturePool.list), k);
      }
    }

    ghost method ListsOk(extra: multiset<nat>)
      requires OkBut(extra)
      ensures forall k :: 0 <= k < |states| ==> ListOk(states[k])
    {
    }
  }

  lemma CleanedPermuted(query: Query, lists: Lists, before: seq<QueryState>, items: seq<QueryState>, after: seq<QueryState>)
    requires multiset(items) == multiset(before) && AllCleaned(query, lists, items, after)
    ensures AllCleaned(query, lists, before, after)
  {
    hide CleanedTo, UsedUp;
    SameItems(before, items);
    SameItems(items, before);
    forall u | u in after ensures Stems(query, lists, before, u) {
      assert Stems(query, lists, items, u);
    }
  }

  /** What is first with some lists is first with others that hold the same captures for the states concerned. */
  lemma FirstBefore(query: Query, lists: Lists, lists': Lists, inProgress: seq<QueryState>, done: seq<QueryState>,
                    s: QueryState, result: Returned)
    requires SameCaptures(lists, lists', inProgress) && SameCaptures(lists, lists', done)
    requires IsFirstCapture(query, lists', inProgress, done, s, result)
    ensures IsFirstCapture(query, lists, inProgress, done, s, result)
  {
  }

  lemma RootConsumed(query: Query, lists: Lists, lists': Lists, inProgress: seq<QueryState>, done: seq<QueryState>,
                     items: seq<QueryState>, result: Returned)
    requires done != [] && SameCaptures(lists, lists', inProgress) && SameCaptures(lists, lists', done)
    requires IsFirstCapture(query, lists, inProgress, done, done[0], result)
    requires multiset(items) == multiset(done[0 := Consumed(done[0], result.id)])
    ensures SameCaptures(lists, lists', items) && multiset(items) != multiset(done)
    ensures multiset(items) == multiset(done) - multiset{done[0]} + multiset{Consumed(done[0], result.id)}
    ensures IsReturnedFirst(query, lists', inProgress, items, Consumed(done[0], result.id), result)
  {
    RootReplaced(done, items, Consumed(done[0], result.id));
  }

  lemma RootReplaced<T>(done: seq<T>, items: seq<T>, t: T)
    requires done != [] && t != done[0] && multiset(items) == multiset(done[0 := t])
    ensures multiset(items) != multiset(done) && multiset(items) == multiset(done) - multiset{done[0]} + multiset{t}
    ensures t in items && forall u :: u in items ==> u == t || u in done
  {
    var s := done[0];
    assert done == [s] + done[1..] && done[0 := t] == [t] + done[1..];
    assert multiset(items)[t] == multiset(done[1..])[t] + 1 && multiset(done)[t] == multiset(done[1..])[t];
    forall u | u in items ensures u == t || u in done {
      assert u in multiset(items) && u in done[0 := t];
    }
    assert t in multiset(items);
  }

  lemma StateConsumed(query: Query, lists: Lists, lists': Lists, inProgress: seq<QueryState>, done: seq<QueryState>,
                      index: nat, result: Returned)
    requires index < |inProgress| && SameCaptures(lists, lists', inProgress) && SameCaptures(lists, lists', done)
    requires IsFirstCapture(query, lists, inProgress, done, inProgress[index], result)
    ensures var t := Consumed(inProgress[index], result.id);
            && SameCaptures(lists, lists', inProgress[index := t])
            && IsReturnedFirst(query, lists', inProgress[index := t], done, t, result)
  {
    var t := Consumed(inProgress[index], result.id);
    var states := inProgress[index := t];
    assert states[index] == t && inProgress[index] in inProgress;
    forall u | u in states ensures u == t || u in inProgress {
    }
  }

  /** A state that keeps its list and its captures; some of them may have been consumed. */
  ghost predicate Spared(lists: Lists, s: QueryState, lists': Lists, t: QueryState) {
    MoreConsumed(s, t) && Captures(lists', t) == Captures(lists, s)
  }

  /** A state that has died because its list was taken. */
  ghost predicate Robbed(s: QueryState, t: QueryState) {
    && t == s.(consumedCaptureCount := t.consumedCaptureCount, captureListId := CAPTURE_LIST_NONE, dead := true)
    && s.captureListId != CAPTURE_LIST_NONE && !s.dead
  }

  /** All states but the one at `i` have the captures they had, or have died because their list was taken. */
  ghost predicate OthersAlone(lists: Lists, before: seq<QueryState>, lists': Lists, after: seq<QueryState>, i: nat) {
    && |before| == |after|
    && forall k :: 0 <= k < |before| && k != i ==> LeftAlone(lists, before[k], lists', after[k])
  }

  ghost predicate LeftAlone(lists: Lists, s: QueryState, lists': Lists, t: QueryState) {
    Spared(lists, s, lists', t) || Robbed(s, t)
  }

  lemma AloneThrough(lists: Lists, s0: seq<QueryState>, lists1: Lists, s1: seq<QueryState>, lists2: Lists, s2: seq<QueryState>, i: nat)
    requires OthersAlone(lists, s0, lists1, s1, i) && OthersAlone(lists1, s1, lists2, s2, i)
    ensures OthersAlone(lists, s0, lists2, s2, i)
  {
    forall k | 0 <= k < |s0| && k != i ensures LeftAlone(lists, s0[k], lists2, s2[k]) {
      assert LeftAlone(lists, s0[k], lists1, s1[k]) && LeftAlone(lists1, s1[k], lists2, s2[k]);
    }
  }

  /** The state at `i` may be replaced, and lists that the others do not have may change. */
  lemma AloneWith(lists: Lists, s0: seq<QueryState>, lists1: Lists, s1: seq<QueryState>, lists2: Lists, i: nat, s: QueryState, t: QueryState)
    requires OthersAlone(lists, s0, lists1, s1, i) && i < |s1| && SameCaptures(lists1, lists2, s1[i := s])
    ensures OthersAlone(lists, s0, lists2, s1[i := t], i)
  {
    forall k | 0 <= k < |s0| && k != i ensures LeftAlone(lists, s0[k], lists2, s1[i := t][k]) {
      assert s1[i := s][k] in s1[i := s] && s1[i := s][k] == s1[k];
      assert LeftAlone(lists, s0[k], lists1, s1[k]);
    }
  }

  lemma PreparedAlone(lists: Lists, before: seq<QueryState>, lists': Lists, after: seq<QueryState>, i: nat)
    requires |before| == |after|
    requires forall k :: 0 <= k < |after| ==> Spared(lists, before[k], lists', after[k]) || Robbed(before[k], after[k])
    ensures OthersAlone(lists, before, lists', after, i)
  {
  }

  lemma AloneAtFirst(lists: Lists, states: seq<QueryState>, i: nat)
    ensures OthersAlone(lists, states, lists, states, i)
  {
    AllSpared(lists, states);
  }

  lemma AllSpared(lists: Lists, states: seq<QueryState>)
    ensures forall k :: 0 <= k < |states| ==> Spared(lists, states[k], lists, states[k])
  {
  }

  lemma SameCapturesItself(lists: Lists, states: seq<QueryState>)
    ensures SameCaptures(lists, lists, states)
  {
  }

  lemma SameCapturesThrough(a: Lists, b: Lists, c: Lists, states: seq<QueryState>)
    requires SameCaptures(a, b, states) && SameCaptures(b, c, states)
    ensures SameCaptures(a, c, states)
  {
    forall s | s in states ensures Captures(c, s) == Captures(a, s) {
      assert Captures(b, s) == Captures(a, s);
    }
  }

  lemma SameCapturesAt(lists: Lists, lists': Lists, states: seq<QueryState>, i: nat)
    requires SameCaptures(lists, lists', states) && i < |states|
    ensures Captures(lists', states[i]) == Captures(lists, states[i])
  {
  }

  lemma SparedBySame(lists: Lists, lists': Lists, states: seq<QueryState>)
    requires SameCaptures(lists, lists', states)
    ensures forall k :: 0 <= k < |states| ==> Spared(lists, states[k], lists', states[k])
  {
    forall k | 0 <= k < |states| ensures Spared(lists, states[k], lists', states[k]) {
      assert states[k] in states;
    }
  }

  lemma ConsumedSpared(lists: Lists, before: seq<QueryState>, after: seq<QueryState>)
    requires AllMoreConsumed(before, after)
    ensures |before| == |after| && forall k :: 0 <= k < |after| ==> Spared(lists, before[k], lists, after[k])
  {
    forall k | 0 <= k < |after| ensures Spared(lists, before[k], lists, after[k]) {
      assert MoreConsumed(before[k], after[k]);
    }
  }

  lemma SparedHasList(lists: Lists, s: QueryState, lists': Lists, t: QueryState)
    ensures Spared(lists, s, lists', t) ==>
              && t.captureListId == s.captureListId && Captures(lists', t) == Captures(lists, s)
              && t.needsParent == s.needsParent && t.dead == s.dead && MoreConsumed(s, t)
    ensures Robbed(s, t) ==> s.captureListId != CAPTURE_LIST_NONE
  {
  }

  lemma EarliestIsOwner(query: Query, lists: Lists, states: seq<QueryState>, index: nat, skipGuaranteed: bool)
    requires IsEarliest(query, lists, states, |states|, skipGuaranteed, index) && |lists| <= CAPTURE_LIST_NONE
    ensures index < |states| && states[index].captureListId != CAPTURE_LIST_NONE && !states[index].dead
  {
  }

  /** After the theft only the victim has changed. */
  lemma RobbedOne(lists: Lists, before: seq<QueryState>, middle: seq<QueryState>, after: seq<QueryState>, index: nat,
                  lists': Lists, id: nat)
    requires |before| == |middle| && forall k :: 0 <= k < |middle| ==> Spared(lists, before[k], lists, middle[k])
    requires index < |middle| && id == middle[index].captureListId && id != CAPTURE_LIST_NONE && !middle[index].dead
    requires after == middle[index := middle[index].(captureListId := CAPTURE_LIST_NONE, dead := true)]
    requires SameCaptures(lists, lists', after)
    ensures forall k :: 0 <= k < |after| && k != index ==> Spared(lists, before[k], lists', after[k])
    ensures Robbed(before[index], after[index]) && before[index].captureListId == id
  {
    forall k | 0 <= k < |after| && k != index ensures Spared(lists, before[k], lists', after[k]) {
      assert after[k] in after && after[k] == middle[k];
    }
  }

  /** A live list id is that of a list in use. */
  lemma OwnList(lists: Lists, states: seq<QueryState>, items: seq<QueryState>, heapSize: nat, next: nat, i: nat)
    requires CursorOk(lists, states, items, heapSize, next, multiset{}) && i < |states|
    requires states[i].captureListId != CAPTURE_LIST_NONE
    ensures states[i].captureListId < |lists| && lists[states[i].captureListId].Used?
  {
    hide Heap, Numbered, ByNumber, Gather;
    assert ListIds(states) + ListIds(items) + multiset{} == ListIds(states) + ListIds(items);
    OwnerOf(lists, states, i, ListIds(items));
  }

  // ----- finished states -------------------------------------------------------------------------

  lemma MoreFinished(lists: Lists, lists': Lists, items: seq<QueryState>, done: seq<QueryState>)
    requires SameCaptures(lists, lists', items + done)
    ensures Progressed(lists, items, lists', items + done)
  {
  }

  lemma NumberedThrough(xs: seq<QueryState>, ys: seq<QueryState>, zs: seq<QueryState>, number: nat, number': nat)
    requires |xs| <= |ys| <= |zs| && zs[..|ys|] == ys && number <= number'
    requires NumberedFrom(ys, |xs|, number) && NumberedFrom(zs, |ys|, number')
    ensures NumberedFrom(zs, |xs|, number)
  {
    forall k | |xs| <= k < |zs| ensures zs[k].heapInsertOrder >= number {
      if k < |ys| {
        assert zs[k] == zs[..|ys|][k] == ys[k];
      }
    }
  }

  lemma ProgressedNot(lists: Lists, items: seq<QueryState>)
    ensures Progressed(lists, items, lists, items)
  {
  }

  lemma ProgressedThrough(a: Lists, xs: seq<QueryState>, b: Lists, ys: seq<QueryState>, c: Lists, zs: seq<QueryState>)
    requires Progressed(a, xs, b, ys) && Progressed(b, ys, c, zs)
    ensures Progressed(a, xs, c, zs) && |ys| <= |zs|
  {
    assert zs[..|xs|] == zs[..|ys|][..|xs|] == xs;
    forall s | s in xs ensures Captures(c, s) == Captures(a, s) {
      assert s in ys by {
        var i :| 0 <= i < |xs| && xs[i] == s;
        assert ys[..|xs|][i] == ys[i];
      }
      assert Captures(b, s) == Captures(a, s);
    }
  }

  lemma SameItems(before: seq<QueryState>, after: seq<QueryState>)
    requires multiset(after) == multiset(before)
    ensures forall s :: s in after ==> s in before
  {
    forall s | s in after ensures s in before {
      assert s in multiset(before);
    }
  }

  lemma AmongReturned(items: seq<QueryState>, rest: seq<QueryState>, s: QueryState, lists: Lists, result: Returned)
    requires IsReturned(s, multiset(items), multiset(rest), lists, result)
    ensures multiset(rest) + multiset{s} == multiset(items)
  {
  }

  lemma RestNumbered(items: seq<QueryState>, rest: seq<QueryState>, s: QueryState, number: nat)
    requires multiset(rest) + multiset{s} == multiset(items)
    ensures NumberedFrom(items, 0, number) ==> s.heapInsertOrder >= number && NumberedFrom(rest, 0, number)
  {
    assert s in multiset(items) && s in items;
    forall k | 0 <= k < |rest| && NumberedFrom(items, 0, number) ensures rest[k].heapInsertOrder >= number {
      assert rest[k] in multiset(rest) && rest[k] in multiset(items) && rest[k] in items;
    }
  }

  lemma FirstReturned(items: seq<QueryState>, index: nat, rest: multiset<QueryState>, lists: Lists, result: Returned)
    requires index < |items| && rest + multiset{items[index]} == multiset(items)
    requires forall k :: 0 <= k < |items| ==> items[index].heapInsertOrder <= items[k].heapInsertOrder
    requires result.captures == Captures(lists, items[index]) && result.patternIndex == items[index].patternIndex
    requires items[index].id != UNSET ==> result.id == items[index].id
    ensures IsReturned(items[index], multiset(items), rest, lists, result)
  {
    forall t | t in multiset(items) ensures items[index].heapInsertOrder <= t.heapInsertOrder {
      assert t in items;
    }
  }

  lemma NotAmong(items: seq<QueryState>, items': seq<QueryState>, matchId: nat)
    requires multiset(items) == multiset(items') && forall k :: 0 <= k < |items'| ==> items'[k].id != matchId
    ensures forall s :: s in items ==> s.id != matchId
  {
    forall s | s in items ensures s.id != matchId {
      assert s in multiset(items') && s in items';
    }
  }

  lemma AllPlaced(items: seq<QueryState>, items': seq<QueryState>)
    requires |items'| == |items|
    ensures |items'| == 0 ==> ByNumber(items')
  {
  }

  lemma NoneByNumber(items: seq<QueryState>)
    ensures |items| == 0 ==> ByNumber(items)
  {
  }

  lemma NoHeap(items: seq<QueryState>, precedes: (QueryState, QueryState) -> bool)
    ensures Heap(items, 0, precedes)
  {
  }

  lemma ErasedByNumber(items: seq<QueryState>, i: nat)
    requires i < |items| && ByNumber(items)
    ensures ByNumber(Erase(items, i))
  {
  }

  lemma FinishedOwner(lists: Lists, states: seq<QueryState>, items: seq<QueryState>, heapSize: nat, next: nat, i: nat)
    requires CursorOk(lists, states, items, heapSize, next, multiset{}) && i < |items|
    ensures |lists| <= CAPTURE_LIST_NONE
    ensures items[i].captureListId < |lists| ==> lists[items[i].captureListId].Used?
    ensures forall j :: 0 <= j < |items| && j != i && items[j].captureListId == items[i].captureListId ==>
              items[i].captureListId == CAPTURE_LIST_NONE
  {
    hide Heap, Numbered, ByNumber, Gather, ListIds;
    assert ListIds(states) + ListIds(items) + multiset{} == ListIds(items) + ListIds(states);
    OwnerOf(lists, items, i, ListIds(states));
  }

  /** Releasing the list of one finished state does not change how the others compare. */
  lemma RemovedKey(lists: Lists, lists': Lists, states: seq<QueryState>, items: seq<QueryState>, heapSize: nat, next: nat, hole: nat)
    requires CursorOk(lists, states, items, heapSize, next, multiset{}) && hole < |items|
    requires var id := items[hole].captureListId; lists' == if id < |lists| then lists[id := Free] else lists
    ensures forall i, j :: 0 <= i < |items| && 0 <= j < |items| && i != hole && j != hole ==>
              FinishedPrecedes(lists', items[i], items[j]) == FinishedPrecedes(lists, items[i], items[j])
  {
    hide CursorOk, FinishedPrecedes;
    FinishedOwner(lists, states, items, heapSize, next, hole);
    forall i, j | 0 <= i < |items| && 0 <= j < |items| && i != hole && j != hole
      ensures FinishedPrecedes(lists', items[i], items[j]) == FinishedPrecedes(lists, items[i], items[j])
    {
      FinishedOwner(lists, states, items, heapSize, next, i);
      FinishedOwner(lists, states, items, heapSize, next, j);
      SameFinishedOrder(lists, lists', items, i, j);
    }
  }

  /** The list work left in a finished state: its captures, and its removal. */
  function WorkOf(lists: Lists): QueryState -> multiset<nat> {
    s => multiset{}[0 := 1 + if HasNext(lists, s) then |Captures(lists, s)| - s.consumedCaptureCount else 0]
  }

  lemma LessWork(lists: Lists, items: seq<QueryState>, lists': Lists, items': seq<QueryState>)
    requires items != [] && multiset(items') + multiset{items[0]} == multiset(items) && SameCaptures(lists, lists', items')
    ensures Gather(items', WorkOf(lists'))[0] < Gather(items, WorkOf(lists))[0]
  {
    hide Gather;
    forall i | 0 <= i < |items'| ensures WorkOf(lists')(items'[i]) == WorkOf(lists)(items'[i]) {
      assert Captures(lists', items'[i]) == Captures(lists, items'[i]);
    }
    GatherSame(items', items', WorkOf(lists'), WorkOf(lists));
    assert multiset(items' + [items[0]]) == multiset(items);
    GatherPermuted(items' + [items[0]], items, WorkOf(lists));
    GatherAppend(items', items[0], WorkOf(lists));
  }

  lemma LessToConsume(lists: Lists, items: seq<QueryState>, t: QueryState, items': seq<QueryState>)
    requires items != [] && HasNext(lists, items[0]) && multiset(items') == multiset(items[0 := t])
    requires t == items[0].(consumedCaptureCount := items[0].consumedCaptureCount + 1)
    ensures Gather(items', WorkOf(lists))[0] < Gather(items, WorkOf(lists))[0]
  {
    hide Gather;
    GatherPermuted(items', items[0 := t], WorkOf(lists));
    GatherUpdate(items, 0, t, WorkOf(lists));
    var f := WorkOf(lists);
    assert (Gather(items[0 := t], f) + f(items[0]))[0] == (Gather(items, f) + f(t))[0];
  }

  lemma CleanedItself(query: Query, lists: Lists, items: seq<QueryState>)
    ensures AllCleaned(query, lists, items, items)
  {
    forall t | t in items ensures Kept(query, lists, t, items) && Stems(query, lists, items, t) {
      assert CleanedTo(query, lists, t, t);
    }
  }

  /** The root had no capture left, and is gone. */
  lemma CleanedWithout(query: Query, lists0: Lists, items0: seq<QueryState>, items: seq<QueryState>, rest: seq<QueryState>,
                       lists: Lists, lists': Lists)
    requires AllCleaned(query, lists0, items0, items) && SameCaptures(lists0, lists, items) && SameCaptures(lists, lists', rest)
    requires items != [] && multiset(rest) + multiset{items[0]} == multiset(items) && !HasNext(lists, items[0])
    ensures AllCleaned(query, lists0, items0, rest) && SameCaptures(lists0, lists', rest)
  {
    forall u | u in rest ensures u in items {
      assert u in multiset(rest) && u in multiset(items);
    }
    forall t | t in items0 && !UsedUp(query, lists0, t) ensures Kept(query, lists0, t, rest) {
      var u :| u in items && CleanedTo(query, lists0, t, u);
      NothingLeftIn(query, lists0, t, u, lists);
      assert u in multiset(items);
    }
  }

  lemma NothingLeftIn(query: Query, lists0: Lists, t: QueryState, u: QueryState, lists: Lists)
    requires CleanedTo(query, lists0, t, u) && Captures(lists, u) == Captures(lists0, u)
    ensures !HasNext(lists, u) ==> UsedUp(query, lists0, t)
  {
  }

  /** The root has passed over a capture outside of the range. */
  lemma CleanedFurther(query: Query, lists0: Lists, items0: seq<QueryState>, items: seq<QueryState>, after: seq<QueryState>,
                       u: QueryState, lists: Lists)
    requires AllCleaned(query, lists0, items0, items) && SameCaptures(lists0, lists, items)
    requires items != [] && multiset(after) == multiset(items[0 := u]) && HasNext(lists, items[0])
    requires u == items[0].(consumedCaptureCount := items[0].consumedCaptureCount + 1)
    requires IsOutside(query, Next(lists, items[0]))
    ensures AllCleaned(query, lists0, items0, after) && SameCaptures(lists0, lists, after)
  {
    var root := items[0];
    assert Captures(lists, root) == Captures(lists0, root) && root in items;
    forall v | v in after ensures v == u || v in items {
      assert v in multiset(items[0 := u]) && v in items[0 := u];
    }
    forall v | v in items && v != root ensures v in after {
      var k :| 0 <= k < |items| && items[k] == v;
      assert items[0 := u][k] == v && v in multiset(after);
    }
    assert u in after by {
      assert items[0 := u][0] == u && u in multiset(after);
    }
    forall t | t in items0 && CleanedTo(query, lists0, t, root) ensures CleanedTo(query, lists0, t, u) {
    }
    forall t | t in items0 && !UsedUp(query, lists0, t) ensures Kept(query, lists0, t, after) {
      var v :| v in items && CleanedTo(query, lists0, t, v);
      assert CleanedTo(query, lists0, t, if v == root then u else v);
    }
    forall v | v in after ensures Stems(query, lists0, items0, v) {
      assert Stems(query, lists0, items0, if v in items then v else root);
    }
  }

  /** A finished state keeps its list and its number when one of its captures is consumed. */
  lemma RootKeeps(lists: Lists, states: seq<QueryState>, items: seq<QueryState>, heapSize: nat, next: nat, t: QueryState,
                  items': seq<QueryState>)
    requires CursorOk(lists, states, items, heapSize, next, multiset{}) && items != []
    requires t.captureListId == items[0].captureListId && t.heapInsertOrder == items[0].heapInsertOrder
    requires multiset(items') == multiset(items[0 := t]) && |items'| == |items| == heapSize
    requires Heap(items', heapSize, FinishedOrder(lists))
    ensures CursorOk(lists, states, items', heapSize, next, multiset{})
  {
    hide Heap, Gather, ByNumber, ListOk, Owned, Numbered;
    GatherPermuted(items', items[0 := t], ListIdOf);
    GatherUpdate(items, 0, t, ListIdOf);
    CancelRight(ListIds(items[0 := t]), ListIds(items), ListIdOf(t));
    RootNumbered(items, t, next);
  }

  lemma RootNumbered(items: seq<QueryState>, t: QueryState, next: nat)
    requires items != [] && Numbered(multiset(items), next) && t.heapInsertOrder == items[0].heapInsertOrder
    ensures Numbered(multiset(items[0 := t]), next)
  {
    var rest := multiset(items[1..]);
    assert items == [items[0]] + items[1..] && items[0 := t] == [t] + items[1..];
    assert multiset(items) == rest + multiset{items[0]} && multiset(items[0 := t]) == rest + multiset{t};
    assert items[0] !in rest by {
      assert multiset(items)[items[0]] <= 1;
    }
    forall s | s in rest ensures s.heapInsertOrder != t.heapInsertOrder && s in multiset(items) {
      assert s != items[0] && s in multiset(items) && items[0] in multiset(items);
    }
    hide Numbered;
    NumberedWith(rest, multiset(items), t, next);
  }

  lemma NumberedWith(rest: multiset<QueryState>, items: multiset<QueryState>, t: QueryState, next: nat)
    requires Numbered(items, next) && rest <= items && t.heapInsertOrder < next
    requires forall s :: s in rest ==> s.heapInsertOrder != t.heapInsertOrder
    ensures Numbered(rest + multiset{t}, next)
  {
    var all := rest + multiset{t};
    assert t !in rest;
    forall s ensures all[s] <= 1 {
      assert s in rest ==> items[s] <= 1;
    }
    forall s, u | s in all && u in all && s.heapInsertOrder == u.heapInsertOrder ensures s == u {
      assert s == t || s in rest;
      assert u == t || u in rest;
    }
  }

  lemma EarliestStays(query: Query, lists: Lists, lists': Lists, states: seq<QueryState>, found: bool, index: nat)
    requires SameCaptures(lists, lists', states)
    ensures found && IsEarliest(query, lists, states, |states|, false, index) ==>
              && IsEarliest(query, lists', states, |states|, false, index)
              && HasNext(lists', states[index]) && HasNext(lists, states[index])
              && Next(lists', states[index]) == Next(lists, states[index])
    ensures (forall k :: 0 <= k < |states| ==> !IsCandidate(query, lists, states[k], false)) ==>
              forall k :: 0 <= k < |states| ==> !IsCandidate(query, lists', states[k], false)
  {
    forall k | 0 <= k < |states| ensures Captures(lists', states[k]) == Captures(lists, states[k]) {
      assert states[k] in states;
    }
  }

  lemma EarliestInside(query: Query, lists: Lists, states: seq<QueryState>, index: nat)
    requires IsEarliest(query, lists, states, |states|, false, index)
    ensures index < |states|
  {
  }

  lemma SameNumber(before: seq<QueryState>, after: seq<QueryState>)
    requires AllMoreConsumed(before, after)
    ensures |after| == |before|
  {
  }

  lemma FinishedIsFirst(query: Query, lists: Lists, inProgress: seq<QueryState>, done: seq<QueryState>, found: bool, index: nat,
                        result: Returned)
    requires done != [] && HasNext(lists, done[0])
    requires forall k :: 0 <= k < |done| ==> !FinishedPrecedes(lists, done[k], done[0])
    requires found ==> IsEarliest(query, lists, inProgress, |inProgress|, false, index)
    requires found ==> EarlierCapture(Next(lists, done[0]).startByte, done[0].patternIndex,
                                      Next(lists, inProgress[index]).startByte, inProgress[index].patternIndex)
    requires !found ==> forall k :: 0 <= k < |inProgress| ==> !IsCandidate(query, lists, inProgress[k], false)
    requires result.captures == Captures(lists, done[0]) && result.captureIndex == done[0].consumedCaptureCount
    requires result.patternIndex == done[0].patternIndex && (done[0].id != UNSET ==> result.id == done[0].id)
    ensures IsFirstCapture(query, lists, inProgress, done, done[0], result)
  {
    forall t | t in done && HasNext(lists, t) ensures !EarlierThan(lists, t, done[0]) {
      var k :| 0 <= k < |done| && done[k] == t;
      assert !FinishedPrecedes(lists, done[k], done[0]);
    }
    forall t | t in inProgress && IsCandidate(query, lists, t, false) ensures !EarlierThan(lists, t, done[0]) {
      var k :| 0 <= k < |inProgress| && inProgress[k] == t;
    }
  }

  lemma DefiniteIsFirst(query: Query, lists: Lists, inProgress: seq<QueryState>, done: seq<QueryState>, index: nat, result: Returned)
    requires IsEarliest(query, lists, inProgress, |inProgress|, false, index)
    requires done != [] ==> HasNext(lists, done[0])
    requires forall k :: 0 <= k < |done| ==> !FinishedPrecedes(lists, done[k], done[0])
    requires done != [] ==> !EarlierCapture(Next(lists, done[0]).startByte, done[0].patternIndex,
                                            Next(lists, inProgress[index]).startByte, inProgress[index].patternIndex)
    requires var s := inProgress[index];
             && result.captures == Captures(lists, s) && result.captureIndex == s.consumedCaptureCount
             && result.patternIndex == s.patternIndex && (s.id != UNSET ==> result.id == s.id)
    ensures IsFirstCapture(query, lists, inProgress, done, inProgress[index], result)
  {
    var s := inProgress[index];
    forall t | t in done && HasNext(lists, t) ensures !EarlierThan(lists, t, s) {
      var k :| 0 <= k < |done| && done[k] == t;
      assert !FinishedPrecedes(lists, done[k], done[0]);
    }
    forall t | t in inProgress && IsCandidate(query, lists, t, false) ensures !EarlierThan(lists, t, s) {
      var k :| 0 <= k < |inProgress| && inProgress[k] == t;
    }
  }

  // ----- what pruning keeps ----------------------------------------------------------------------

  /** Each of the states is covered by one that remains or has finished, or by one that was dead to begin with. */
  ghost predicate AllCovered(lists: Lists, s0: seq<QueryState>, states: seq<QueryState>, done: seq<QueryState>) {
    forall s :: s in s0 ==> CoveredBy(lists, s0, states, done, s)
  }

  ghost predicate CoveredBy(lists: Lists, s0: seq<QueryState>, states: seq<QueryState>, done: seq<QueryState>, s: QueryState) {
    exists t :: Lasting(s0, states, done, t) && Covers(lists, t, s)
  }

  ghost predicate Lasting(s0: seq<QueryState>, states: seq<QueryState>, done: seq<QueryState>, t: QueryState) {
    t in states || t in done || (t in s0 && t.dead)
  }

  /** When no state is dead, pruning loses nothing: what it drops is covered by what it keeps or finishes. */
  lemma PruningLosesNothing(lists: Lists, s0: seq<QueryState>, states: seq<QueryState>, done: seq<QueryState>, s: QueryState)
    requires AllCovered(lists, s0, states, done) && (forall t :: t in s0 ==> !t.dead) && s in s0
    ensures exists t :: (t in states || t in done) && Covers(lists, t, s)
  {
    assert CoveredBy(lists, s0, states, done, s);
    var t :| Lasting(s0, states, done, t) && Covers(lists, t, s);
    assert t in states || t in done;
  }

  /**
   * If no state is dead or marked, and none with its captures is elsewhere in the pattern or stricter,
   * then every state at its end finishes, or one that covers it does.
   */
  lemma DoneStatesFinish(query: Query, lists: Lists, s0: seq<QueryState>, states: seq<QueryState>, done: seq<QueryState>, s: QueryState)
    requires Pruned(query, lists, s0, states, done) && AllCovered(lists, s0, states, done)
    requires forall t :: t in s0 ==> !t.dead && !t.hasInProgressAlternatives && !HasAlternative(lists, s0, t)
    requires s in s0 && query.isDone(s.stepIndex)
    ensures exists t :: t in done && Covers(lists, t, s)
  {
    PruningLosesNothing(lists, s0, states, done, s);
    var t :| (t in states || t in done) && Covers(lists, t, s);
    if t !in done {
      var a :| 0 <= a < |states| && states[a] == t;
      assert MayStay(query, states[a]) && Justified(lists, s0, states[a]);
    }
  }

  lemma PrunedStay(query: Query, lists: Lists, s0: seq<QueryState>, states: seq<QueryState>, done: seq<QueryState>)
    requires Pruned(query, lists, s0, states, done)
    ensures forall i :: 0 <= i < |states| ==> MayStay(query, states[i])
  {
  }

  /** What pruning leaves of a state as it is. */
  function Core(s: QueryState): QueryState { s.(hasInProgressAlternatives := false, heapInsertOrder := 0) }

  /** Each of the states was there before, but for its number and the mark that alternatives exist. */
  ghost predicate AllFrom(s0: seq<QueryState>, states: seq<QueryState>) {
    forall t :: t in states ==> CameFrom(s0, t)
  }

  ghost predicate CameFrom(s0: seq<QueryState>, t: QueryState) { exists s :: s in s0 && Core(s) == Core(t) }

  ghost predicate PruneOk(lists0: Lists, s0: seq<QueryState>, lists: Lists, states: seq<QueryState>,
                          items: seq<QueryState>, done: seq<QueryState>)
  {
    && SameCaptures(lists0, lists, states) && SameCaptures(lists0, lists, items)
    && AllFrom(s0, states) && AllFrom(s0, done)
    && AllCovered(lists0, s0, states, done)
  }

  /** Two states of the pass have the captures they began with, and the comparison of those works both ways. */
  lemma PairIs(query: Query, lists0: Lists, s0: seq<QueryState>, lists: Lists, states: seq<QueryState>, items: seq<QueryState>,
               done: seq<QueryState>, j: nat, k: nat)
    requires PruneOk(lists0, s0, lists, states, items, done) && j < k < |states|
    requires exists m: nat :: Scanned(query, lists0, s0, states, done, j, m)
    ensures Captures(lists, states[j]) == Captures(lists0, states[j]) && Captures(lists, states[k]) == Captures(lists0, states[k])
    ensures Compared(Captures(lists, states[j]), Captures(lists, states[k]))
         == (SaysContains(lists0, states[j], states[k]), SaysContains(lists0, states[k], states[j]))
    ensures Unmarked(states[j]) in UnmarkedOf(s0) && Unmarked(states[k]) in UnmarkedOf(s0)
  {
    hide Settled, AllCovered, AllFrom, Compared, UnmarkedOf, Justified, Sorted, MayStay;
    assert states[j] in states && states[k] in states;
    ComparedSwaps(Captures(lists, states[j]), Captures(lists, states[k]));
  }

  lemma ScannedFrom(query: Query, lists0: Lists, s0: seq<QueryState>, states: seq<QueryState>, done: seq<QueryState>, j: nat, k: nat)
    requires Scanned(query, lists0, s0, states, done, j, k)
    ensures forall a :: 0 <= a < |states| ==> Unmarked(states[a]) in UnmarkedOf(s0)
  {
  }

  /** A mark makes no difference to what is contained in what. */
  lemma SameSays(lists: Lists, lists0: Lists, s: QueryState, t: QueryState, other: QueryState)
    requires SameBut(s, t)
    ensures SaysContains(lists0, t, other) == SaysContains(lists0, s, other)
    ensures SaysContains(lists0, other, t) == SaysContains(lists0, other, s)
    ensures StandsFor(other, t) == StandsFor(other, s) && Captures(lists, t) == Captures(lists, s)
  {
    hide Compared, Captures;
    SameBooks(lists0, s, t);
    SameBooks(lists, s, t);
  }

  /** Both have stayed, and been marked where the other has their captures. */
  lemma PairSettled(lists: Lists, a: QueryState, b: QueryState, a': QueryState, b': QueryState)
    requires SameBut(a, a') && SameBut(b, b')
    requires SaysContains(lists, a, b) ==> !StandsFor(a, b) && b'.hasInProgressAlternatives
    requires SaysContains(lists, b, a) ==> !StandsFor(b, a) && a'.hasInProgressAlternatives
    ensures Settled(lists, a', b')
  {
    hide Compared, Captures;
    SameBooks(lists, a, a');
    SameBooks(lists, b, b');
  }

  lemma PruneStarts(lists: Lists, states: seq<QueryState>, items: seq<QueryState>)
    ensures PruneOk(lists, states, lists, states, items, [])
  {
    hide Contains, Covers;
    forall s | s in states ensures CoveredBy(lists, states, states, [], s) {
      CoversItself(lists, s);
      assert Lasting(states, states, [], s);
    }
    forall s | s in states ensures CameFrom(states, s) {
      assert Core(s) == Core(s);
    }
    SameCapturesItself(lists, states);
    SameCapturesItself(lists, items);
  }

  lemma PruneEnds(lists0: Lists, s0: seq<QueryState>, lists: Lists, states: seq<QueryState>, items: seq<QueryState>,
                  done: seq<QueryState>)
    requires PruneOk(lists0, s0, lists, states, items, done)
    ensures AllCovered(lists0, s0, states, done)
    ensures AllFrom(s0, states) && AllFrom(s0, done)
    ensures SameCaptures(lists0, lists, states) && SameCaptures(lists0, lists, items)
  {
  }

  /** A dead state can only come from a dead one. */
  lemma PruneDead(lists0: Lists, s0: seq<QueryState>, lists: Lists, states: seq<QueryState>, items: seq<QueryState>,
                  done: seq<QueryState>, j: nat)
    requires PruneOk(lists0, s0, lists, states, items, done) && j < |states| && states[j].dead
    ensures PruneOk(lists0, s0, lists, Erase(states, j), items, done)
  {
    hide Erase, Contains;
    ErasedMembers(states, j);
    var x := states[j];
    assert x in states && CameFrom(s0, x);
    var o :| o in s0 && Core(o) == Core(x);
    assert Core(o).dead == o.dead && Core(x).dead == x.dead;
    forall s | s in s0 ensures CoveredBy(lists0, s0, Erase(states, j), done, s) {
      assert CoveredBy(lists0, s0, states, done, s);
      var y :| Lasting(s0, states, done, y) && Covers(lists0, y, s);
      if y == x {
        SameCoreCovers(lists0, x, o, s);
        assert Lasting(s0, Erase(states, j), done, o);
      } else {
        assert Lasting(s0, Erase(states, j), done, y);
      }
    }
  }

  lemma SameCoreCovers(lists: Lists, x: QueryState, y: QueryState, s: QueryState)
    requires Core(x) == Core(y)
    ensures Captures(lists, x) == Captures(lists, y) && (Covers(lists, x, s) <==> Covers(lists, y, s))
  {
    assert x.captureListId == Core(x).captureListId && y.captureListId == Core(y).captureListId;
    assert x.startDepth == Core(x).startDepth && y.startDepth == Core(y).startDepth;
    assert x.patternIndex == Core(x).patternIndex && y.patternIndex == Core(y).patternIndex;
    assert x.stepIndex == Core(x).stepIndex && y.stepIndex == Core(y).stepIndex;
    assert x.seekingImmediateMatch == Core(x).seekingImmediateMatch && y.seekingImmediateMatch == Core(y).seekingImmediateMatch;
  }

  /** A finished state still covers what it covered. */
  lemma PruneFinished(lists0: Lists, s0: seq<QueryState>, lists: Lists, states: seq<QueryState>, items: seq<QueryState>,
                      done: seq<QueryState>, j: nat, t: QueryState)
    requires PruneOk(lists0, s0, lists, states, items, done) && j < |states|
    requires t == states[j].(heapInsertOrder := t.heapInsertOrder)
    ensures PruneOk(lists0, s0, lists, Erase(states, j), items + [t], done + [t])
  {
    hide Erase, Contains;
    ErasedMembers(states, j);
    var x := states[j];
    assert x in states && Core(t) == Core(x);
    assert CameFrom(s0, x);
    assert Captures(lists, t) == Captures(lists, x) && Captures(lists0, t) == Captures(lists0, x);
    forall y | y in done + [t] ensures CameFrom(s0, y) {
      if y !in done {
        var s :| s in s0 && Core(s) == Core(x);
        assert Core(s) == Core(t);
      }
    }
    forall s | s in s0 ensures CoveredBy(lists0, s0, Erase(states, j), done + [t], s) {
      assert CoveredBy(lists0, s0, states, done, s);
      var y :| Lasting(s0, states, done, y) && Covers(lists0, y, s);
      if y == x {
        SameCoreCovers(lists0, x, t, s);
        assert Lasting(s0, Erase(states, j), done + [t], t);
      } else {
        assert Lasting(s0, Erase(states, j), done + [t], y);
      }
    }
  }

  /** When the loop takes one state for redundant, the other covers it. */
  lemma Redundant(lists: Lists, keep: QueryState, drop: QueryState)
    requires keep.startDepth == drop.startDepth && keep.patternIndex == drop.patternIndex
    ensures && Contains(Captures(lists, keep), Captures(lists, drop)) && keep.stepIndex == drop.stepIndex
            && (drop.seekingImmediateMatch || !keep.seekingImmediateMatch) ==>
              Covers(lists, keep, drop)
    ensures Covers(lists, keep, drop) ==>
              forall flag :: Covers(lists, keep.(hasInProgressAlternatives := flag), drop)
                          && Covers(lists, keep, drop.(hasInProgressAlternatives := flag))
  {
  }

  /** Whatever the dropped state covered, the one that is kept for it covers. */
  lemma PruneDropped(lists0: Lists, s0: seq<QueryState>, lists: Lists, states: seq<QueryState>, lists': Lists,
                     items: seq<QueryState>, done: seq<QueryState>, drop: nat, keep: nat)
    requires PruneOk(lists0, s0, lists, states, items, done) && drop < |states| && keep < |states| && drop != keep
    requires Covers(lists, states[keep], states[drop])
    requires SameCaptures(lists, lists', Erase(states, drop)) && SameCaptures(lists, lists', items)
    ensures PruneOk(lists0, s0, lists', Erase(states, drop), items, done)
  {
    hide Erase, Contains;
    ErasedMembers(states, drop);
    var kept, rest := states[keep], Erase(states, drop);
    assert rest[if keep < drop then keep else keep - 1] == kept;
    assert kept in states && states[drop] in states;
    assert Covers(lists0, kept, states[drop]);
    forall s | s in rest ensures Captures(lists', s) == Captures(lists0, s) {
      assert s in states;
    }
    forall s | s in items ensures Captures(lists', s) == Captures(lists0, s) {
      assert Captures(lists, s) == Captures(lists0, s);
    }
    forall s | s in s0 ensures CoveredBy(lists0, s0, rest, done, s) {
      assert CoveredBy(lists0, s0, states, done, s);
      var y :| Lasting(s0, states, done, y) && Covers(lists0, y, s);
      if y == states[drop] {
        CoversTransitive(lists0, kept, y, s);
        assert Lasting(s0, rest, done, kept);
      } else {
        assert Lasting(s0, rest, done, y);
      }
    }
  }

  lemma PruneFlagged(lists0: Lists, s0: seq<QueryState>, lists: Lists, states: seq<QueryState>,
                     items: seq<QueryState>, done: seq<QueryState>, i: nat)
    requires PruneOk(lists0, s0, lists, states, items, done) && i < |states|
    ensures PruneOk(lists0, s0, lists, states[i := states[i].(hasInProgressAlternatives := true)], items, done)
  {
    hide Contains;
    var x := states[i];
    var t := x.(hasInProgressAlternatives := true);
    var after := states[i := t];
    assert x in states && Core(t) == Core(x) && after[i] == t;
    assert CameFrom(s0, x);
    assert Captures(lists, t) == Captures(lists, x) && Captures(lists0, t) == Captures(lists0, x);
    forall y | y in after ensures CameFrom(s0, y) && Captures(lists, y) == Captures(lists0, y) {
      if y == t {
        var s :| s in s0 && Core(s) == Core(x);
        assert Core(s) == Core(t);
      } else {
        assert y in states;
      }
    }
    forall s | s in s0 ensures CoveredBy(lists0, s0, after, done, s) {
      assert CoveredBy(lists0, s0, states, done, s);
      var y :| Lasting(s0, states, done, y) && Covers(lists0, y, s);
      if y == x {
        SameCoreCovers(lists0, x, t, s);
        assert Lasting(s0, after, done, t);
      } else {
        StillThere(states, i, t, y);
        assert Lasting(s0, after, done, y);
      }
    }
  }

  lemma StillThere(states: seq<QueryState>, i: nat, t: QueryState, y: QueryState)
    requires i < |states| && y != states[i]
    ensures y in states ==> y in states[i := t]
  {
    if y in states {
      var k :| 0 <= k < |states| && states[k] == y;
      assert states[i := t][k] == y;
    }
  }

  lemma OneSorted(xs: seq<QueryState>, precedes: (QueryState, QueryState) -> bool)
    ensures xs != [] ==> xs == StableSort(xs[..1], precedes) + xs[1..]
    ensures xs == [] ==> StableSort(xs, precedes) == []
  {
    if xs != [] {
      assert xs[..1][..0] == [];
      assert xs == xs[..1] + xs[1..];
    }
  }

  /** The list once the elements from `j` to `i` have made room for one. */
  function Shifted<T>(s: seq<T>, i: nat, j: nat): (t: seq<T>)
    requires j <= i < |s|
    ensures |t| == |s|
  {
    s[..j + 1] + s[j..i] + s[i + 1..]
  }

  lemma ShiftNone<T>(s: seq<T>, i: nat)
    requires i < |s|
    ensures Shifted(s, i, i) == s
  {
  }

  lemma ShiftOne<T>(s: seq<T>, i: nat, j: nat)
    requires 0 < j <= i < |s|
    ensures var t := Shifted(s, i, j);
            t[j := t[j - 1]] == Shifted(s, i, j - 1) && forall k :: 0 <= k < j ==> t[k] == Shifted(s, i, j - 1)[k] == s[k]
  {
  }

  lemma ShiftedThenSet<T>(s: seq<T>, i: nat, j: nat)
    requires j <= i < |s|
    ensures Shifted(s, i, j)[j := s[i]] == MovedTo(s, i, j)
  {
  }

  /** The list once element `i` has been moved back to `j`. */
  function MovedTo<T>(s: seq<T>, i: nat, j: nat): (t: seq<T>)
    requires j <= i < |s|
    ensures |t| == |s|
  {
    s[..j] + [s[i]] + s[j..i] + s[i + 1..]
  }

  lemma Unmoved<T>(s: seq<T>, i: nat)
    requires i < |s|
    ensures s == MovedTo(s, i, i)
  {
  }

  /** Moving one element back to where it belongs among those before it, which are sorted, sorts one more. */
  lemma Placed(s0: seq<QueryState>, i: nat, before: seq<QueryState>, after: seq<QueryState>, j: nat,
               precedes: (QueryState, QueryState) -> bool)
    requires j <= i < |s0| == |before| && |StableSort(s0[..i], precedes)| == i
    requires before == StableSort(s0[..i], precedes) + s0[i..]
    requires after == MovedTo(before, i, j)
    requires forall k :: j <= k < i ==> precedes(before[i], before[k])
    requires j == 0 || !precedes(before[i], before[j - 1])
    ensures after == StableSort(s0[..i + 1], precedes) + s0[i + 1..]
  {
    NextSorted(s0, i, precedes);
    hide StableSort, Insert;
    var front := StableSort(s0[..i], precedes);
    assert before[i] == s0[i..][0] && front == before[..i] && before[i + 1..] == s0[i + 1..];
    InsertSplits(front, s0[i], j, precedes);
    assert front[..j] == before[..j] && front[j..] == before[j..i];
  }

  lemma SortedWhole(s0: seq<QueryState>, states: seq<QueryState>, i: nat, precedes: (QueryState, QueryState) -> bool)
    requires i >= |s0| && (i <= |s0| ==> states == StableSort(s0[..i], precedes) + s0[i..]) && (i > |s0| ==> states == s0 == [])
    ensures states == StableSort(s0, precedes)
  {
    if i == |s0| {
      assert s0[..i] == s0 && s0[i..] == [];
    }
  }

  lemma SortedLength(xs: seq<QueryState>, precedes: (QueryState, QueryState) -> bool)
    ensures |StableSort(xs, precedes)| == |xs|
  {
    SortedSize(xs, precedes);
  }

  lemma {:induction false} SortedSize(xs: seq<QueryState>, precedes: (QueryState, QueryState) -> bool)
    ensures multiset(StableSort(xs, precedes)) == multiset(xs) && |StableSort(xs, precedes)| == |xs|
    decreases |xs|
  {
    if xs != [] {
      var n := |xs| - 1;
      SortedSize(xs[..n], precedes);
      InsertKeeps(StableSort(xs[..n], precedes), xs[n], precedes);
      assert xs == xs[..n] + [xs[n]];
    }
    assert |multiset(StableSort(xs, precedes))| == |multiset(xs)|;
  }

  lemma NextSorted(xs: seq<QueryState>, i: nat, precedes: (QueryState, QueryState) -> bool)
    requires i < |xs|
    ensures StableSort(xs[..i + 1], precedes) == Insert(StableSort(xs[..i], precedes), xs[i], precedes)
  {
    assert xs[..i + 1][..i] == xs[..i];
  }

  /** The order of the states in progress does not matter to the invariant. */
  lemma SortedKeeps(lists: Lists, s0: seq<QueryState>, states: seq<QueryState>, i: nat, items: seq<QueryState>, heapSize: nat,
                    next: nat)
    requires CursorOk(lists, s0, items, heapSize, next, multiset{})
    requires i >= |s0| && (i <= |s0| ==> states == StableSort(s0[..i], StateOrder(lists)) + s0[i..])
    requires i > |s0| ==> states == s0 == []
    ensures CursorOk(lists, states, items, heapSize, next, multiset{}) && multiset(states) == multiset(s0)
    ensures states == StableSort(s0, StateOrder(lists)) && Sorted(states, StateOrder(lists))
  {
    hide CursorOk, StableSort, Sorted, StatePrecedes;
    SortedWhole(s0, states, i, StateOrder(lists));
    StateOrderIsWeak(lists);
    SortSorts(s0, StateOrder(lists));
    PermuteKeeps(lists, s0, states, items, heapSize, next);
  }

  lemma PermuteKeeps(lists: Lists, before: seq<QueryState>, after: seq<QueryState>, items: seq<QueryState>, heapSize: nat,
                     next: nat)
    requires CursorOk(lists, before, items, heapSize, next, multiset{}) && multiset(before) == multiset(after)
    ensures CursorOk(lists, after, items, heapSize, next, multiset{})
  {
    hide Heap, Numbered, ByNumber, Owned, Gather;
    GatherPermuted(before, after, ListIdOf);
    forall s | s in after ensures ListOk(s) {
      assert s in multiset(before);
    }
  }

  function NewState(stepIndex: nat, patternIndex: nat, startDepth: nat, needsParent: bool): QueryState {
    QueryState(UNSET, CAPTURE_LIST_NONE, UNSET, startDepth, stepIndex, patternIndex, 0, true, false, false, needsParent, false)
  }

  lemma NothingWithFree(lists: Lists)
    requires |lists| <= CAPTURE_LIST_NONE && forall i :: 0 <= i < |lists| ==> lists[i].Free?
    ensures CursorOk(lists, [], [], 0, 0, multiset{})
  {
  }

  lemma NothingYet()
    ensures CursorOk([], [], [], 0, 0, multiset{})
  {
  }

  /** A state may be replaced by one with the same list. */
  lemma SetKeeps(lists: Lists, states: seq<QueryState>, items: seq<QueryState>, heapSize: nat, next: nat,
                 extra: multiset<nat>, i: nat, t: QueryState)
    requires i < |states| && CursorOk(lists, states, items, heapSize, next, extra)
    requires ListOk(t) && t.captureListId == states[i].captureListId
    ensures CursorOk(lists, states[i := t], items, heapSize, next, extra)
  {
    hide Heap, Numbered, Gather, ListIds, ByNumber, ListOk, Owned;
    IdsErase(states, i);
    IdsUpdate(states, i, t);
  }

  lemma SameConsumed(states: seq<QueryState>)
    ensures AllMoreConsumed(states, states)
  {
  }

  lemma MoreConsumedOnce(before: seq<QueryState>, middle: seq<QueryState>, after: seq<QueryState>, i: nat)
    requires AllMoreConsumed(before, middle) && i < |middle| == |after| && after == middle[i := after[i]]
    requires MoreConsumed(middle[i], after[i])
    ensures AllMoreConsumed(before, after)
  {
    forall k | 0 <= k < |before| ensures MoreConsumed(before[k], after[k]) {
      assert MoreConsumed(before[k], middle[k]);
      if k != i {
        assert after[k] == middle[k];
      }
    }
  }

  lemma StillEarliest(query: Query, lists: Lists, states: seq<QueryState>, states': seq<QueryState>, n: nat,
                      skipGuaranteed: bool, index: nat)
    requires n < |states| == |states'| && states' == states[n := states'[n]]
    ensures IsEarliest(query, lists, states, n, skipGuaranteed, index) ==>
              IsEarliest(query, lists, states', n, skipGuaranteed, index)
    ensures forall k :: 0 <= k < n ==> states'[k] == states[k]
  {
    forall k | 0 <= k < n ensures states'[k] == states[k] {
    }
  }

  /** One more state to choose the earliest from. */
  lemma OneMoreCandidate(query: Query, lists: Lists, states: seq<QueryState>, n: nat, skipGuaranteed: bool, found: bool, index: nat)
    requires n < |states|
    requires found ==> IsEarliest(query, lists, states, n, skipGuaranteed, index)
    requires !found ==> forall k :: 0 <= k < n ==> !IsCandidate(query, lists, states[k], skipGuaranteed)
    ensures found ==> index < n && HasNext(lists, states[index])
    ensures var s := states[n];
            && (IsCandidate(query, lists, s, skipGuaranteed)
                && (!found || EarlierCapture(Next(lists, s).startByte, s.patternIndex,
                                             Next(lists, states[index]).startByte, states[index].patternIndex)) ==>
                  IsEarliest(query, lists, states, n + 1, skipGuaranteed, n))
            && (found && !(IsCandidate(query, lists, s, skipGuaranteed)
                           && EarlierCapture(Next(lists, s).startByte, s.patternIndex,
                                             Next(lists, states[index]).startByte, states[index].patternIndex)) ==>
                  IsEarliest(query, lists, states, n + 1, skipGuaranteed, index))
    ensures IsCandidate(query, lists, states[n], skipGuaranteed) <==>
              !states[n].dead && HasNext(lists, states[n]) && !(skipGuaranteed && query.isGuaranteed(states[n].stepIndex))
  {
  }
}
