/** The states of the matches in progress and of those that are finished, and how they are ordered. */
module QueryStates {
  import opened Gathering
  import opened Sequences
  import opened QueryCaptures
  import opened CaptureLists
  import opened FinishedHeaps
  import opened StableSorts

  datatype QueryState = QueryState(
    id: nat, captureListId: nat, heapInsertOrder: nat, startDepth: nat, stepIndex: nat, patternIndex: nat,
    consumedCaptureCount: nat, seekingImmediateMatch: bool, hasInProgressAlternatives: bool, dead: bool,
    needsParent: bool, skippedQuantifier: bool)

  const UNSET: nat := 0xFFFF_FFFF

  /** What the bookkeeping asks of a query and of the cursor's range. */
  datatype Query = Query(
    isDone: nat -> bool, isGuaranteed: nat -> bool, isImmediate: nat -> bool,
    precedesRange: Capture -> bool, followsRange: Capture -> bool)

  function Captures(lists: Lists, s: QueryState): seq<Capture> { CapturesOf(lists, s.captureListId) }

  /** The state has a capture that has not been returned. */
  predicate HasNext(lists: Lists, s: QueryState) { s.consumedCaptureCount < |Captures(lists, s)| }

  function Next(lists: Lists, s: QueryState): Capture
    requires HasNext(lists, s)
  {
    Captures(lists, s)[s.consumedCaptureCount]
  }

  /** Finished states in the order of their next captures, then of their patterns, then of their discovery. */
  predicate FinishedPrecedes(lists: Lists, a: QueryState, b: QueryState) {
    if !HasNext(lists, a) then false
    else if !HasNext(lists, b) then true
    else
      var x, y := Next(lists, a).startByte, Next(lists, b).startByte;
      if x != y then x < y
      else if a.patternIndex != b.patternIndex then a.patternIndex < b.patternIndex
      else a.heapInsertOrder < b.heapInsertOrder
  }

  function FinishedOrder(lists: Lists): (QueryState, QueryState) -> bool { (a, b) => FinishedPrecedes(lists, a, b) }

  lemma FinishedOrderIsWeak(lists: Lists)
    ensures StrictWeak(FinishedOrder(lists))
  {
    var precedes := FinishedOrder(lists);
    forall x, y, z
      ensures !precedes(x, x)
      ensures precedes(x, y) && precedes(y, z) ==> precedes(x, z)
      ensures !precedes(x, y) && !precedes(y, z) ==> !precedes(x, z)
    {
      FinishedOrderAt(lists, x, y, z);
    }
  }

  lemma FinishedOrderAt(lists: Lists, x: QueryState, y: QueryState, z: QueryState)
    ensures !FinishedPrecedes(lists, x, x)
    ensures FinishedPrecedes(lists, x, y) && FinishedPrecedes(lists, y, z) ==> FinishedPrecedes(lists, x, z)
    ensures !FinishedPrecedes(lists, x, y) && !FinishedPrecedes(lists, y, z) ==> !FinishedPrecedes(lists, x, z)
  {
  }

  /** States in progress by depth and pattern, those without captures first, the rest by their first capture. */
  predicate StatePrecedes(lists: Lists, a: QueryState, b: QueryState) {
    if a.startDepth != b.startDepth then a.startDepth < b.startDepth
    else if a.patternIndex != b.patternIndex then a.patternIndex < b.patternIndex
    else
      var x, y := Captures(lists, a), Captures(lists, b);
      if (x == []) != (y == []) then x == []
      else x != [] && x[0].startByte < y[0].startByte
  }

  /** Sorted states, in plain words: by depth, then by pattern, then those without captures first, then by where captures start. */
  lemma SortedStates(lists: Lists, states: seq<QueryState>, i: nat, j: nat)
    requires Sorted(states, StateOrder(lists)) && i < j < |states|
    ensures states[i].startDepth <= states[j].startDepth
    ensures states[i].startDepth == states[j].startDepth ==> states[i].patternIndex <= states[j].patternIndex
    ensures states[i].startDepth == states[j].startDepth && states[i].patternIndex == states[j].patternIndex ==>
              var x, y := Captures(lists, states[i]), Captures(lists, states[j]);
              (x != [] ==> y != [] && x[0].startByte <= y[0].startByte)
  {
    assert !StateOrder(lists)(states[j], states[i]);
  }

  function StateOrder(lists: Lists): (QueryState, QueryState) -> bool { (a, b) => StatePrecedes(lists, a, b) }

  lemma StateOrderIsWeak(lists: Lists)
    ensures StrictWeak(StateOrder(lists))
  {
    var precedes := StateOrder(lists);
    forall x, y, z
      ensures !precedes(x, x)
      ensures precedes(x, y) && precedes(y, z) ==> precedes(x, z)
      ensures !precedes(x, y) && !precedes(y, z) ==> !precedes(x, z)
    {
      StateOrderAt(lists, x, y, z);
    }
  }

  lemma StateOrderAt(lists: Lists, x: QueryState, y: QueryState, z: QueryState)
    ensures !StatePrecedes(lists, x, x)
    ensures StatePrecedes(lists, x, y) && StatePrecedes(lists, y, z) ==> StatePrecedes(lists, x, z)
    ensures !StatePrecedes(lists, x, y) && !StatePrecedes(lists, y, z) ==> !StatePrecedes(lists, x, z)
  {
  }

  // ----- who owns which list -------------------------------------------------------------------

  function ListIdOf(s: QueryState): multiset<nat> {
    if s.captureListId == CAPTURE_LIST_NONE then multiset{} else multiset{s.captureListId}
  }

  ghost function ListIds(states: seq<QueryState>): multiset<nat> { Gather(states, ListIdOf) }

  /** Every list in use has exactly one owner, and nobody has a list that is free. */
  ghost predicate Owned(lists: Lists, ids: multiset<nat>) {
    forall id: nat :: ids[id] == if id < |lists| && lists[id].Used? then 1 else 0
  }

  lemma OwnerOf(lists: Lists, states: seq<QueryState>, i: nat, others: multiset<nat>)
    requires Owned(lists, ListIds(states) + others) && i < |states|
    ensures var id := states[i].captureListId;
            id != CAPTURE_LIST_NONE ==> id < |lists| && lists[id].Used? && id !in others
    ensures forall j :: 0 <= j < |states| && j != i && states[j].captureListId == states[i].captureListId ==>
              states[i].captureListId == CAPTURE_LIST_NONE
  {
    hide Gather;
    GatherAround(states, i, ListIdOf);
    var id := states[i].captureListId;
    if id != CAPTURE_LIST_NONE {
      assert id in ListIdOf(states[i]);
      OwnedOnce(lists, ListIds(states) + others, id);
      forall j | 0 <= j < |states| && states[j].captureListId == id ensures j == i {
        if j < i {
          GatherTwo(states, j, i, ListIdOf);
        } else if j > i {
          GatherTwo(states, i, j, ListIdOf);
        }
      }
    }
  }

  lemma OwnedOnce(lists: Lists, ids: multiset<nat>, id: nat)
    requires Owned(lists, ids) && id in ids
    ensures id < |lists| && lists[id].Used? && ids[id] == 1
  {
    assert ids[id] == if id < |lists| && lists[id].Used? then 1 else 0;
  }

  lemma IdsErase(states: seq<QueryState>, i: nat)
    requires i < |states|
    ensures ListIds(states) == ListIds(Erase(states, i)) + ListIdOf(states[i])
  {
    GatherAround(states, i, ListIdOf);
  }

  lemma IdsUpdate(states: seq<QueryState>, i: nat, t: QueryState)
    requires i < |states|
    ensures ListIds(states[i := t]) == ListIds(Erase(states, i)) + ListIdOf(t)
  {
    assert Erase(states[i := t], i) == Erase(states, i);
    GatherAround(states[i := t], i, ListIdOf);
  }

  lemma IdsInsert(states: seq<QueryState>, i: nat, t: QueryState)
    requires i <= |states|
    ensures ListIds(InsertAt(states, i, t)) == ListIds(states) + ListIdOf(t)
  {
    assert states == states[..i] + states[i..];
    GatherConcat(states[..i], states[i..], ListIdOf);
    GatherConcat(states[..i] + [t], states[i..], ListIdOf);
    GatherAppend(states[..i], t, ListIdOf);
  }

  lemma ReleaseOwned(lists: Lists, ids: multiset<nat>, id: nat)
    requires Owned(lists, ids + multiset{id})
    ensures id < |lists| && lists[id].Used? && Owned(lists[id := Free], ids)
  {
    OwnedOnce(lists, ids + multiset{id}, id);
    forall k: nat ensures ids[k] == if k < |lists| && lists[id := Free][k].Used? then 1 else 0 {
      assert (ids + multiset{id})[k] == if k < |lists| && lists[k].Used? then 1 else 0;
    }
  }

  lemma AcquireOwned(lists: Lists, ids: multiset<nat>, id: nat, lists': Lists)
    requires Owned(lists, ids)
    requires if id < |lists| then lists[id].Free? && lists' == lists[id := Used([])] else id == |lists| && lists' == lists + [Used([])]
    ensures Owned(lists', ids + multiset{id}) && id !in ids
  {
    assert ids[id] == 0;
    forall k: nat ensures (ids + multiset{id})[k] == if k < |lists'| && lists'[k].Used? then 1 else 0 {
      assert ids[k] == if k < |lists| && lists[k].Used? then 1 else 0;
    }
  }

  lemma ChangeOwned(lists: Lists, ids: multiset<nat>, id: nat, captures: seq<Capture>)
    requires Owned(lists, ids) && id < |lists| && lists[id].Used?
    ensures Owned(lists[id := Used(captures)], ids)
  {
    forall k: nat ensures ids[k] == if k < |lists| && lists[id := Used(captures)][k].Used? then 1 else 0 {
      assert ids[k] == if k < |lists| && lists[k].Used? then 1 else 0;
    }
  }

  /** No state that has died, or that has not captured its parent, has a list. */
  predicate ListOk(s: QueryState) { s.dead || s.needsParent ==> s.captureListId == CAPTURE_LIST_NONE }

  // ----- the finished states -------------------------------------------------------------------

  /** Finished states are numbered in the order in which they were found. */
  ghost predicate Numbered(states: multiset<QueryState>, next: nat) {
    && (forall s :: states[s] <= 1)
    && (forall s :: s in states ==> s.heapInsertOrder < next)
    && forall s, t :: s in states && t in states && s.heapInsertOrder == t.heapInsertOrder ==> s == t
  }

  predicate ByNumber(states: seq<QueryState>) {
    forall i, j :: 0 <= i < j < |states| ==> states[i].heapInsertOrder < states[j].heapInsertOrder
  }

  ghost predicate SameCaptures(lists: Lists, lists': Lists, states: seq<QueryState>) {
    forall s :: s in states ==> Captures(lists', s) == Captures(lists, s)
  }

  /** The heap does not notice changes to lists of others. */
  lemma HeapStays(lists: Lists, lists': Lists, states: seq<QueryState>, n: nat)
    requires Heap(states, n, FinishedOrder(lists)) && SameCaptures(lists, lists', states)
    ensures Heap(states, n, FinishedOrder(lists'))
  {
    forall i | 0 < i < n ensures Below(states, FinishedOrder(lists'), i) {
      assert Below(states, FinishedOrder(lists), i);
      assert states[i] in states && states[Parent(i)] in states;
    }
  }

  // ----- the invariant of a cursor -------------------------------------------------------------

  /**
   * Every list in use has one owner among the states in progress, the finished ones and the ids in
   * `extra`; the finished states are in heap order or in the order they were found.
   */
  ghost predicate CursorOk(lists: Lists, states: seq<QueryState>, items: seq<QueryState>, heapSize: nat, next: nat,
                           extra: multiset<nat>)
  {
    && |lists| <= CAPTURE_LIST_NONE
    && Owned(lists, ListIds(states) + ListIds(items) + extra)
    && (forall s :: s in states ==> ListOk(s))
    && Heap(items, heapSize, FinishedOrder(lists)) && (heapSize == 0 ==> ByNumber(items))
    && Numbered(multiset(items), next)
  }

  /** The captures of states are left alone by a change to a list that none of them owns. */
  lemma ListChange(lists: Lists, lists': Lists, states: seq<QueryState>, others: multiset<nat>, id: nat)
    requires Owned(lists, ListIds(states) + others) && (id in others || id >= |lists| || lists[id].Free?)
    requires |lists| <= |lists'| <= CAPTURE_LIST_NONE
    requires forall k :: 0 <= k < |lists| && k != id ==> lists'[k] == lists[k]
    ensures SameCaptures(lists, lists', states)
  {
    hide Gather;
    forall s | s in states ensures Captures(lists', s) == Captures(lists, s) {
      var i :| 0 <= i < |states| && states[i] == s;
      OwnerOf(lists, states, i, others);
    }
  }

  lemma Regroup(a: multiset<nat>, b: multiset<nat>, c: multiset<nat>)
    ensures a + b + c == a + (b + c) && a + b + c == b + (a + c)
  {
  }

  lemma ReleaseKeeps(lists: Lists, states: seq<QueryState>, items: seq<QueryState>, heapSize: nat, next: nat,
                     extra: multiset<nat>, id: nat)
    requires CursorOk(lists, states, items, heapSize, next, extra + multiset{id})
    ensures id < |lists| && lists[id].Used?
    ensures CursorOk(lists[id := Free], states, items, heapSize, next, extra)
    ensures SameCaptures(lists, lists[id := Free], states) && SameCaptures(lists, lists[id := Free], items)
  {
    hide Heap, Numbered, Gather, ListIds, ByNumber, ListOk, Owned;
    var held := ListIds(states) + ListIds(items);
    assert held + (extra + multiset{id}) == held + extra + multiset{id};
    ReleaseOwned(lists, held + extra, id);
    Regroup(ListIds(states), ListIds(items), extra + multiset{id});
    ListChange(lists, lists[id := Free], states, ListIds(items) + (extra + multiset{id}), id);
    ListChange(lists, lists[id := Free], items, ListIds(states) + (extra + multiset{id}), id);
    HeapStays(lists, lists[id := Free], items, heapSize);
  }

  lemma AcquireKeeps(lists: Lists, states: seq<QueryState>, items: seq<QueryState>, heapSize: nat, next: nat,
                     extra: multiset<nat>, id: nat, lists': Lists)
    requires CursorOk(lists, states, items, heapSize, next, extra) && |lists'| <= CAPTURE_LIST_NONE
    requires if id < |lists| then lists[id].Free? && lists' == lists[id := Used([])] else id == |lists| && lists' == lists + [Used([])]
    ensures CursorOk(lists', states, items, heapSize, next, extra + multiset{id})
    ensures SameCaptures(lists, lists', states) && SameCaptures(lists, lists', items)
  {
    hide Heap, Numbered, Gather, ListIds, ByNumber, ListOk, Owned;
    var held := ListIds(states) + ListIds(items);
    AcquireOwned(lists, held + extra, id, lists');
    assert held + (extra + multiset{id}) == held + extra + multiset{id};
    Regroup(ListIds(states), ListIds(items), extra);
    ListChange(lists, lists', states, ListIds(items) + extra, id);
    ListChange(lists, lists', items, ListIds(states) + extra, id);
    HeapStays(lists, lists', items, heapSize);
  }

  lemma ChangeKeeps(lists: Lists, states: seq<QueryState>, items: seq<QueryState>, heapSize: nat, next: nat,
                    extra: multiset<nat>, id: nat, captures: seq<Capture>)
    requires CursorOk(lists, states, items, heapSize, next, extra) && id in extra
    ensures id < |lists| && lists[id].Used?
    ensures CursorOk(lists[id := Used(captures)], states, items, heapSize, next, extra)
    ensures SameCaptures(lists, lists[id := Used(captures)], states)
    ensures SameCaptures(lists, lists[id := Used(captures)], items)
  {
    hide Heap, Numbered, Gather, ListIds, ByNumber, ListOk, Owned;
    var held := ListIds(states) + ListIds(items);
    OwnedOnce(lists, held + extra, id);
    var lists' := lists[id := Used(captures)];
    ChangeOwned(lists, held + extra, id, captures);
    Regroup(ListIds(states), ListIds(items), extra);
    ListChange(lists, lists', states, ListIds(items) + extra, id);
    ListChange(lists, lists', items, ListIds(states) + extra, id);
    HeapStays(lists, lists', items, heapSize);
  }

  /** A state is replaced; what list it had and what list it gets is accounted for. */
  lemma UpdateKeeps(lists: Lists, states: seq<QueryState>, items: seq<QueryState>, heapSize: nat, next: nat,
                    extra: multiset<nat>, i: nat, t: QueryState)
    requires i < |states| && CursorOk(lists, states, items, heapSize, next, extra + ListIdOf(t)) && ListOk(t)
    ensures CursorOk(lists, states[i := t], items, heapSize, next, extra + ListIdOf(states[i]))
  {
    hide Heap, Numbered, Gather, ListIds, ByNumber, ListOk, Owned;
    IdsErase(states, i);
    IdsUpdate(states, i, t);
    assert ListIds(states) + ListIds(items) + (extra + ListIdOf(t))
        == ListIds(states[i := t]) + ListIds(items) + (extra + ListIdOf(states[i]));
  }

  lemma EraseKeeps(lists: Lists, states: seq<QueryState>, items: seq<QueryState>, heapSize: nat, next: nat,
                   extra: multiset<nat>, i: nat)
    requires i < |states| && CursorOk(lists, states, items, heapSize, next, extra)
    ensures CursorOk(lists, Erase(states, i), items, heapSize, next, extra + ListIdOf(states[i]))
  {
    hide Heap, Numbered, Gather, ListIds, ByNumber, ListOk, Owned, Erase;
    IdsErase(states, i);
    ErasedMembers(states, i);
    assert ListIds(states) + ListIds(items) + extra
        == ListIds(Erase(states, i)) + ListIds(items) + (extra + ListIdOf(states[i]));
  }

  lemma InsertKeepsCursor(lists: Lists, states: seq<QueryState>, items: seq<QueryState>, heapSize: nat, next: nat,
                          extra: multiset<nat>, i: nat, t: QueryState)
    requires i <= |states| && CursorOk(lists, states, items, heapSize, next, extra + ListIdOf(t)) && ListOk(t)
    ensures CursorOk(lists, InsertAt(states, i, t), items, heapSize, next, extra)
  {
    hide Heap, Numbered, Gather, ListIds, ByNumber, ListOk, Owned, InsertAt;
    IdsInsert(states, i, t);
    InsertedMembers(states, i, t);
    forall s | s in InsertAt(states, i, t) ensures ListOk(s) {
      var k :| 0 <= k < |InsertAt(states, i, t)| && InsertAt(states, i, t)[k] == s;
      assert s == t || s in states;
    }
    assert ListIds(states) + ListIds(items) + (extra + ListIdOf(t))
        == ListIds(InsertAt(states, i, t)) + ListIds(items) + extra;
  }

  /** A state that has finished joins the finished ones under the next number. */
  lemma FinishKeeps(lists: Lists, states: seq<QueryState>, items: seq<QueryState>, heapSize: nat, next: nat,
                    extra: multiset<nat>, t: QueryState)
    requires CursorOk(lists, states, items, heapSize, next, extra + ListIdOf(t)) && t.heapInsertOrder == next
    ensures CursorOk(lists, states, items + [t], heapSize, next + 1, extra)
  {
    hide Gather, ListIds, ListOk, Owned, Heap, Numbered, ByNumber;
    IdsMore(items, t);
    assert ListIds(states) + ListIds(items) + (extra + ListIdOf(t)) == ListIds(states) + ListIds(items + [t]) + extra;
    HeapMore(items, heapSize, t, FinishedOrder(lists));
    NumberedMore(multiset(items), next, t);
    assert multiset(items + [t]) == multiset(items) + multiset{t};
    if heapSize == 0 {
      ByNumberMore(items, next, t);
    }
  }

  lemma HeapMore(items: seq<QueryState>, heapSize: nat, t: QueryState, before: (QueryState, QueryState) -> bool)
    requires Heap(items, heapSize, before)
    ensures Heap(items + [t], heapSize, before)
  {
    forall i | 0 < i < heapSize ensures Below(items + [t], before, i) {
      assert Below(items, before, i);
    }
  }

  lemma ByNumberMore(items: seq<QueryState>, next: nat, t: QueryState)
    requires Numbered(multiset(items), next) && ByNumber(items) && t.heapInsertOrder == next
    ensures ByNumber(items + [t])
  {
    forall i, j | 0 <= i < j < |items + [t]| ensures (items + [t])[i].heapInsertOrder < (items + [t])[j].heapInsertOrder {
      if j == |items| {
        assert items[i] in multiset(items);
      }
    }
  }

  lemma IdsMore(items: seq<QueryState>, t: QueryState)
    ensures ListIds(items + [t]) == ListIds(items) + ListIdOf(t)
  {
    GatherAppend(items, t, ListIdOf);
  }

  lemma NumberedMore(items: multiset<QueryState>, next: nat, t: QueryState)
    requires Numbered(items, next) && t.heapInsertOrder == next
    ensures Numbered(items + multiset{t}, next + 1)
  {
    var more := items + multiset{t};
    assert t !in items;
    forall s ensures more[s] <= 1 {
    }
    forall s | s in more ensures s.heapInsertOrder < next + 1 {
      assert s in items || s == t;
    }
    forall s, u | s in more && u in more && s.heapInsertOrder == u.heapInsertOrder ensures s == u {
      assert s in items || s == t;
      assert u in items || u == t;
    }
  }

  /** One of the finished states has been taken out, and its list released. */
  lemma RemoveKeeps(lists: Lists, states: seq<QueryState>, items: seq<QueryState>, heapSize: nat, next: nat, x: QueryState,
                    lists': Lists, items': seq<QueryState>, heapSize': nat)
    requires CursorOk(lists, states, items, heapSize, next, multiset{}) && multiset(items') + multiset{x} == multiset(items)
    requires lists' == if x.captureListId < |lists| then lists[x.captureListId := Free] else lists
    requires Heap(items', heapSize', FinishedOrder(lists')) && (heapSize' == 0 ==> ByNumber(items'))
    ensures CursorOk(lists', states, items', heapSize', next, multiset{})
    ensures x.captureListId < |lists| ==> lists[x.captureListId].Used?
    ensures SameCaptures(lists, lists', states) && SameCaptures(lists, lists', items')
  {
    hide Heap, Gather, ListIds, ByNumber, ListOk, Owned, SameCaptures;
    ListChangeOnRemove(lists, states, items, x, lists', items');
    NumberedLess(multiset(items'), multiset(items), next);
  }

  lemma NumberedLess(fewer: multiset<QueryState>, items: multiset<QueryState>, next: nat)
    requires Numbered(items, next) && fewer <= items
    ensures Numbered(fewer, next)
  {
  }

  lemma ListChangeOnRemove(lists: Lists, states: seq<QueryState>, items: seq<QueryState>, x: QueryState,
                           lists': Lists, items': seq<QueryState>)
    requires |lists| <= CAPTURE_LIST_NONE && Owned(lists, ListIds(states) + ListIds(items) + multiset{})
    requires multiset(items') + multiset{x} == multiset(items)
    requires lists' == if x.captureListId < |lists| then lists[x.captureListId := Free] else lists
    ensures Owned(lists', ListIds(states) + ListIds(items') + multiset{})
    ensures x.captureListId < |lists| ==> lists[x.captureListId].Used?
    ensures SameCaptures(lists, lists', states) && SameCaptures(lists, lists', items')
  {
    hide Gather, ListIds, Owned, SameCaptures;
    TakenOut(items, x, items');
    var held, id := ListIds(states) + ListIds(items'), x.captureListId;
    assert ListIds(states) + ListIds(items) + multiset{} == held + ListIdOf(x);
    if id == CAPTURE_LIST_NONE {
      assert held + ListIdOf(x) == held + multiset{};
      NothingChanged(lists, states);
      NothingChanged(lists, items');
    } else {
      ReleaseOwned(lists, held, id);
      assert held + multiset{} == held;
      assert held + multiset{id} == ListIds(states) + (ListIds(items') + multiset{id});
      assert held + multiset{id} == ListIds(items') + (ListIds(states) + multiset{id});
      ListChange(lists, lists', states, ListIds(items') + multiset{id}, id);
      ListChange(lists, lists', items', ListIds(states) + multiset{id}, id);
    }
  }

  lemma NothingChanged(lists: Lists, states: seq<QueryState>)
    ensures SameCaptures(lists, lists, states)
  {
  }

  lemma TakenOut(items: seq<QueryState>, x: QueryState, items': seq<QueryState>)
    requires multiset(items') + multiset{x} == multiset(items)
    ensures ListIds(items) == ListIds(items') + ListIdOf(x)
  {
    assert multiset(items' + [x]) == multiset(items);
    GatherPermuted(items' + [x], items, ListIdOf);
    GatherAppend(items', x, ListIdOf);
  }

  /** The finished states in another order, or with another mark of how many are in heap order. */
  lemma ReorderKeeps(lists: Lists, states: seq<QueryState>, items: seq<QueryState>, heapSize: nat, next: nat,
                     items': seq<QueryState>, heapSize': nat)
    requires CursorOk(lists, states, items, heapSize, next, multiset{}) && multiset(items') == multiset(items)
    requires Heap(items', heapSize', FinishedOrder(lists)) && (heapSize' == 0 ==> ByNumber(items'))
    ensures CursorOk(lists, states, items', heapSize', next, multiset{})
  {
    hide Heap, Gather, ByNumber, ListOk, Owned, Numbered;
    GatherPermuted(items, items', ListIdOf);
  }

  /** The order of finished states does not depend on lists that none of them has. */
  lemma SameFinishedOrder(lists: Lists, lists': Lists, items: seq<QueryState>, i: nat, j: nat)
    requires i < |items| && j < |items|
    requires Captures(lists', items[i]) == Captures(lists, items[i]) && Captures(lists', items[j]) == Captures(lists, items[j])
    ensures FinishedPrecedes(lists', items[i], items[j]) == FinishedPrecedes(lists, items[i], items[j])
  {
  }

  // ----- which states make others redundant ----------------------------------------------------

  /** `t` matches the same pattern at the same place, with everything `s` captured and no stricter an anchor. */
  ghost predicate Covers(lists: Lists, t: QueryState, s: QueryState) {
    && t.startDepth == s.startDepth && t.patternIndex == s.patternIndex && t.stepIndex == s.stepIndex
    && Contains(Captures(lists, t), Captures(lists, s))
    && (t.seekingImmediateMatch ==> s.seekingImmediateMatch)
  }

  lemma CoversTransitive(lists: Lists, r: QueryState, t: QueryState, s: QueryState)
    requires Covers(lists, r, t) && Covers(lists, t, s)
    ensures Covers(lists, r, s)
  {
    ContainsTransitive(Captures(lists, r), Captures(lists, t), Captures(lists, s));
  }

  lemma CoversItself(lists: Lists, s: QueryState)
    ensures Covers(lists, s, s)
  {
    ContainsItself(Captures(lists, s));
  }
}
