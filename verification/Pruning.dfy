/** Enforcing the longest match: which states may stay in progress together, and which may finish. */
module Prunings {
  import opened Sequences
  import opened QueryCaptures
  import opened CaptureLists
  import opened FinishedHeaps
  import opened StableSorts
  import opened QueryStates

  // ----- two states ----------------------------------------------------------------------------

  predicate SameGroup(a: QueryState, b: QueryState) {
    a.startDepth == b.startDepth && a.patternIndex == b.patternIndex
  }

  /** The captures of `b` begin where those of `a` have ended. */
  predicate Disjoint(lists: Lists, a: QueryState, b: QueryState) {
    var x, y := Captures(lists, a), Captures(lists, b);
    x != [] && y != [] && y[0].startByte >= x[|x| - 1].endByte
  }

  /** The comparison of their captures says that `a` has all those of `b`. */
  predicate SaysContains(lists: Lists, a: QueryState, b: QueryState) {
    Compared(Captures(lists, a), Captures(lists, b)).0
  }

  /** `a` may stand for `b` if it has its captures: it is at the same step and no stricter. */
  predicate StandsFor(a: QueryState, b: QueryState) {
    a.stepIndex == b.stepIndex && (b.seekingImmediateMatch || !a.seekingImmediateMatch)
  }

  /** Neither makes the other redundant, and one that has fewer captures knows that there is an alternative. */
  predicate Settled(lists: Lists, a: QueryState, b: QueryState) {
    SameGroup(a, b) && !Disjoint(lists, a, b) ==>
      && (SaysContains(lists, a, b) ==> !StandsFor(a, b) && b.hasInProgressAlternatives)
      && (SaysContains(lists, b, a) ==> !StandsFor(b, a) && a.hasInProgressAlternatives)
  }

  /** The state was marked before, or some state with its captures is elsewhere in the pattern or stricter. */
  ghost predicate Justified(lists: Lists, s0: seq<QueryState>, t: QueryState) {
    exists s :: s in s0 && Unmarked(s) == Unmarked(t) && (s.hasInProgressAlternatives || HasAlternative(lists, s0, s))
  }

  ghost predicate HasAlternative(lists: Lists, s0: seq<QueryState>, s: QueryState) {
    exists u :: u in s0 && SameGroup(u, s) && SaysContains(lists, u, s) && !StandsFor(u, s)
  }

  function Unmarked(s: QueryState): QueryState { s.(hasInProgressAlternatives := false) }

  /** A state that may stay: alive, and not at its end unless it waits for an alternative. */
  predicate MayStay(query: Query, s: QueryState) {
    !s.dead && (query.isDone(s.stepIndex) ==> s.hasInProgressAlternatives)
  }

  predicate MayFinish(query: Query, s: QueryState) {
    !s.dead && query.isDone(s.stepIndex) && !s.hasInProgressAlternatives
  }

  lemma {:induction false} ComparedSwaps(left: seq<Capture>, right: seq<Capture>)
    ensures Compared(left, right).1 == Compared(right, left).0
    decreases |left| + |right|
  {
    if left != [] && right != [] {
      if SameCapture(left[0], right[0]) {
        ComparedSwaps(left[1..], right[1..]);
      } else if CompareNodes(left[0], right[0]) == -1 {
        ComparedSwaps(left[1..], right);
      } else if CompareNodes(left[0], right[0]) == 1 {
        ComparedSwaps(left, right[1..]);
      }
    }
  }

  // ----- a pass over all states ----------------------------------------------------------------

  /**
   * The states before `j` have been dealt with, and the one at `j` has been compared with those
   * before `m`; `done` have finished.
   */
  ghost predicate Scanned(query: Query, lists: Lists, s0: seq<QueryState>, states: seq<QueryState>, done: seq<QueryState>,
                          j: nat, m: nat)
  {
    && (forall a, b :: 0 <= a < b < |states| && (a < j || (a == j && b < m)) ==> Settled(lists, states[a], states[b]))
    && (forall a :: 0 <= a < j && a < |states| ==> MayStay(query, states[a]))
    && (forall d :: 0 <= d < |done| ==> MayFinish(query, done[d]))
    && (forall d, e :: 0 <= d < e < |done| ==> Settled(lists, done[d], done[e]))
    && (forall d, a :: 0 <= d < |done| && 0 <= a < |states| ==>
          Settled(lists, done[d], states[a]) || (a < j && Settled(lists, states[a], done[d])))
    && (forall a :: 0 <= a < |states| && states[a].hasInProgressAlternatives ==> Justified(lists, s0, states[a]))
    && (forall a :: 0 <= a < |states| ==> Unmarked(states[a]) in UnmarkedOf(s0))
    && Sorted(states, StateOrder(lists))
  }

  function UnmarkedOf(s0: seq<QueryState>): set<QueryState> { set s | s in s0 :: Unmarked(s) }

  /** What a whole pass leaves behind. */
  ghost predicate Pruned(query: Query, lists: Lists, s0: seq<QueryState>, states: seq<QueryState>, done: seq<QueryState>) {
    && (forall a :: 0 <= a < |states| ==> MayStay(query, states[a]))
    && (forall d :: 0 <= d < |done| ==> MayFinish(query, done[d]))
    && (forall a, b :: 0 <= a < b < |states| ==> Settled(lists, states[a], states[b]))
    && (forall d, e :: 0 <= d < e < |done| ==> Settled(lists, done[d], done[e]))
    && (forall d, a :: 0 <= d < |done| && 0 <= a < |states| ==>
          Settled(lists, done[d], states[a]) || Settled(lists, states[a], done[d]))
    && (forall a :: 0 <= a < |states| && states[a].hasInProgressAlternatives ==> Justified(lists, s0, states[a]))
  }

  lemma ScanStarts(query: Query, lists: Lists, s0: seq<QueryState>)
    requires Sorted(s0, StateOrder(lists))
    ensures Scanned(query, lists, s0, s0, [], 0, 1)
  {
    hide Settled, StateOrder, Sorted, HasAlternative;
  }

  lemma ScanEnds(query: Query, lists: Lists, s0: seq<QueryState>, states: seq<QueryState>, done: seq<QueryState>, m: nat)
    requires Scanned(query, lists, s0, states, done, |states|, m)
    ensures Pruned(query, lists, s0, states, done)
  {
    hide Settled, Justified, StateOrder, Sorted;
  }

  /** Sorting does not look at marks. */
  lemma {:induction false} ErasedSorted(lists: Lists, states: seq<QueryState>, i: nat)
    requires Sorted(states, StateOrder(lists)) && i < |states|
    ensures Sorted(Erase(states, i), StateOrder(lists))
  {
    hide StateOrder, Erase;
    ErasedMembers(states, i);
  }

  /** A state that has not been dealt with goes. */
  lemma ScanErases(query: Query, lists: Lists, s0: seq<QueryState>, states: seq<QueryState>, done: seq<QueryState>,
                   j: nat, m: nat, i: nat)
    requires Scanned(query, lists, s0, states, done, j, m) && j <= i < |states| && (i == j || i == m)
    ensures Scanned(query, lists, s0, Erase(states, i), done, j, if i == j then j + 1 else m)
  {
    hide Settled, Justified, StateOrder, Sorted, Erase, UnmarkedOf;
    ErasedSorted(lists, states, i);
    ErasedMembers(states, i);
  }

  /** `t` is `s` but for what pruning changes: its number, and a mark that it did not have. */
  predicate SameBut(s: QueryState, t: QueryState) {
    && t == s.(hasInProgressAlternatives := t.hasInProgressAlternatives, heapInsertOrder := t.heapInsertOrder)
    && (s.hasInProgressAlternatives ==> t.hasInProgressAlternatives)
  }

  lemma MarkSettles(lists: Lists, a: QueryState, b: QueryState, a': QueryState, b': QueryState)
    requires Settled(lists, a, b) && SameBut(a, a') && SameBut(b, b')
    ensures Settled(lists, a', b')
  {
    hide Compared, Captures;
    SameBooks(lists, a, a');
    SameBooks(lists, b, b');
  }

  lemma SameBooks(lists: Lists, s: QueryState, t: QueryState)
    requires SameBut(s, t)
    ensures Captures(lists, t) == Captures(lists, s) && t.startDepth == s.startDepth && t.patternIndex == s.patternIndex
    ensures t.stepIndex == s.stepIndex && t.seekingImmediateMatch == s.seekingImmediateMatch
  {
  }

  /** A state that has not been dealt with is marked. */
  lemma ScanMarks(query: Query, lists: Lists, s0: seq<QueryState>, states: seq<QueryState>, done: seq<QueryState>,
                  j: nat, m: nat, i: nat)
    requires Scanned(query, lists, s0, states, done, j, m) && j <= i < |states|
    requires Justified(lists, s0, states[i].(hasInProgressAlternatives := true))
    ensures Scanned(query, lists, s0, states[i := states[i].(hasInProgressAlternatives := true)], done, j, m)
  {
    hide Settled, Justified, StateOrder, Sorted, UnmarkedOf, MayStay, MayFinish;
    var t := states[i].(hasInProgressAlternatives := true);
    var after := states[i := t];
    forall a, b | 0 <= a < b < |after| && (a < j || (a == j && b < m)) ensures Settled(lists, after[a], after[b]) {
      assert Settled(lists, states[a], states[b]);
      MarkSettles(lists, states[a], states[b], after[a], after[b]);
    }
    forall d, a | 0 <= d < |done| && 0 <= a < |after|
      ensures Settled(lists, done[d], after[a]) || (a < j && Settled(lists, after[a], done[d]))
    {
      assert Settled(lists, done[d], states[a]) || (a < j && Settled(lists, states[a], done[d]));
      if a == i {
        MarkSettles(lists, done[d], states[a], done[d], after[a]);
      }
    }
    MarkedSorted(lists, states, i);
  }

  lemma MarkedSorted(lists: Lists, states: seq<QueryState>, i: nat)
    requires Sorted(states, StateOrder(lists)) && i < |states|
    ensures Sorted(states[i := states[i].(hasInProgressAlternatives := true)], StateOrder(lists))
  {
    var t := states[i].(hasInProgressAlternatives := true);
    var after := states[i := t];
    forall a, b | 0 <= a < b < |after| ensures !StatePrecedes(lists, after[b], after[a]) {
      assert !StateOrder(lists)(states[b], states[a]);
    }
  }

  /** What the comparison says of two states of the pass gives reason for a mark. */
  lemma MarkJustified(lists: Lists, s0: seq<QueryState>, u: QueryState, t: QueryState)
    requires Unmarked(u) in UnmarkedOf(s0) && Unmarked(t) in UnmarkedOf(s0)
    requires SameGroup(u, t) && SaysContains(lists, u, t) && !StandsFor(u, t)
    ensures Justified(lists, s0, t.(hasInProgressAlternatives := true))
  {
    hide Compared;
    var s :| s in s0 && Unmarked(s) == Unmarked(t);
    var v :| v in s0 && Unmarked(v) == Unmarked(u);
    SameUnmarked(s, t);
    SameUnmarked(v, u);
    assert SameGroup(v, s) && SaysContains(lists, v, s) && !StandsFor(v, s);
    assert HasAlternative(lists, s0, s);
    assert Unmarked(t.(hasInProgressAlternatives := true)) == Unmarked(s);
  }

  lemma SameUnmarked(s: QueryState, t: QueryState)
    requires Unmarked(s) == Unmarked(t)
    ensures s.startDepth == t.startDepth && s.patternIndex == t.patternIndex && s.stepIndex == t.stepIndex
    ensures s.captureListId == t.captureListId && s.seekingImmediateMatch == t.seekingImmediateMatch && s.dead == t.dead
  {
    assert s == Unmarked(s).(hasInProgressAlternatives := s.hasInProgressAlternatives);
    assert t == Unmarked(t).(hasInProgressAlternatives := t.hasInProgressAlternatives);
  }

  /** One more pair has been compared and both have stayed. */
  lemma ScanMoves(query: Query, lists: Lists, s0: seq<QueryState>, states: seq<QueryState>, done: seq<QueryState>, j: nat, m: nat)
    requires Scanned(query, lists, s0, states, done, j, m) && j < m < |states| && Settled(lists, states[j], states[m])
    ensures Scanned(query, lists, s0, states, done, j, m + 1)
  {
    hide Settled, Justified, StateOrder, Sorted, UnmarkedOf, MayStay, MayFinish;
  }

  /** Once a state of another group or one that is disjoint is met, so are all that follow. */
  lemma ScanBreaks(query: Query, lists: Lists, s0: seq<QueryState>, states: seq<QueryState>, done: seq<QueryState>, j: nat, m: nat)
    requires Scanned(query, lists, s0, states, done, j, m) && j < m < |states|
    requires !SameGroup(states[j], states[m]) || Disjoint(lists, states[j], states[m])
    ensures Scanned(query, lists, s0, states, done, j, |states|)
  {
    forall b | m <= b < |states| ensures Settled(lists, states[j], states[b]) {
      if b > m {
        assert !StateOrder(lists)(states[b], states[m]);
      }
      assert !StateOrder(lists)(states[m], states[j]);
    }
    hide Settled, Justified, StateOrder, Sorted, UnmarkedOf, MayStay, MayFinish;
  }

  /** A state that has been compared with all that follow stays. */
  lemma ScanPasses(query: Query, lists: Lists, s0: seq<QueryState>, states: seq<QueryState>, done: seq<QueryState>, j: nat)
    requires Scanned(query, lists, s0, states, done, j, |states|) && j < |states| && MayStay(query, states[j])
    ensures Scanned(query, lists, s0, states, done, j + 1, j + 2)
  {
    hide Settled, Justified, StateOrder, Sorted, UnmarkedOf, MayStay, MayFinish;
  }

  /** Or it finishes, under a number. */
  lemma ScanFinishes(query: Query, lists: Lists, s0: seq<QueryState>, states: seq<QueryState>, done: seq<QueryState>, j: nat,
                     t: QueryState)
    requires Scanned(query, lists, s0, states, done, j, |states|) && j < |states| && MayFinish(query, states[j])
    requires t == states[j].(heapInsertOrder := t.heapInsertOrder)
    ensures Scanned(query, lists, s0, Erase(states, j), done + [t], j, j + 1)
  {
    hide Settled, Justified, StateOrder, Sorted, UnmarkedOf, MayStay, Erase;
    ErasedSorted(lists, states, j);
    ErasedMembers(states, j);
    var x, rest, more := states[j], Erase(states, j), done + [t];
    forall d | 0 <= d < |done| ensures Settled(lists, done[d], t) {
      MarkSettles(lists, done[d], x, done[d], t);
    }
    forall a | 0 <= a < |rest| ensures Settled(lists, t, rest[a]) || (a < j && Settled(lists, rest[a], t)) {
      if a < j {
        assert Settled(lists, states[a], x);
        MarkSettles(lists, states[a], x, states[a], t);
      } else {
        assert Settled(lists, x, states[a + 1]);
        MarkSettles(lists, x, states[a + 1], t, states[a + 1]);
      }
    }
    forall d, e | 0 <= d < e < |more| ensures Settled(lists, more[d], more[e]) {
    }
    forall d, a | 0 <= d < |more| && 0 <= a < |rest|
      ensures Settled(lists, more[d], rest[a]) || (a < j && Settled(lists, rest[a], more[d]))
    {
      if d < |done| {
        assert more[d] == done[d];
        assert rest[a] == states[if a < j then a else a + 1];
      }
    }
    forall d | 0 <= d < |more| ensures MayFinish(query, more[d]) {
    }
  }
}
