/**
 * The edit as it is carried out: a worklist of child slots over shared memory, cloning what is
 * shared and changing what is not. It refines the edit of trees and nobody else sees it.
 */
module PoolEdits {
  import opened Options
  import opened Lengths
  import opened Subtrees
  import opened SubtreePools
  import opened Edits
  import opened Ownership

  /** Where a reference is stored: in the caller's variable or in a child slot of a cell. */
  datatype Slot = Root | Child(node: Addr, index: nat)

  datatype Entry = Entry(slot: Slot, edit: Edit)

  predicate SlotOk(s: Store, slot: Slot) {
    slot.Child? ==> IsLive(s, slot.node) && slot.index < |s[slot.node].children|
  }

  function RefAt(s: Store, root: Ref, slot: Slot): Ref
    requires SlotOk(s, slot)
  {
    match slot
    case Root => root
    case Child(n, i) => s[n].children[i]
  }

  /** The slots still to be edited. */
  function Pending(stack: seq<Entry>): map<Slot, Edit> {
    if stack == [] then map[]
    else Pending(stack[..|stack| - 1])[stack[|stack| - 1].slot := stack[|stack| - 1].edit]
  }

  ghost predicate Distinct(stack: seq<Entry>) {
    forall i, j :: 0 <= i < j < |stack| ==> stack[i].slot != stack[j].slot
  }

  /** The tree that will be at a slot once everything pending has been done. */
  ghost function Finish(s: Store, rank: seq<nat>, pend: map<Slot, Edit>, slot: Slot, r: Ref): Tree
    requires Linked(s, rank) && ValidRef(s, r)
    decreases RankOf(rank, r), 0
  {
    if slot in pend then EditTree(View(s, rank, r), pend[slot])
    else
      match r
      case Inline(d) => Tree(d, [])
      case Ptr(a) => Tree(s[a].data, Finishes(s, rank, pend, a))
  }

  ghost function Finishes(s: Store, rank: seq<nat>, pend: map<Slot, Edit>, a: Addr): (ts: seq<Tree>)
    requires Linked(s, rank) && IsLive(s, a)
    ensures |ts| == |s[a].children|
    decreases rank[a], 1
  {
    assert CellLinked(s, rank, a);
    seq(|s[a].children|, i requires 0 <= i < |s[a].children| => Finish(s, rank, pend, Child(a, i), s[a].children[i]))
  }

  /** Pending slots are the caller's variable or in cells of the set, and lead out of it. */
  ghost predicate SlotsOk(s: Store, root: Ref, owned: set<Addr>, pend: map<Slot, Edit>) {
    forall slot :: slot in pend ==>
      && SlotOk(s, slot) && (slot.Child? ==> slot.node in owned)
      && !InSet(RefAt(s, root, slot), owned)
  }

  /** Nothing is pending below a reference that leads out of the set. */
  lemma {:induction false} FinishUnowned(s: Store, rank: seq<nat>, root: Ref, owned: set<Addr>, pend: map<Slot, Edit>,
                                        slot: Slot, r: Ref)
    requires Linked(s, rank) && Closed(s, owned) && SlotsOk(s, root, owned, pend)
    requires ValidRef(s, r) && !InSet(r, owned) && slot !in pend
    ensures Finish(s, rank, pend, slot, r) == View(s, rank, r)
    decreases RankOf(rank, r)
  {
    hide Linked;
    if r.Ptr? {
      var a := r.addr;
      LinkedAt(s, rank, a);
      assert NoKidIn(s, a, owned);
      forall i | 0 <= i < |s[a].children|
        ensures Finish(s, rank, pend, Child(a, i), s[a].children[i]) == View(s, rank, s[a].children[i])
      {
        FinishUnowned(s, rank, root, owned, pend, Child(a, i), s[a].children[i]);
      }
      assert Finishes(s, rank, pend, a) == Views(s, rank, a);
    }
  }

  /** With nothing pending, what will be is what is. */
  lemma {:induction false} FinishNothing(s: Store, rank: seq<nat>, slot: Slot, r: Ref)
    requires Linked(s, rank) && ValidRef(s, r)
    ensures Finish(s, rank, map[], slot, r) == View(s, rank, r)
    decreases RankOf(rank, r)
  {
    hide Linked;
    if r.Ptr? {
      LinkedAt(s, rank, r.addr);
      forall i | 0 <= i < |s[r.addr].children|
        ensures Finish(s, rank, map[], Child(r.addr, i), s[r.addr].children[i]) == View(s, rank, s[r.addr].children[i])
      {
        FinishNothing(s, rank, Child(r.addr, i), s[r.addr].children[i]);
      }
      assert Finishes(s, rank, map[], r.addr) == Views(s, rank, r.addr);
    }
  }

  // ----- one step -----------------------------------------------------------------------------

  /** `t` has `r'` where `s` has `r`: in the caller's variable or in a child slot. */
  ghost predicate Rewritten(s: Store, root: Ref, t: Store, root': Ref, slot: Slot, r': Ref) {
    && SlotOk(s, slot)
    && match slot
       case Root => t == s && root' == r'
       case Child(n, i) => t == SetKid(s, n, i, r') && root' == root
  }

  /**
   * Everything that is known between two steps of an edit of `root`, the handles in `keep` being
   * held by others.
   */
  ghost predicate EditInvariant(s: Store, rank: seq<nat>, root: Ref, owned: set<Addr>, pend: map<Slot, Edit>,
                                keep: multiset<Ref>)
  {
    && Linked(s, rank) && Counted(s, keep + multiset{root}, multiset{}) && NoneDead(s)
    && Owned(s, owned, keep) && SlotsOk(s, root, owned, pend)
  }

  function Cells(r: Ref): set<Addr> { if r.Ptr? then {r.addr} else {} }

  function KidsAt(s: Store, r: Ref): seq<Ref>
    requires ValidRef(s, r)
  {
    if r.Ptr? then s[r.addr].children else []
  }

  /**
   * A version of `r` has been made that may be changed: `m`, which holds `d`. It is owned by
   * nobody yet, and `r` has been given up.
   */
  ghost predicate MadeMutable(s: Store, rank: seq<nat>, t: Store, rank': seq<nat>, r: Ref, m: Ref, d: Data,
                              handles: multiset<Ref>)
    requires Linked(s, rank) && ValidRef(s, r)
  {
    && Linked(t, rank') && NoneDead(t) && Counted(t, handles + multiset{m}, multiset{r})
    && AgreeOutside(s, t, Cells(m))
    && (forall a: Addr :: IsLive(s, a) ==> a < |rank'| && rank'[a] == rank[a])
    && (forall a: Addr :: IsLive(t, a) && !IsLive(s, a) ==> m == Ptr(a))
    && ValidRef(t, m) && RefData(t, m) == d && RankOf(rank', m) <= RankOf(rank, r)
    && KidsAt(t, m) == KidsAt(s, r)
    && (m.Ptr? ==> t[m.addr].refCount == 1)
    && (forall a: Addr :: IsLive(s, a) && IsLive(t, a) && Ptr(a) != r && Ptr(a) !in KidsAt(s, r) ==>
          t[a].refCount == s[a].refCount)
    && (m.Ptr? && IsLive(s, m.addr) ==> m == r)
  }

  /** The pending slot of a cell in the set is not itself in the cell that was made mutable. */
  lemma SlotStays(s: Store, rank: seq<nat>, t: Store, rank': seq<nat>, root: Ref, owned: set<Addr>,
                  pend: map<Slot, Edit>, keep: multiset<Ref>, slot: Slot, m: Ref, d: Data)
    requires EditInvariant(s, rank, root, owned, pend, keep) && slot in pend
    requires ValidRef(s, RefAt(s, root, slot))
    requires MadeMutable(s, rank, t, rank', RefAt(s, root, slot), m, d, keep + multiset{root})
    ensures m.Ptr? ==> m.addr !in owned
    ensures SlotOk(t, slot) && RefAt(t, root, slot) == RefAt(s, root, slot)
    ensures slot.Child? ==> !InSet(m, {slot.node}) && rank'[slot.node] == rank[slot.node] && slot.node < |s|
    ensures slot.Child? ==> RankOf(rank, RefAt(s, root, slot)) <= rank[slot.node]
  {
    hide Counted, NoneDead;
    if slot.Child? {
      LinkedAt(s, rank, slot.node);
    }
  }

  lemma RewrittenEdges(t: Store, root: Ref, u: Store, root': Ref, slot: Slot, m: Ref)
    requires Rewritten(t, root, u, root', slot, m)
    ensures SameButKids(t, u) && SlotOk(t, slot)
    ensures Edges(u) + multiset{root'} + multiset{RefAt(t, root, slot)} == Edges(t) + multiset{root} + multiset{m}
  {
    if slot.Child? {
      SetKidEdges(t, slot.node, slot.index, m);
      AddBoth(Edges(u), Edges(t), RefAt(t, root, slot), m, root);
    }
  }

  lemma AddBoth<T>(a: multiset<T>, b: multiset<T>, x: T, y: T, z: T)
    requires a + multiset{x} == b + multiset{y}
    ensures a + multiset{z} + multiset{x} == b + multiset{z} + multiset{y}
  {
    assert a + multiset{z} + multiset{x} == a + multiset{x} + multiset{z};
    assert b + multiset{z} + multiset{y} == b + multiset{y} + multiset{z};
  }

  ghost predicate SameButKids(t: Store, u: Store) {
    && |t| == |u|
    && forall a: Addr :: a < |t| ==>
         t[a].Live? == u[a].Live? && (t[a].Live? ==> t[a].refCount == u[a].refCount && t[a].data == u[a].data)
  }

  lemma RewrittenCounted(t: Store, root: Ref, u: Store, root': Ref, slot: Slot, m: Ref, keep: multiset<Ref>)
    requires Rewritten(t, root, u, root', slot, m) && NoneDead(t) && ValidRef(t, m)
    requires Counted(t, keep + multiset{root} + multiset{m}, multiset{RefAt(t, root, slot)})
    ensures Counted(u, keep + multiset{root'}, multiset{}) && NoneDead(u)
  {
    hide Edges, EdgesBelow, Rewritten, SlotOk, RefAt;
    RewrittenEdges(t, root, u, root', slot, m);
    RewrittenValid(t, root, u, root', slot, m, keep);
    var r := RefAt(t, root, slot);
    forall a: Addr | IsLive(u, a)
      ensures u[a].refCount == Edges(u)[Ptr(a)] + (keep + multiset{root'})[Ptr(a)] && u[a].refCount > 0
    {
      CountMovesAt(t, u, keep, root, root', r, m, a);
    }
  }

  lemma CountMovesAt(t: Store, u: Store, keep: multiset<Ref>, root: Ref, root': Ref, r: Ref, m: Ref, a: Addr)
    requires SameButKids(t, u) && IsLive(u, a) && NoneDead(t)
    requires Counted(t, keep + multiset{root} + multiset{m}, multiset{r})
    requires Edges(u) + multiset{root'} + multiset{r} == Edges(t) + multiset{root} + multiset{m}
    ensures u[a].refCount == Edges(u)[Ptr(a)] + (keep + multiset{root'})[Ptr(a)] && u[a].refCount > 0
  {
    hide EdgesBelow;
    assert IsLive(t, a);
    CountMoves(Edges(t), Edges(u), keep, root, root', r, m, Ptr(a), t[a].refCount);
  }

  lemma RewrittenValid(t: Store, root: Ref, u: Store, root': Ref, slot: Slot, m: Ref, keep: multiset<Ref>)
    requires Rewritten(t, root, u, root', slot, m) && ValidRef(t, m)
    requires forall q :: q in keep + multiset{root} + multiset{m} ==> ValidRef(t, q)
    ensures forall q :: q in keep + multiset{root'} ==> ValidRef(u, q)
  {
    forall q | q in keep + multiset{root'} ensures ValidRef(u, q) {
      assert q in keep + multiset{root} + multiset{m} && ValidRef(t, q);
    }
  }

  lemma CountMoves<T>(before: multiset<T>, after: multiset<T>, keep: multiset<T>, root: T, root': T, r: T, m: T, p: T, n: nat)
    requires after + multiset{root'} + multiset{r} == before + multiset{root} + multiset{m}
    requires n + multiset{r}[p] == before[p] + (keep + multiset{root} + multiset{m})[p]
    ensures n == after[p] + (keep + multiset{root'})[p]
  {
    assert (after + multiset{root'} + multiset{r})[p] == (before + multiset{root} + multiset{m})[p];
  }

  lemma RewrittenLinked(t: Store, rank: seq<nat>, root: Ref, u: Store, root': Ref, slot: Slot, m: Ref)
    requires Rewritten(t, root, u, root', slot, m) && Linked(t, rank) && ValidRef(t, m)
    requires slot.Child? ==> RankOf(rank, m) <= rank[slot.node]
    ensures Linked(u, rank)
  {
    forall a: Addr | IsLive(u, a) ensures CellLinked(u, rank, a) {
      assert CellLinked(t, rank, a);
      forall i | 0 <= i < |u[a].children|
        ensures ValidRef(u, u[a].children[i]) && RankOf(rank, u[a].children[i]) <= rank[a]
      {
        assert u[a].children[i] == m || u[a].children[i] == t[a].children[i];
        assert ValidRef(t, u[a].children[i]);
      }
    }
  }

  /** A reference counted once sits only in the slot it was written to. */
  lemma SoleWritten(t: Store, root: Ref, u: Store, root': Ref, slot: Slot, m: Ref, keep: multiset<Ref>)
    requires Rewritten(t, root, u, root', slot, m) && Counted(u, keep + multiset{root'}, multiset{})
    requires m.Ptr? && IsLive(u, m.addr) && u[m.addr].refCount == 1
    ensures m !in keep
    ensures forall other :: SlotOk(u, other) && other != slot ==> RefAt(u, root', other) != m
  {
    match slot
    case Root => SoleHandle(u, keep, m);
    case Child(n, i) =>
      SoleSlot(u, keep + multiset{root'}, n, i);
      assert root' in keep + multiset{root'};
  }

  /** A step: `m` has been made from the reference in a pending slot and written there. */
  ghost predicate Step(s: Store, rank: seq<nat>, t: Store, rank': seq<nat>, u: Store, root: Ref, root': Ref,
                       owned: set<Addr>, pend: map<Slot, Edit>, keep: multiset<Ref>, slot: Slot, m: Ref, d: Data)
  {
    && EditInvariant(s, rank, root, owned, pend, keep) && slot in pend
    && ValidRef(s, RefAt(s, root, slot))
    && MadeMutable(s, rank, t, rank', RefAt(s, root, slot), m, d, keep + multiset{root})
    && Rewritten(t, root, u, root', slot, m)
  }

  lemma HandleIsValid(s: Store, keep: multiset<Ref>, r: Ref, uncounted: multiset<Ref>)
    requires Counted(s, keep + multiset{r}, uncounted)
    ensures ValidRef(s, r)
  {
    assert r in keep + multiset{r};
  }

  lemma StepCounted(s: Store, rank: seq<nat>, t: Store, rank': seq<nat>, u: Store, root: Ref, root': Ref,
                    owned: set<Addr>, pend: map<Slot, Edit>, keep: multiset<Ref>, slot: Slot, m: Ref, d: Data)
    requires Step(s, rank, t, rank', u, root, root', owned, pend, keep, slot, m, d)
    ensures Linked(u, rank') && Counted(u, keep + multiset{root'}, multiset{}) && NoneDead(u)
    ensures SlotOk(s, slot) && ValidRef(s, root) && ValidRef(u, root')
    ensures m.Ptr? ==> m.addr !in owned && m !in keep && IsLive(u, m.addr)
    ensures m.Ptr? ==> forall other :: SlotOk(u, other) && other != slot ==> RefAt(u, root', other) != m
  {
    SlotStays(s, rank, t, rank', root, owned, pend, keep, slot, m, d);
    hide Linked, Counted, NoneDead, Owned, SlotsOk;
    RewrittenCounted(t, root, u, root', slot, m, keep);
    RewrittenLinked(t, rank', root, u, root', slot, m);
    HandleIsValid(s, keep, root, multiset{});
    HandleIsValid(u, keep, root', multiset{});
    if m.Ptr? {
      SoleWritten(t, root, u, root', slot, m, keep);
    }
  }

  lemma StepOwned(s: Store, rank: seq<nat>, t: Store, rank': seq<nat>, u: Store, root: Ref, root': Ref,
                  owned: set<Addr>, pend: map<Slot, Edit>, keep: multiset<Ref>, slot: Slot, m: Ref, d: Data)
    requires Step(s, rank, t, rank', u, root, root', owned, pend, keep, slot, m, d)
    ensures forall a: Addr :: a in owned + Cells(m) ==> IsLive(u, a) && u[a].refCount == 1 && Ptr(a) !in keep
  {
    hide Linked, Counted, NoneDead;
    StepCounted(s, rank, t, rank', u, root, root', owned, pend, keep, slot, m, d);
    var r := RefAt(s, root, slot);
    forall a: Addr | a in owned + Cells(m) ensures IsLive(u, a) && u[a].refCount == 1 && Ptr(a) !in keep {
      if a in owned {
        assert IsLive(s, a) && s[a].refCount == 1;
        assert Ptr(a) != r && Ptr(a) !in KidsAt(s, r) by {
          if r.Ptr? {
            assert NoKidIn(s, r.addr, owned);
          }
        }
      }
    }
  }

  lemma StepClosed(s: Store, rank: seq<nat>, t: Store, rank': seq<nat>, u: Store, root: Ref, root': Ref,
                   owned: set<Addr>, pend: map<Slot, Edit>, keep: multiset<Ref>, slot: Slot, m: Ref, d: Data)
    requires Step(s, rank, t, rank', u, root, root', owned, pend, keep, slot, m, d)
    ensures Closed(u, owned + Cells(m))
    ensures AgreeOutside(s, u, owned + Cells(m)) && AgreeOutside(u, s, owned + Cells(m))
  {
    hide Linked, Counted, NoneDead, EdgesBelow;
    StepCounted(s, rank, t, rank', u, root, root', owned, pend, keep, slot, m, d);
    forall a: Addr | IsLive(u, a) && a !in owned + Cells(m) ensures NoKidIn(u, a, owned + Cells(m)) {
      assert IsLive(s, a) && NoKidIn(s, a, owned);
      forall i | 0 <= i < |u[a].children| ensures !InSet(u[a].children[i], owned + Cells(m)) {
        assert u[a].children[i] == s[a].children[i];
        assert SlotOk(u, Child(a, i)) && Child(a, i) != slot;
        assert RefAt(u, root', Child(a, i)) == u[a].children[i];
      }
    }
  }

  /** The other pending slots keep their references, which still lead out of the owned cells. */
  lemma StepSlots(s: Store, rank: seq<nat>, t: Store, rank': seq<nat>, u: Store, root: Ref, root': Ref,
                  owned: set<Addr>, pend: map<Slot, Edit>, keep: multiset<Ref>, slot: Slot, m: Ref, d: Data)
    requires Step(s, rank, t, rank', u, root, root', owned, pend, keep, slot, m, d)
    ensures SlotsOk(u, root', owned + Cells(m), pend - {slot})
    ensures forall other :: other in pend && other != slot ==>
              SlotOk(s, other) && SlotOk(u, other) && RefAt(u, root', other) == RefAt(s, root, other)
  {
    hide Linked, Counted, NoneDead, EdgesBelow;
    StepCounted(s, rank, t, rank', u, root, root', owned, pend, keep, slot, m, d);
    forall other | other in pend && other != slot
      ensures SlotOk(s, other) && SlotOk(u, other) && RefAt(u, root', other) == RefAt(s, root, other)
    {
      if other.Child? {
        assert IsLive(s, other.node);
      }
    }
  }

  /** The children of the new cell are those of the old, and lead out of the owned cells. */
  lemma StepChildren(s: Store, rank: seq<nat>, t: Store, rank': seq<nat>, u: Store, root: Ref, root': Ref,
                     owned: set<Addr>, pend: map<Slot, Edit>, keep: multiset<Ref>, slot: Slot, m: Ref, d: Data)
    requires Step(s, rank, t, rank', u, root, root', owned, pend, keep, slot, m, d)
    ensures ValidRef(u, m) && RefData(u, m) == d && SlotOk(u, slot) && RefAt(u, root', slot) == m
    ensures KidsAt(u, m) == KidsAt(s, RefAt(s, root, slot))
    ensures forall i :: 0 <= i < |KidsAt(u, m)| ==>
              !InSet(KidsAt(u, m)[i], owned + Cells(m)) && ValidRef(s, KidsAt(u, m)[i])
  {
    hide Linked, Counted, NoneDead;
    StepCounted(s, rank, t, rank', u, root, root', owned, pend, keep, slot, m, d);
    var r := RefAt(s, root, slot);
    if m.Ptr? {
      LinkedAt(u, rank', m.addr);
      if r.Ptr? {
        LinkedAt(s, rank, r.addr);
        assert NoKidIn(s, r.addr, owned);
      }
    }
  }

  // ----- what a step leaves to be done ---------------------------------------------------------

  /** The pending slots once the one at `slot` has been replaced by those of its children. */
  ghost function AfterStep(pend: map<Slot, Edit>, slot: Slot, m: Ref, es: seq<Option<Edit>>): map<Slot, Edit> {
    (pend - {slot}) + if m.Ptr? then ChildrenPending(m.addr, es, |es|) else map[]
  }

  ghost function ChildrenPending(a: Addr, es: seq<Option<Edit>>, n: nat): map<Slot, Edit>
    requires n <= |es|
  {
    map i | 0 <= i < n && es[i].Some? :: Child(a, i) := es[i].value
  }

  /** The surroundings of a step, as far as the trees to come depend on them. */
  ghost predicate Surrounds(s: Store, rank: seq<nat>, root: Ref, owned: set<Addr>, pend: map<Slot, Edit>,
                            u: Store, rank': seq<nat>, root': Ref, owned': set<Addr>, pend': map<Slot, Edit>)
  {
    && Linked(s, rank) && Closed(s, owned) && SlotsOk(s, root, owned, pend)
    && Linked(u, rank') && Closed(u, owned') && SlotsOk(u, root', owned', pend')
    && AgreeOutside(u, s, owned')
  }

  lemma SurroundedView(s: Store, rank: seq<nat>, root: Ref, owned: set<Addr>, pend: map<Slot, Edit>,
                       u: Store, rank': seq<nat>, root': Ref, owned': set<Addr>, pend': map<Slot, Edit>,
                       slot: Slot, r: Ref)
    requires Surrounds(s, rank, root, owned, pend, u, rank', root', owned', pend')
    requires ValidRef(u, r) && !InSet(r, owned')
    ensures ValidRef(s, r) && View(u, rank', r) == View(s, rank, r)
    ensures slot !in pend' ==> Finish(u, rank', pend', slot, r) == View(s, rank, r)
  {
    hide Linked, Closed, SlotsOk, AgreeOutside, View, Finish;
    UnownedView(u, rank', s, rank, owned', r);
    if slot !in pend' {
      FinishUnowned(u, rank', root', owned', pend', slot, r);
    }
  }

  /** At the slot of the step, the new cell and its pending children amount to the edited tree. */
  lemma FinishHere(s: Store, rank: seq<nat>, root: Ref, owned: set<Addr>, pend: map<Slot, Edit>,
                   u: Store, rank': seq<nat>, root': Ref, owned': set<Addr>, pend': map<Slot, Edit>,
                   slot: Slot, r: Ref, m: Ref, e: Edit, es: seq<Option<Edit>>)
    requires Surrounds(s, rank, root, owned, pend, u, rank', root', owned', pend')
    requires ValidRef(s, r) && ValidRef(u, m) && KidsAt(u, m) == KidsAt(s, r)
    requires slot !in pend'
    requires !Skips(RefData(s, r), e) && RefData(u, m) == EditData(RefData(s, r), e)
    requires forall i :: 0 <= i < |KidsAt(u, m)| ==>
               !InSet(KidsAt(u, m)[i], owned') && ValidRef(s, KidsAt(u, m)[i]) && ValidRef(u, KidsAt(u, m)[i])
    requires es == EditsOf(RefData(s, r), RefDatas(s, KidsAt(s, r)), e)
    requires m.Ptr? ==> forall i :: 0 <= i < |es| ==>
               if es[i].Some? then Child(m.addr, i) in pend' && pend'[Child(m.addr, i)] == es[i].value
               else Child(m.addr, i) !in pend'
    ensures Finish(u, rank', pend', slot, m) == EditTree(View(s, rank, r), e)
  {
    hide Linked, Closed, SlotsOk, AgreeOutside, EditData, Skips, EditsOf;
    var kids, t := KidsAt(s, r), View(s, rank, r);
    if r.Ptr? {
      ViewsOf(s, rank, r.addr);
    }
    assert Datas(t.children) == RefDatas(s, kids);
    if m.Ptr? {
      var result := EditTree(t, e);
      forall i | 0 <= i < |kids| ensures Finishes(u, rank', pend', m.addr)[i] == result.children[i] {
        SurroundedView(s, rank, root, owned, pend, u, rank', root', owned', pend', Child(m.addr, i), kids[i]);
        assert t.children[i] == View(s, rank, kids[i]);
        assert result.children[i] == EditChild(t.children[i], es[i]);
        assert Finishes(u, rank', pend', m.addr)[i] == Finish(u, rank', pend', Child(m.addr, i), kids[i]);
        assert Finish(u, rank', pend', Child(m.addr, i), kids[i]) == EditChild(View(u, rank', kids[i]), es[i]);
      }
      assert Finishes(u, rank', pend', m.addr) == result.children;
    }
  }

  lemma ViewsOf(s: Store, rank: seq<nat>, a: Addr)
    requires Linked(s, rank) && IsLive(s, a)
    ensures forall i :: 0 <= i < |s[a].children| ==> ValidRef(s, s[a].children[i])
    ensures forall i :: 0 <= i < |s[a].children| ==> Views(s, rank, a)[i] == View(s, rank, s[a].children[i])
    ensures Datas(Views(s, rank, a)) == RefDatas(s, s[a].children)
  {
    LinkedAt(s, rank, a);
    hide Linked;
  }

  /** The cells owned before a step keep their data and all their slots but the one written to. */
  ghost predicate OwnedKept(s: Store, root: Ref, u: Store, root': Ref, owned: set<Addr>, slot: Slot, m: Ref) {
    && root' == (if slot.Root? then m else root)
    && forall a :: a in owned ==>
         && IsLive(s, a) && IsLive(u, a) && u[a].data == s[a].data && |u[a].children| == |s[a].children|
         && forall i :: 0 <= i < |s[a].children| ==>
              u[a].children[i] == if slot == Child(a, i) then m else s[a].children[i]
  }

  ghost predicate PendingElsewhere(pend: map<Slot, Edit>, pend': map<Slot, Edit>, slot: Slot, m: Ref) {
    forall x: Slot :: x != slot && (x.Child? ==> x.node !in Cells(m)) ==>
      (x in pend <==> x in pend') && (x in pend ==> pend[x] == pend'[x])
  }

  ghost predicate SoleAt(u: Store, root': Ref, slot: Slot, m: Ref) {
    m.Ptr? ==> forall other :: SlotOk(u, other) && other != slot ==> RefAt(u, root', other) != m
  }

  /** A step changes nothing about the tree that will be there in the end. */
  lemma {:induction false} FinishElsewhere(s: Store, rank: seq<nat>, root: Ref, owned: set<Addr>, pend: map<Slot, Edit>,
                                          u: Store, rank': seq<nat>, root': Ref, owned': set<Addr>, pend': map<Slot, Edit>,
                                          slot: Slot, m: Ref, at: Slot, r: Ref, q: Ref)
    requires Surrounds(s, rank, root, owned, pend, u, rank', root', owned', pend')
    requires OwnedKept(s, root, u, root', owned, slot, m) && PendingElsewhere(pend, pend', slot, m)
    requires owned' == owned + Cells(m) && SoleAt(u, root', slot, m) && (m.Ptr? ==> m.addr !in owned)
    requires slot in pend && SlotOk(s, slot) && ValidRef(s, RefAt(s, root, slot)) && ValidRef(u, m)
    requires Finish(u, rank', pend', slot, m) == EditTree(View(s, rank, RefAt(s, root, slot)), pend[slot])
    requires SlotOk(s, at) && SlotOk(u, at) && (at.Child? ==> at.node in owned)
    requires ValidRef(s, r) && ValidRef(u, q) && r == RefAt(s, root, at) && q == RefAt(u, root', at)
    ensures Finish(u, rank', pend', at, q) == Finish(s, rank, pend, at, r)
    decreases RankOf(rank, r)
  {
    hide Linked, Closed, SlotsOk, AgreeOutside, View;
    if at != slot {
      assert q == r && !InSet(q, Cells(m)) by {
        if at.Child? {
          assert IsLive(s, at.node);
        }
      }
      if r.Ptr? && r.addr in owned {
        SlotsLeadOut(s, root, owned, pend, at);
        LinkedAt(s, rank, r.addr);
        LinkedAt(u, rank', r.addr);
        forall i | 0 <= i < |s[r.addr].children|
          ensures Finishes(u, rank', pend', r.addr)[i] == Finishes(s, rank, pend, r.addr)[i]
        {
          FinishElsewhere(s, rank, root, owned, pend, u, rank', root', owned', pend', slot, m,
                          Child(r.addr, i), s[r.addr].children[i], u[r.addr].children[i]);
        }
        assert Finishes(u, rank', pend', r.addr) == Finishes(s, rank, pend, r.addr);
      } else {
        SurroundedView(s, rank, root, owned, pend, u, rank', root', owned', pend', at, r);
        if at !in pend {
          FinishUnowned(s, rank, root, owned, pend, at, r);
        }
      }
    }
  }

  lemma SlotsLeadOut(s: Store, root: Ref, owned: set<Addr>, pend: map<Slot, Edit>, at: Slot)
    requires SlotsOk(s, root, owned, pend) && SlotOk(s, at) && InSet(RefAt(s, root, at), owned)
    ensures at !in pend
  {
  }

  // ----- making a node mutable ----------------------------------------------------------------

  lemma MadeInline(s: Store, rank: seq<nat>, r: Ref, d: Data, handles: multiset<Ref>)
    requires Linked(s, rank) && Counted(s, handles, multiset{}) && NoneDead(s) && ValidRef(s, r)
    requires r.Inline? && InlineOk(d)
    ensures MadeMutable(s, rank, s, rank, r, Inline(d), d, handles)
  {
  }

  lemma MadeLeaf(s: Store, rank: seq<nat>, t: Store, rank': seq<nat>, r: Ref, a: Addr, d: Data, handles: multiset<Ref>)
    requires Linked(s, rank) && ValidRef(s, r) && r.Inline? && NewLeafAt(s, rank, t, rank', a, d)
    requires Linked(t, rank') && NoneDead(t) && Counted(t, handles + multiset{Ptr(a)}, multiset{})
    ensures MadeMutable(s, rank, t, rank', r, Ptr(a), d, handles)
  {
    hide Linked, CellLinked, InlineOk;
    forall b: Addr | IsLive(t, b)
      ensures t[b].refCount + multiset{r}[Ptr(b)] == Edges(t)[Ptr(b)] + (handles + multiset{Ptr(a)})[Ptr(b)]
    {
    }
    assert Counted(t, handles + multiset{Ptr(a)}, multiset{r});
    assert |rank'| == |t| && |rank| == |s| by {
      LinkedSizes(s, rank);
      LinkedSizes(t, rank');
    }
  }

  lemma LinkedSizes(s: Store, rank: seq<nat>)
    requires Linked(s, rank)
    ensures |rank| == |s|
  {
  }

  lemma MadeInPlace(s: Store, rank: seq<nat>, a: Addr, d: Data, handles: multiset<Ref>)
    requires Linked(s, rank) && Counted(s, handles, multiset{}) && NoneDead(s)
    requires IsLive(s, a) && s[a].refCount == 1 && !d.inline && d.childCount == s[a].data.childCount
    ensures MadeMutable(s, rank, WithData(s, a, d), rank, Ptr(a), Ptr(a), d, handles)
  {
    WithDataKeeps(s, rank, a, d);
    LinkedSizes(s, rank);
    hide Linked, CellLinked, InlineOk, EdgesBelow;
    var t := WithData(s, a, d);
    forall b: Addr | IsLive(t, b)
      ensures t[b].refCount + multiset{Ptr(a)}[Ptr(b)] == Edges(t)[Ptr(b)] + (handles + multiset{Ptr(a)})[Ptr(b)]
      ensures t[b].refCount > 0
    {
      assert IsLive(s, b);
    }
    forall q | q in handles + multiset{Ptr(a)} ensures ValidRef(t, q) {
      assert q != Ptr(a) ==> ValidRef(s, q);
    }
  }

  lemma MadeByCloning(s: Store, rank: seq<nat>, a: Addr, t: Store, rank': seq<nat>, d: Data, handles: multiset<Ref>)
    requires Linked(s, rank) && Counted(s, handles, multiset{}) && NoneDead(s)
    requires IsLive(s, a) && s[a].refCount > 1 && CellLinked(s, rank, a)
    requires t == CloneShared(s, a) && rank' == rank + [rank[a]]
    requires !d.inline && d.childCount == s[a].data.childCount
    ensures IsLive(t, |s|) && t[|s|].data == s[a].data
    ensures MadeMutable(s, rank, WithData(t, |s|, d), rank', Ptr(a), Ptr(|s|), d, handles)
  {
    hide Linked, Counted, NoneDead, CloneShared, CellLinked, InlineOk;
    LinkedSizes(s, rank);
    CloneSharedFacts(s, rank, a);
    var n, u := Ptr(|s|), WithData(t, |s|, d);
    CloneSharedCounts(s, rank, a, handles, multiset{});
    CloneSharedCellCounts(s, rank, a, |s|);
    WithDataKeeps(t, rank', |s|, d);
    WithDataCounted(t, |s|, d, handles + multiset{n}, multiset{} + multiset{Ptr(a)});
    assert multiset{} + multiset{Ptr(a)} == multiset{Ptr(a)};
    forall b: Addr | IsLive(s, b) && IsLive(u, b) && Ptr(b) != Ptr(a) && Ptr(b) !in s[a].children
      ensures u[b].refCount == s[b].refCount
    {
      CloneSharedCellCounts(s, rank, a, b);
    }
    forall b: Addr | IsLive(u, b) && !IsLive(s, b) ensures n == Ptr(b) {
      CloneSharedCellCounts(s, rank, a, b);
    }
  }

  lemma WithDataCounted(t: Store, a: Addr, d: Data, handles: multiset<Ref>, uncounted: multiset<Ref>)
    requires IsLive(t, a) && Counted(t, handles, uncounted) && NoneDead(t) && Edges(WithData(t, a, d)) == Edges(t)
    ensures Counted(WithData(t, a, d), handles, uncounted) && NoneDead(WithData(t, a, d))
  {
    var u := WithData(t, a, d);
    hide EdgesBelow;
    forall b: Addr | IsLive(u, b)
      ensures u[b].refCount + uncounted[Ptr(b)] == Edges(u)[Ptr(b)] + handles[Ptr(b)] && u[b].refCount > 0
    {
      assert IsLive(t, b);
    }
    forall q | q in handles || q in uncounted ensures ValidRef(u, q) {
      assert ValidRef(t, q);
    }
  }

  /** Give the node at `r` its new padding and size, in a version of it that may be changed. */
  method MakeResized(pool: SubtreePool, r: Ref, e: Edit, ghost handles: multiset<Ref>) returns (m: Ref)
    requires pool.Valid(handles) && ValidRef(pool.store, r)
    modifies pool
    ensures pool.Consistent() && ValidRef(old(pool.store), r)
    ensures MadeMutable(old(pool.store), old(pool.rank), pool.store, pool.rank, r, m,
                        EditData(RefData(old(pool.store), r), e), handles)
  {
    hide Linked, Counted, NoneDead, FreeListOk, CellLinked, MadeMutable, CloneShared, View, Views;
    ghost var s, rank := pool.store, pool.rank;
    var d := RefData(pool.store, r);
    var padding, size, total := d.padding, d.size, d.Total();
    if e.oldEnd.bytes <= padding.bytes {
      padding := Add(e.newEnd, Sub(padding, e.oldEnd));
    } else if e.start.bytes < padding.bytes {
      size := SaturatingSub(size, Sub(e.oldEnd, padding));
      padding := e.newEnd;
    } else if e.start.bytes < total.bytes || (e.start.bytes == total.bytes && e.IsPureInsertion()) {
      size := Add(Sub(e.newEnd, padding), SaturatingSub(total, e.oldEnd));
    }
    hide PointAdd, PointSub;
    assert (padding, size) == Reshape(d, e);
    var d' := Resized(d, padding, size);
    RefIsLinked(s, rank, r, handles);
    m := pool.MakeMut(r, handles - multiset{r});
    if m.Inline? {
      if CanInline(padding, size, d.lookaheadBytes) {
        m := Inline(d');
        MadeInline(s, rank, r, d', handles);
      } else {
        var a := pool.Allocate(d', handles);
        m := Ptr(a);
        MadeLeaf(s, rank, pool.store, pool.rank, r, a, d', handles);
      }
    } else {
      if s[r.addr].refCount == 1 {
        MadeInPlace(s, rank, r.addr, d', handles);
      } else {
        MadeByCloning(s, rank, r.addr, pool.store, pool.rank, d', handles);
      }
      WithDataKeeps(pool.store, pool.rank, m.addr, d');
      WithDataKeepsFreeList(pool.store, m.addr, d', pool.freeTrees);
      pool.store := WithData(pool.store, m.addr, d');
    }
  }

  lemma RefIsLinked(s: Store, rank: seq<nat>, r: Ref, handles: multiset<Ref>)
    requires Linked(s, rank) && ValidRef(s, r) && NoneDead(s)
    ensures match r
            case Inline(d) => InlineOk(d)
            case Ptr(a) => CellLinked(s, rank, a) && !s[a].data.inline && s[a].refCount > 0
  {
    if r.Ptr? {
      LinkedAt(s, rank, r.addr);
    }
  }

  lemma WithDataKeepsFreeList(s: Store, a: Addr, d: Data, free: seq<Addr>)
    requires FreeListOk(s, free) && IsLive(s, a)
    ensures FreeListOk(WithData(s, a, d), free)
  {
  }

  // ----- the worklist --------------------------------------------------------------------------

  /** The entries queued for the first `n` children of the cell at `a`, in order. */
  function Queued(a: Addr, es: seq<Option<Edit>>, n: nat): seq<Entry>
    requires n <= |es|
  {
    if n == 0 then []
    else Queued(a, es, n - 1) + if es[n - 1].Some? then [Entry(Child(a, n - 1), es[n - 1].value)] else []
  }

  lemma {:induction false} PendingMembers(stack: seq<Entry>)
    ensures forall slot :: slot in Pending(stack) <==> exists i :: 0 <= i < |stack| && stack[i].slot == slot
  {
    if stack != [] {
      PendingMembers(stack[..|stack| - 1]);
      forall slot ensures slot in Pending(stack) <==> exists i :: 0 <= i < |stack| && stack[i].slot == slot {
        if slot in Pending(stack[..|stack| - 1]) {
          var i :| 0 <= i < |stack| - 1 && stack[..|stack| - 1][i].slot == slot;
          assert stack[i].slot == slot;
        }
      }
    }
  }

  lemma PopPending(stack: seq<Entry>)
    requires stack != [] && Distinct(stack)
    ensures var rest, last := stack[..|stack| - 1], stack[|stack| - 1];
            && last.slot in Pending(stack) && Pending(stack)[last.slot] == last.edit
            && Pending(rest) == Pending(stack) - {last.slot} && Distinct(rest)
  {
    PendingMembers(stack[..|stack| - 1]);
  }

  lemma OneMorePending(a: Addr, es: seq<Option<Edit>>, n: nat, rest: map<Slot, Edit>)
    requires n < |es|
    ensures Child(a, n) !in ChildrenPending(a, es, n)
    ensures rest + ChildrenPending(a, es, n + 1)
         == if es[n].Some? then (rest + ChildrenPending(a, es, n))[Child(a, n) := es[n].value]
            else rest + ChildrenPending(a, es, n)
  {
    var more, less := ChildrenPending(a, es, n + 1), ChildrenPending(a, es, n);
    assert more.Keys == if es[n].Some? then less.Keys + {Child(a, n)} else less.Keys;
    assert forall slot :: slot in less ==> more[slot] == less[slot];
  }

  lemma PushPending(stack: seq<Entry>, entry: Entry)
    ensures Pending(stack + [entry]) == Pending(stack)[entry.slot := entry.edit]
    ensures Distinct(stack) && entry.slot !in Pending(stack) ==> Distinct(stack + [entry])
  {
    assert (stack + [entry])[..|stack|] == stack;
    PendingMembers(stack);
  }

  /** Queueing the children's entries adds exactly their slots to what is pending. */
  lemma {:induction false} PushQueued(rest: seq<Entry>, a: Addr, es: seq<Option<Edit>>, n: nat)
    requires n <= |es| && Distinct(rest)
    requires forall slot :: slot in Pending(rest) ==> slot.Root? || slot.node != a
    ensures var stack := rest + Queued(a, es, n);
            Distinct(stack) && Pending(stack) == Pending(rest) + ChildrenPending(a, es, n)
  {
    hide Distinct, Pending, ChildrenPending;
    if n == 0 {
      NoChildrenPending(a, es, rest);
    } else {
      PushQueued(rest, a, es, n - 1);
      OneMorePending(a, es, n - 1, Pending(rest));
      var before := rest + Queued(a, es, n - 1);
      if es[n - 1].Some? {
        var entry := Entry(Child(a, n - 1), es[n - 1].value);
        PushPending(before, entry);
        assert entry.slot !in Pending(before);
        assert rest + Queued(a, es, n) == before + [entry];
      } else {
        assert rest + Queued(a, es, n) == before;
      }
    }
  }

  lemma NoChildrenPending(a: Addr, es: seq<Option<Edit>>, rest: seq<Entry>)
    ensures rest + Queued(a, es, 0) == rest && Pending(rest) + ChildrenPending(a, es, 0) == Pending(rest)
  {
  }

  /** Queue the children that the edit reaches, each with the edit in its own coordinates. */
  method QueueChildren(pool: SubtreePool, a: Addr, d: Data, e: Edit, stack: seq<Entry>) returns (queue: seq<Entry>)
    requires pool.Consistent() && IsLive(pool.store, a)
    requires forall i :: 0 <= i < |pool.store[a].children| ==> ValidRef(pool.store, pool.store[a].children[i])
    requires pool.store[a].data.padding == Reshape(d, e).0
    ensures var es := EditsOf(d, RefDatas(pool.store, pool.store[a].children), e);
            queue == stack + Queued(a, es, |es|)
  {
    hide Linked, FreeListOk, PointAdd, PointSub, StopsBefore, Reshape, EditsOf, ColumnsOf;
    var s := pool.store;
    var children := s[a].children;
    ghost var ds := RefDatas(s, children);
    ghost var es := EditsOf(d, ds, e);
    EditsFromStart(d, ds, e);
    var columns := Columns(d.DependsOnColumn(), e.newEnd.extent.column != e.oldEnd.extent.column,
                           s[a].data.padding.extent.row);
    var edit, childRight, i := e, ZERO, 0;
    queue := stack;
    while i < |children|
      invariant 0 <= i <= |children|
      invariant es[i..] == ChildEdits(ds, i, childRight, edit, columns)
      invariant edit == e || edit == e.(newEnd := e.start)
      invariant queue == stack + Queued(a, es, i)
    {
      var child := RefData(s, children[i]);
      var childLeft := childRight;
      childRight := Add(childLeft, child.Total());
      assert es[i..][1..] == es[i + 1..] && es[i] == es[i..][0];
      if childRight.bytes + child.lookaheadBytes < edit.start.bytes {
        i := i + 1;
        continue;
      }
      if StopsBefore(child, i, childLeft, edit.oldEnd, columns) {
        NothingQueued(a, es, i);
        return;
      }
      var start := SaturatingSub(edit.start, childLeft);
      var childEdit := Edit(start, SaturatingSub(edit.oldEnd, childLeft), SaturatingSub(edit.newEnd, childLeft));
      if Touches(childRight, edit) {
        edit := edit.(newEnd := edit.start);
      } else {
        childEdit := childEdit.(oldEnd := childEdit.start, newEnd := childEdit.start);
      }
      queue := queue + [Entry(Child(a, i), childEdit)];
      i := i + 1;
    }
  }

  lemma EditsFromStart(d: Data, ds: seq<Data>, e: Edit)
    ensures EditsOf(d, ds, e)
         == ChildEdits(ds, 0, ZERO, e, Columns(d.DependsOnColumn(), e.newEnd.extent.column != e.oldEnd.extent.column,
                                               Reshape(d, e).0.extent.row))
  {
  }

  lemma {:induction false} NothingQueued(a: Addr, es: seq<Option<Edit>>, i: nat)
    requires i <= |es| && es[i..] == NoEdits(|es| - i)
    ensures Queued(a, es, |es|) == Queued(a, es, i)
    decreases |es| - i
  {
    if i < |es| {
      assert es[i] == es[i..][0] && es[i + 1..] == es[i..][1..];
      assert NoEdits(|es| - i)[1..] == NoEdits(|es| - i - 1);
      NothingQueued(a, es, i + 1);
    }
  }

  // ----- a whole step --------------------------------------------------------------------------

  lemma StepOwnedKept(s: Store, rank: seq<nat>, t: Store, rank': seq<nat>, u: Store, root: Ref, root': Ref,
                      owned: set<Addr>, pend: map<Slot, Edit>, keep: multiset<Ref>, slot: Slot, m: Ref, d: Data)
    requires Step(s, rank, t, rank', u, root, root', owned, pend, keep, slot, m, d)
    ensures OwnedKept(s, root, u, root', owned, slot, m) && SoleAt(u, root', slot, m)
  {
    hide Linked, Counted, NoneDead;
    StepCounted(s, rank, t, rank', u, root, root', owned, pend, keep, slot, m, d);
    forall a | a in owned
      ensures IsLive(s, a) && IsLive(u, a) && u[a].data == s[a].data && |u[a].children| == |s[a].children|
      ensures forall i :: 0 <= i < |s[a].children| ==>
                u[a].children[i] == if slot == Child(a, i) then m else s[a].children[i]
    {
      assert IsLive(s, a) && a !in Cells(m);
    }
  }

  lemma StepPending(s: Store, rank: seq<nat>, t: Store, rank': seq<nat>, u: Store, root: Ref, root': Ref,
                    owned: set<Addr>, pend: map<Slot, Edit>, keep: multiset<Ref>, slot: Slot, m: Ref, d: Data,
                    es: seq<Option<Edit>>)
    requires Step(s, rank, t, rank', u, root, root', owned, pend, keep, slot, m, d)
    requires |es| == |KidsAt(s, RefAt(s, root, slot))|
    ensures SlotsOk(u, root', owned + Cells(m), AfterStep(pend, slot, m, es))
    ensures PendingElsewhere(pend, AfterStep(pend, slot, m, es), slot, m) && slot !in AfterStep(pend, slot, m, es)
    ensures m.Ptr? ==> forall x :: x in pend ==> x.Root? || x.node != m.addr
    ensures m.Ptr? ==> forall i :: 0 <= i < |es| ==>
              var pend' := AfterStep(pend, slot, m, es);
              if es[i].Some? then Child(m.addr, i) in pend' && pend'[Child(m.addr, i)] == es[i].value
              else Child(m.addr, i) !in pend'
  {
    hide Linked, Counted, NoneDead, MadeMutable, Rewritten;
    StepCounted(s, rank, t, rank', u, root, root', owned, pend, keep, slot, m, d);
    StepSlots(s, rank, t, rank', u, root, root', owned, pend, keep, slot, m, d);
    StepChildren(s, rank, t, rank', u, root, root', owned, pend, keep, slot, m, d);
    forall x | x in AfterStep(pend, slot, m, es)
      ensures SlotOk(u, x) && (x.Child? ==> x.node in owned + Cells(m)) && !InSet(RefAt(u, root', x), owned + Cells(m))
    {
      if x !in pend {
        assert x.Child? && x.node == m.addr && RefAt(u, root', x) == KidsAt(u, m)[x.index];
      }
    }
  }

  /** A step keeps the invariant, the tree to come, and everything outside the owned cells. */
  lemma StepKeeps(s: Store, rank: seq<nat>, t: Store, rank': seq<nat>, u: Store, root: Ref, root': Ref,
                  owned: set<Addr>, pend: map<Slot, Edit>, keep: multiset<Ref>, slot: Slot, m: Ref, d: Data,
                  es: seq<Option<Edit>>)
    requires Step(s, rank, t, rank', u, root, root', owned, pend, keep, slot, m, d)
    requires var r := RefAt(s, root, slot);
             && (forall i :: 0 <= i < |KidsAt(s, r)| ==> ValidRef(s, KidsAt(s, r)[i]))
             && !Skips(RefData(s, r), pend[slot]) && d == EditData(RefData(s, r), pend[slot])
             && es == EditsOf(RefData(s, r), RefDatas(s, KidsAt(s, r)), pend[slot])
    ensures var owned', pend' := owned + Cells(m), AfterStep(pend, slot, m, es);
            && EditInvariant(u, rank', root', owned', pend', keep)
            && ValidRef(u, root') && ValidRef(s, root) && AgreeOutside(u, s, owned')
            && Finish(u, rank', pend', Root, root') == Finish(s, rank, pend, Root, root)
  {
    hide Linked, Closed, SlotsOk, AgreeOutside, Counted, NoneDead, MadeMutable, Rewritten, Finish, View, OwnedKept,
         SoleAt, PendingElsewhere, AfterStep, EditData, Skips, EditsOf;
    StepCounted(s, rank, t, rank', u, root, root', owned, pend, keep, slot, m, d);
    StepOwned(s, rank, t, rank', u, root, root', owned, pend, keep, slot, m, d);
    StepClosed(s, rank, t, rank', u, root, root', owned, pend, keep, slot, m, d);
    StepChildren(s, rank, t, rank', u, root, root', owned, pend, keep, slot, m, d);
    StepPending(s, rank, t, rank', u, root, root', owned, pend, keep, slot, m, d, es);
    StepOwnedKept(s, rank, t, rank', u, root, root', owned, pend, keep, slot, m, d);
    var owned', pend', r, e := owned + Cells(m), AfterStep(pend, slot, m, es), RefAt(s, root, slot), pend[slot];
    assert Surrounds(s, rank, root, owned, pend, u, rank', root', owned', pend');
    forall i | 0 <= i < |KidsAt(u, m)| ensures ValidRef(u, KidsAt(u, m)[i]) {
      LinkedAt(u, rank', m.addr);
    }
    FinishHere(s, rank, root, owned, pend, u, rank', root', owned', pend', slot, r, m, e, es);
    FinishElsewhere(s, rank, root, owned, pend, u, rank', root', owned', pend', slot, m, Root, root, root');
  }

  /** An entry that the edit skips is already what it will be. */
  lemma SkipKeeps(s: Store, rank: seq<nat>, root: Ref, owned: set<Addr>, pend: map<Slot, Edit>, keep: multiset<Ref>,
                  slot: Slot)
    requires EditInvariant(s, rank, root, owned, pend, keep) && slot in pend
    requires ValidRef(s, RefAt(s, root, slot)) && Skips(RefData(s, RefAt(s, root, slot)), pend[slot])
    ensures EditInvariant(s, rank, root, owned, pend - {slot}, keep) && ValidRef(s, root)
    ensures Finish(s, rank, pend - {slot}, Root, root) == Finish(s, rank, pend, Root, root)
  {
    assert root in keep + multiset{root};
    SkippedSlot(s, rank, root, owned, pend, slot, Root, root);
  }

  lemma {:induction false} SkippedSlot(s: Store, rank: seq<nat>, root: Ref, owned: set<Addr>, pend: map<Slot, Edit>,
                                      slot: Slot, at: Slot, r: Ref)
    requires Linked(s, rank) && Closed(s, owned) && SlotsOk(s, root, owned, pend) && slot in pend
    requires ValidRef(s, RefAt(s, root, slot)) && Skips(RefData(s, RefAt(s, root, slot)), pend[slot])
    requires ValidRef(s, r) && SlotOk(s, at) && r == RefAt(s, root, at)
    ensures Finish(s, rank, pend - {slot}, at, r) == Finish(s, rank, pend, at, r)
    decreases RankOf(rank, r)
  {
    hide Linked, Closed;
    if at == slot {
      FinishUnowned(s, rank, root, owned, pend - {slot}, slot, r);
    } else if at !in pend && r.Ptr? {
      LinkedAt(s, rank, r.addr);
      forall i | 0 <= i < |s[r.addr].children|
        ensures Finishes(s, rank, pend - {slot}, r.addr)[i] == Finishes(s, rank, pend, r.addr)[i]
      {
        SkippedSlot(s, rank, root, owned, pend, slot, Child(r.addr, i), s[r.addr].children[i]);
      }
      assert Finishes(s, rank, pend - {slot}, r.addr) == Finishes(s, rank, pend, r.addr);
    }
  }

  // ----- termination ---------------------------------------------------------------------------

  function Nodes(t: Tree): nat
    decreases t, 1
  {
    1 + NodesIn(t.children)
  }

  function NodesIn(ts: seq<Tree>): nat
    decreases ts, 0
  {
    if ts == [] then 0 else NodesIn(ts[..|ts| - 1]) + Nodes(ts[|ts| - 1])
  }

  ghost function Weight(s: Store, rank: seq<nat>, root: Ref, slot: Slot): nat
    requires Linked(s, rank)
  {
    if SlotOk(s, slot) && ValidRef(s, RefAt(s, root, slot)) then Nodes(View(s, rank, RefAt(s, root, slot))) else 0
  }

  /** The nodes below the slots still to be edited. */
  ghost function Work(s: Store, rank: seq<nat>, root: Ref, stack: seq<Entry>): nat
    requires Linked(s, rank)
  {
    if stack == [] then 0
    else Work(s, rank, root, stack[..|stack| - 1]) + Weight(s, rank, root, stack[|stack| - 1].slot)
  }

  lemma {:induction false} SameWork(s: Store, rank: seq<nat>, root: Ref, u: Store, rank': seq<nat>, root': Ref, stack: seq<Entry>)
    requires Linked(s, rank) && Linked(u, rank')
    requires forall i :: 0 <= i < |stack| ==> Weight(s, rank, root, stack[i].slot) == Weight(u, rank', root', stack[i].slot)
    ensures Work(s, rank, root, stack) == Work(u, rank', root', stack)
  {
    if stack != [] {
      SameWork(s, rank, root, u, rank', root', stack[..|stack| - 1]);
    }
  }

  lemma {:induction false} QueuedWork(u: Store, rank: seq<nat>, root: Ref, rest: seq<Entry>, a: Addr,
                                     es: seq<Option<Edit>>, n: nat)
    requires Linked(u, rank) && IsLive(u, a) && n <= |es| == |u[a].children|
    ensures Work(u, rank, root, rest + Queued(a, es, n)) <= Work(u, rank, root, rest) + NodesIn(Views(u, rank, a)[..n])
  {
    hide Linked, Weight, Work, Nodes, NodesIn, View, Views;
    var views := Views(u, rank, a);
    if n == 0 {
      assert rest + Queued(a, es, n) == rest;
    } else {
      QueuedWork(u, rank, root, rest, a, es, n - 1);
      OneMoreTree(views, n - 1);
      var before := rest + Queued(a, es, n - 1);
      if es[n - 1].Some? {
        var entry := Entry(Child(a, n - 1), es[n - 1].value);
        assert rest + Queued(a, es, n) == before + [entry];
        OneMoreEntry(u, rank, root, before, entry);
        ChildWeight(u, rank, root, a, n - 1);
      } else {
        assert rest + Queued(a, es, n) == before;
      }
    }
  }

  lemma OneMoreTree(ts: seq<Tree>, n: nat)
    requires n < |ts|
    ensures NodesIn(ts[..n + 1]) == NodesIn(ts[..n]) + Nodes(ts[n])
  {
    assert ts[..n + 1][..n] == ts[..n];
  }

  lemma OneMoreEntry(u: Store, rank: seq<nat>, root: Ref, stack: seq<Entry>, entry: Entry)
    requires Linked(u, rank)
    ensures Work(u, rank, root, stack + [entry]) == Work(u, rank, root, stack) + Weight(u, rank, root, entry.slot)
  {
    hide Linked, Weight;
    assert (stack + [entry])[..|stack|] == stack;
  }

  lemma ChildWeight(u: Store, rank: seq<nat>, root: Ref, a: Addr, i: nat)
    requires Linked(u, rank) && IsLive(u, a) && i < |u[a].children|
    ensures Weight(u, rank, root, Child(a, i)) == Nodes(Views(u, rank, a)[i])
  {
    ViewsOf(u, rank, a);
  }

  lemma StepWork(s: Store, rank: seq<nat>, t: Store, rank': seq<nat>, u: Store, root: Ref, root': Ref,
                 owned: set<Addr>, pend: map<Slot, Edit>, keep: multiset<Ref>, slot: Slot, m: Ref, d: Data,
                 es: seq<Option<Edit>>, rest: seq<Entry>, e: Edit)
    requires Step(s, rank, t, rank', u, root, root', owned, pend, keep, slot, m, d)
    requires |es| == |KidsAt(s, RefAt(s, root, slot))|
    requires Distinct(rest + [Entry(slot, e)]) && pend == Pending(rest + [Entry(slot, e)])
    ensures Linked(s, rank) && Linked(u, rank')
    ensures var stack := if m.Ptr? then rest + Queued(m.addr, es, |es|) else rest;
            Work(u, rank', root', stack) < Work(s, rank, root, rest + [Entry(slot, e)])
  {
    hide Linked, Closed, SlotsOk, AgreeOutside, Counted, NoneDead, MadeMutable, Rewritten, Finish, View, Views,
         AfterStep, EditsOf, Edits.EditData, Nodes, NodesIn;
    StepCounted(s, rank, t, rank', u, root, root', owned, pend, keep, slot, m, d);
    StepClosed(s, rank, t, rank', u, root, root', owned, pend, keep, slot, m, d);
    StepSlots(s, rank, t, rank', u, root, root', owned, pend, keep, slot, m, d);
    StepChildren(s, rank, t, rank', u, root, root', owned, pend, keep, slot, m, d);
    var owned', stack, r := owned + Cells(m), rest + [Entry(slot, e)], RefAt(s, root, slot);
    PopPending(stack);
    assert stack[..|stack| - 1] == rest;
    PendingMembers(rest);
    forall i | 0 <= i < |rest|
      ensures Weight(s, rank, root, rest[i].slot) == Weight(u, rank', root', rest[i].slot)
    {
      assert rest[i].slot in pend - {slot};
      SlotWeight(s, rank, root, u, rank', root', owned', pend - {slot}, rest[i].slot);
    }
    SameWork(s, rank, root, u, rank', root', rest);
    if m.Ptr? {
      QueuedWork(u, rank', root', rest, m.addr, es, |es|);
      assert Views(u, rank', m.addr)[..|es|] == Views(u, rank', m.addr);
    }
    NodeWeight(s, rank, r, u, rank', m, owned');
  }

  lemma SlotWeight(s: Store, rank: seq<nat>, root: Ref, u: Store, rank': seq<nat>, root': Ref, owned': set<Addr>,
                   pend: map<Slot, Edit>, x: Slot)
    requires Linked(s, rank) && Linked(u, rank') && Closed(u, owned') && AgreeOutside(u, s, owned')
    requires x in pend && SlotsOk(u, root', owned', pend) && SlotOk(s, x) && RefAt(u, root', x) == RefAt(s, root, x)
    requires ValidRef(s, root) && ValidRef(u, root')
    ensures Weight(s, rank, root, x) == Weight(u, rank', root', x)
  {
    if x.Child? {
      LinkedAt(u, rank', x.node);
    }
    hide Linked, Closed, AgreeOutside, View;
    UnownedView(u, rank', s, rank, owned', RefAt(u, root', x));
  }

  lemma NodeWeight(s: Store, rank: seq<nat>, r: Ref, u: Store, rank': seq<nat>, m: Ref, owned': set<Addr>)
    requires Linked(s, rank) && Linked(u, rank') && Closed(u, owned') && AgreeOutside(u, s, owned')
    requires ValidRef(s, r) && ValidRef(u, m) && KidsAt(u, m) == KidsAt(s, r)
    requires forall i :: 0 <= i < |KidsAt(u, m)| ==> !InSet(KidsAt(u, m)[i], owned')
    ensures Nodes(View(s, rank, r)) >= 1
    ensures m.Ptr? ==> Nodes(View(s, rank, r)) == 1 + NodesIn(Views(u, rank', m.addr))
  {
    hide Linked, Closed, AgreeOutside;
    if m.Ptr? {
      ViewsOf(u, rank', m.addr);
      if r.Ptr? {
        ViewsOf(s, rank, r.addr);
        forall i | 0 <= i < |KidsAt(u, m)| ensures Views(u, rank', m.addr)[i] == Views(s, rank, r.addr)[i] {
          UnownedView(u, rank', s, rank, owned', KidsAt(u, m)[i]);
        }
        assert Views(u, rank', m.addr) == Views(s, rank, r.addr);
      }
    }
  }

  // ----- the edit ------------------------------------------------------------------------------

  /** Put a reference where another one was. */
  method WriteSlot(pool: SubtreePool, root: Ref, slot: Slot, m: Ref) returns (root': Ref)
    requires SlotOk(pool.store, slot)
    modifies pool`store
    ensures Rewritten(old(pool.store), root, pool.store, root', slot, m)
  {
    match slot
    case Root =>
      root' := m;
    case Child(n, i) =>
      root' := root;
      pool.store := SetKid(pool.store, n, i, m);
  }

  lemma RewrittenFreeList(t: Store, root: Ref, u: Store, root': Ref, slot: Slot, m: Ref, free: seq<Addr>)
    requires Rewritten(t, root, u, root', slot, m) && FreeListOk(t, free)
    ensures FreeListOk(u, free)
  {
  }

  /** One round of the worklist: resize the node at a slot and queue the children that the edit reaches. */
  method EditSlot(pool: SubtreePool, root: Ref, entry: Entry, rest: seq<Entry>, ghost owned: set<Addr>,
                  ghost keep: multiset<Ref>)
    returns (root': Ref, stack: seq<Entry>, ghost owned': set<Addr>)
    requires pool.Consistent() && Distinct(rest + [entry]) && SlotOk(pool.store, entry.slot)
    requires EditInvariant(pool.store, pool.rank, root, owned, Pending(rest + [entry]), keep)
    requires ValidRef(pool.store, root) && ValidRef(pool.store, RefAt(pool.store, root, entry.slot))
    requires !Skips(RefData(pool.store, RefAt(pool.store, root, entry.slot)), entry.edit)
    modifies pool
    ensures pool.Consistent() && Distinct(stack) && ValidRef(pool.store, root')
    ensures EditInvariant(pool.store, pool.rank, root', owned', Pending(stack), keep) && owned <= owned'
    ensures AgreeOutside(pool.store, old(pool.store), owned')
    ensures Finish(pool.store, pool.rank, Pending(stack), Root, root')
         == old(Finish(pool.store, pool.rank, Pending(rest + [entry]), Root, root))
    ensures Work(pool.store, pool.rank, root', stack) < old(Work(pool.store, pool.rank, root, rest + [entry]))
  {
    hide Linked, Closed, SlotsOk, AgreeOutside, Counted, NoneDead, MadeMutable, Rewritten, Finish, View, Views,
         AfterStep, EditsOf, Edits.EditData, Work, Distinct, Pending, FreeListOk, Skips;
    ghost var s, rank, pend := pool.store, pool.rank, Pending(rest + [entry]);
    var slot, e := entry.slot, entry.edit;
    PopPending(rest + [entry]);
    assert (rest + [entry])[..|rest|] == rest;
    var r := RefAt(pool.store, root, slot);
    var before := RefData(pool.store, r);
    RefIsLinked(s, rank, r, keep);
    ghost var es := EditsOf(before, RefDatas(s, KidsAt(s, r)), e);
    var m := MakeResized(pool, r, e, keep + multiset{root});
    ghost var t, rank' := pool.store, pool.rank;
    SlotStays(s, rank, t, rank', root, owned, pend, keep, slot, m, Edits.EditData(before, e));
    root' := WriteSlot(pool, root, slot, m);
    ghost var d, u := Edits.EditData(before, e), pool.store;
    assert Step(s, rank, t, rank', u, root, root', owned, pend, keep, slot, m, d);
    StepKeeps(s, rank, t, rank', u, root, root', owned, pend, keep, slot, m, d, es);
    StepPending(s, rank, t, rank', u, root, root', owned, pend, keep, slot, m, d, es);
    StepChildren(s, rank, t, rank', u, root, root', owned, pend, keep, slot, m, d);
    StepWork(s, rank, t, rank', u, root, root', owned, pend, keep, slot, m, d, es, rest, e);
    RewrittenFreeList(t, root, u, root', slot, m, pool.freeTrees);
    owned' := owned + Cells(m);
    QueueMatches(rest, entry, m, es);
    stack := rest;
    if m.Ptr? {
      LinkedAt(u, rank', m.addr);
      EditDataPadding(before, e);
      SameKidDatas(s, u, KidsAt(u, m), owned');
      stack := QueueChildren(pool, m.addr, before, e, rest);
    }
  }

  lemma EditDataPadding(d: Data, e: Edit)
    ensures Edits.EditData(d, e).padding == Reshape(d, e).0
  {
    hide Reshape;
  }

  lemma SameKidDatas(s: Store, u: Store, kids: seq<Ref>, owned': set<Addr>)
    requires AgreeOutside(u, s, owned')
    requires forall i :: 0 <= i < |kids| ==> !InSet(kids[i], owned') && ValidRef(u, kids[i]) && ValidRef(s, kids[i])
    ensures RefDatas(u, kids) == RefDatas(s, kids)
  {
  }

  /** The stack after a step holds exactly what is pending after it. */
  lemma QueueMatches(rest: seq<Entry>, entry: Entry, m: Ref, es: seq<Option<Edit>>)
    requires Distinct(rest + [entry])
    requires m.Ptr? ==> forall x :: x in Pending(rest + [entry]) ==> x.Root? || x.node != m.addr
    ensures var stack := if m.Ptr? then rest + Queued(m.addr, es, |es|) else rest;
            Distinct(stack) && Pending(stack) == AfterStep(Pending(rest + [entry]), entry.slot, m, es)
  {
    hide Distinct, Pending, ChildrenPending;
    assert (rest + [entry])[..|rest|] == rest;
    PopPending(rest + [entry]);
    if m.Ptr? {
      PushQueued(rest, m.addr, es, |es|);
    }
  }

  lemma EditStarts(s: Store, rank: seq<nat>, self: Ref, input: Edit, keep: multiset<Ref>)
    requires Linked(s, rank) && Counted(s, keep + multiset{self}, multiset{}) && NoneDead(s)
    ensures var stack := [Entry(Root, input)];
            && Distinct(stack) && ValidRef(s, self)
            && EditInvariant(s, rank, self, {}, Pending(stack), keep)
            && Finish(s, rank, Pending(stack), Root, self) == EditTree(View(s, rank, self), input)
            && AgreeOutside(s, s, {})
  {
    HandleIsValid(s, keep, self, multiset{});
    hide Linked, Counted, EditTree, View;
    var stack := [Entry(Root, input)];
    assert stack[..0] == [];
    assert Pending(stack) == map[Root := input];
  }

  lemma EditEnds(s: Store, rank: seq<nat>, root: Ref, owned: set<Addr>, keep: multiset<Ref>, s0: Store, rank0: seq<nat>)
    requires EditInvariant(s, rank, root, owned, Pending([]), keep) && ValidRef(s, root)
    requires AgreeOutside(s, s0, owned) && Linked(s0, rank0)
    ensures Finish(s, rank, Pending([]), Root, root) == View(s, rank, root)
    ensures forall q :: q in keep ==>
              ValidRef(s, q) && ValidRef(s0, q) && View(s, rank, q) == View(s0, rank0, q)
  {
    FinishNothing(s, rank, Root, root);
    hide Linked, View, AgreeOutside;
    forall q | q in keep ensures ValidRef(s, q) && ValidRef(s0, q) && View(s, rank, q) == View(s0, rank0, q) {
      assert q in keep + multiset{root};
      UnownedView(s, rank, s0, rank0, owned, q);
    }
  }

  lemma AgreeTransitive(s0: Store, s: Store, u: Store, owned: set<Addr>, owned': set<Addr>)
    requires AgreeOutside(s, s0, owned) && AgreeOutside(u, s, owned') && owned <= owned'
    ensures AgreeOutside(u, s0, owned')
  {
  }

  /** An entry of the stack is a pending slot with a valid reference. */
  lemma TopIsValid(s: Store, rank: seq<nat>, root: Ref, owned: set<Addr>, stack: seq<Entry>, keep: multiset<Ref>)
    requires stack != [] && Distinct(stack) && EditInvariant(s, rank, root, owned, Pending(stack), keep)
    requires ValidRef(s, root)
    ensures var entry := stack[|stack| - 1];
            && entry.slot in Pending(stack) && Pending(stack)[entry.slot] == entry.edit
            && SlotOk(s, entry.slot) && ValidRef(s, RefAt(s, root, entry.slot))
  {
    PopPending(stack);
    var slot := stack[|stack| - 1].slot;
    if slot.Child? {
      LinkedAt(s, rank, slot.node);
    }
  }

  /** Dropping a skipped entry leaves less to do. */
  lemma SkipWork(s: Store, rank: seq<nat>, root: Ref, stack: seq<Entry>)
    requires Linked(s, rank) && stack != []
    requires SlotOk(s, stack[|stack| - 1].slot) && ValidRef(s, RefAt(s, root, stack[|stack| - 1].slot))
    ensures Work(s, rank, root, stack[..|stack| - 1]) < Work(s, rank, root, stack)
  {
  }

  /**
   * Apply an edit to the tree that the caller owns one share of. The result is the edited tree;
   * the counts stay exact, and whoever else holds a share of any part still sees what was there.
   */
  method EditSubtree(pool: SubtreePool, self: Ref, input: Edit, ghost keep: multiset<Ref>) returns (result: Ref)
    requires pool.Valid(keep + multiset{self})
    modifies pool
    ensures pool.Valid(keep + multiset{result}) && ValidRef(pool.store, result) && ValidRef(old(pool.store), self)
    ensures View(pool.store, pool.rank, result) == EditTree(old(View(pool.store, pool.rank, self)), input)
    ensures forall q :: q in keep ==>
              && ValidRef(pool.store, q) && ValidRef(old(pool.store), q)
              && View(pool.store, pool.rank, q) == View(old(pool.store), old(pool.rank), q)
  {
    hide Linked, Closed, SlotsOk, AgreeOutside, Counted, NoneDead, Finish, View, Views, Work, Distinct, Pending,
         FreeListOk, Owned, EditTree, Skips;
    ghost var s0, rank0 := pool.store, pool.rank;
    var stack := [Entry(Root, input)];
    result := self;
    EditStarts(s0, rank0, self, input, keep);
    ghost var owned := {};
    ghost var goal := EditTree(View(s0, rank0, self), input);
    while |stack| > 0
      invariant pool.Consistent() && Distinct(stack) && ValidRef(pool.store, result)
      invariant EditInvariant(pool.store, pool.rank, result, owned, Pending(stack), keep)
      invariant AgreeOutside(pool.store, s0, owned)
      invariant Finish(pool.store, pool.rank, Pending(stack), Root, result) == goal
      decreases Work(pool.store, pool.rank, result, stack)
    {
      ghost var s, before := pool.store, owned;
      TopIsValid(s, pool.rank, result, owned, stack, keep);
      var entry, rest := stack[|stack| - 1], stack[..|stack| - 1];
      assert stack == rest + [entry];
      if Skips(RefData(pool.store, RefAt(pool.store, result, entry.slot)), entry.edit) {
        PopPending(stack);
        SkipKeeps(s, pool.rank, result, owned, Pending(stack), keep, entry.slot);
        SkipWork(s, pool.rank, result, stack);
        stack := rest;
      } else {
        result, stack, owned := EditSlot(pool, result, entry, rest, owned, keep);
        AgreeTransitive(s0, s, pool.store, before, owned);
      }
    }
    EditEnds(pool.store, pool.rank, result, owned, keep, s0, rank0);
  }
}
