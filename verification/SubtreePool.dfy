/**
 * Subtrees in memory: heap cells shared by reference counting, with copy-on-write.
 * An address is an index into the store; a freed cell stays `Free` until it is reused.
 */
module SubtreePools {
  import opened Lengths
  import opened Subtrees

  type Addr = nat

  const MAX_INLINE_TREE_LENGTH: nat := 255
  const MAX_TREE_POOL_SIZE: nat := 32

  /** A subtree is either a small leaf stored in the reference itself or a pointer to a cell. */
  datatype Ref = Inline(data: Data) | Ptr(addr: Addr)

  datatype Cell = Free | Live(refCount: nat, data: Data, children: seq<Ref>)

  type Store = seq<Cell>

  predicate CanInline(padding: Length, size: Length, lookaheadBytes: nat) {
    && padding.bytes < MAX_INLINE_TREE_LENGTH && padding.extent.row < 16
    && padding.extent.column < MAX_INLINE_TREE_LENGTH
    && size.bytes < MAX_INLINE_TREE_LENGTH && size.extent.row == 0
    && size.extent.column < MAX_INLINE_TREE_LENGTH && lookaheadBytes < 16
  }

  /** What an inline reference can hold: its size has no rows and one column for each byte. */
  predicate InlineOk(d: Data) {
    && d.inline && d.childCount == 0
    && CanInline(d.padding, d.size, d.lookaheadBytes) && d.size.extent == Point(0, d.size.bytes)
  }

  predicate IsLive(s: Store, a: Addr) { a < |s| && s[a].Live? }

  predicate ValidRef(s: Store, r: Ref) {
    match r
    case Inline(d) => InlineOk(d)
    case Ptr(a) => IsLive(s, a)
  }

  function Kids(c: Cell): seq<Ref> { if c.Free? then [] else c.children }

  // ----- links, ranks and the tree a reference stands for ------------------------------------

  /** An inline leaf ranks like a leaf cell, so that it may be moved into one. */
  function RankOf(rank: seq<nat>, r: Ref): nat {
    match r
    case Inline(_) => 1
    case Ptr(a) => if a < |rank| then rank[a] + 1 else 0
  }

  predicate CellLinked(s: Store, rank: seq<nat>, a: Addr)
    requires |rank| == |s| && IsLive(s, a)
  {
    && !s[a].data.inline && s[a].data.childCount == |s[a].children|
    && forall i :: 0 <= i < |s[a].children| ==>
         ValidRef(s, s[a].children[i]) && RankOf(rank, s[a].children[i]) <= rank[a]
  }

  /** Live cells only refer to live cells, and to ones of lower rank. */
  ghost predicate Linked(s: Store, rank: seq<nat>) {
    |rank| == |s| && forall a: Addr :: IsLive(s, a) ==> CellLinked(s, rank, a)
  }

  ghost function View(s: Store, rank: seq<nat>, r: Ref): (t: Tree)
    requires Linked(s, rank) && ValidRef(s, r)
    decreases RankOf(rank, r), 0
  {
    match r
    case Inline(d) => Tree(d, [])
    case Ptr(a) => Tree(s[a].data, Views(s, rank, a))
  }

  ghost function Views(s: Store, rank: seq<nat>, a: Addr): (ts: seq<Tree>)
    requires Linked(s, rank) && IsLive(s, a)
    ensures |ts| == |s[a].children|
    decreases rank[a], 1
  {
    assert CellLinked(s, rank, a);
    seq(|s[a].children|, i requires 0 <= i < |s[a].children| => View(s, rank, s[a].children[i]))
  }

  /** `t` has every live cell of `s`, with the same data and children. */
  ghost predicate Extends(s: Store, t: Store) {
    forall a: Addr :: IsLive(s, a) ==> IsLive(t, a) && t[a].data == s[a].data && t[a].children == s[a].children
  }

  lemma {:induction false} ExtendsKeepsViews(s: Store, rank: seq<nat>, t: Store, rank': seq<nat>, r: Ref)
    requires Linked(s, rank) && Linked(t, rank') && ValidRef(s, r) && Extends(s, t)
    ensures ValidRef(t, r) && View(t, rank', r) == View(s, rank, r)
    decreases RankOf(rank, r)
  {
    if r.Ptr? {
      assert CellLinked(s, rank, r.addr);
      forall i | 0 <= i < |s[r.addr].children|
        ensures View(t, rank', s[r.addr].children[i]) == View(s, rank, s[r.addr].children[i])
      {
        ExtendsKeepsViews(s, rank, t, rank', s[r.addr].children[i]);
      }
      assert Views(t, rank', r.addr) == Views(s, rank, r.addr);
    }
  }

  // ----- reference counts --------------------------------------------------------------------

  /** The child slots of the first `n` cells. */
  function EdgesBelow(s: Store, n: nat): multiset<Ref>
    requires n <= |s|
  {
    if n == 0 then multiset{} else EdgesBelow(s, n - 1) + multiset(Kids(s[n - 1]))
  }

  /** All the child slots of live cells. */
  function Edges(s: Store): multiset<Ref> { EdgesBelow(s, |s|) }

  lemma {:induction false} EdgesBelowAgree(s: Store, t: Store, n: nat)
    requires n <= |s| && n <= |t| && forall i :: 0 <= i < n ==> s[i] == t[i]
    ensures EdgesBelow(s, n) == EdgesBelow(t, n)
  {
    if n > 0 {
      EdgesBelowAgree(s, t, n - 1);
    }
  }

  lemma EdgesBelowStep(s: Store, n: nat)
    requires 0 < n <= |s|
    ensures EdgesBelow(s, n) == EdgesBelow(s, n - 1) + multiset(Kids(s[n - 1]))
  {
  }

  lemma EdgesWithLast(s: Store, c: Cell, n: nat)
    requires 0 < n <= |s|
    ensures EdgesBelow(s[n - 1 := c], n) == EdgesBelow(s, n - 1) + multiset(Kids(c))
  {
    EdgesBelowAgree(s, s[n - 1 := c], n - 1);
  }

  /** How often a reference is a child, before and after a cell is replaced. */
  lemma {:induction false} EdgesBelowUpdate(s: Store, a: Addr, c: Cell, n: nat, r: Ref)
    requires a < n <= |s|
    ensures multiset(Kids(s[a]))[r] <= EdgesBelow(s, n)[r]
    ensures EdgesBelow(s[a := c], n)[r] == EdgesBelow(s, n)[r] - multiset(Kids(s[a]))[r] + multiset(Kids(c))[r]
    decreases n
  {
    hide EdgesBelow, Kids;
    EdgesBelowStep(s, n);
    if a == n - 1 {
      EdgesWithLast(s, c, n);
    } else {
      EdgesBelowUpdate(s, a, c, n - 1, r);
      EdgesBelowStep(s[a := c], n);
    }
  }

  lemma EdgesUpdate(s: Store, a: Addr, c: Cell)
    requires a < |s|
    ensures multiset(Kids(s[a])) <= Edges(s)
    ensures Edges(s[a := c]) == Edges(s) - multiset(Kids(s[a])) + multiset(Kids(c))
  {
    hide EdgesBelow, Kids;
    forall r: Ref
      ensures multiset(Kids(s[a]))[r] <= Edges(s)[r]
      ensures Edges(s[a := c])[r] == Edges(s)[r] - multiset(Kids(s[a]))[r] + multiset(Kids(c))[r]
    {
      EdgesBelowUpdate(s, a, c, |s|, r);
    }
  }

  lemma EdgesAppend(s: Store, c: Cell)
    ensures Edges(s + [c]) == Edges(s) + multiset(Kids(c))
  {
    EdgesBelowAgree(s, s + [c], |s|);
  }

  /** An edge is a child slot of some live cell. */
  lemma {:induction false} EdgeHasParent(s: Store, r: Ref, n: nat) returns (p: Addr)
    requires n <= |s| && r in EdgesBelow(s, n)
    ensures IsLive(s, p) && r in s[p].children
  {
    if r in multiset(Kids(s[n - 1])) {
      p := n - 1;
    } else {
      p := EdgeHasParent(s, r, n - 1);
    }
  }

  /**
   * The count in each live cell is the number of child slots and outside handles that refer to
   * it, leaving out the references in `uncounted`.
   */
  ghost predicate Counted(s: Store, handles: multiset<Ref>, uncounted: multiset<Ref>) {
    && (forall a: Addr :: IsLive(s, a) ==>
          s[a].refCount + uncounted[Ptr(a)] == Edges(s)[Ptr(a)] + handles[Ptr(a)])
    && forall r :: r in handles || r in uncounted ==> ValidRef(s, r)
  }

  ghost predicate NoneDead(s: Store) {
    forall a: Addr :: IsLive(s, a) ==> s[a].refCount > 0
  }

  ghost function LiveSet(s: Store): set<Addr> { set a | 0 <= a < |s| && s[a].Live? }

  /** A chain of child slots leads from an outside handle to `a`. */
  ghost predicate Reachable(s: Store, handles: multiset<Ref>, a: Addr) {
    exists path: seq<Addr> :: LeadsTo(s, handles, path, a)
  }

  ghost predicate LeadsTo(s: Store, handles: multiset<Ref>, path: seq<Addr>, a: Addr) {
    && path != [] && path[|path| - 1] == a && Ptr(path[0]) in handles
    && (forall i :: 0 <= i < |path| ==> IsLive(s, path[i]))
    && forall i :: 0 < i < |path| ==> Ptr(path[i]) in s[path[i - 1]].children
  }

  /** With exact, positive counts, every live cell is reachable: nothing has leaked. */
  lemma {:induction false} LiveIsReachable(s: Store, rank: seq<nat>, handles: multiset<Ref>, a: Addr, top: nat)
    requires Linked(s, rank) && Counted(s, handles, multiset{}) && NoneDead(s)
    requires IsLive(s, a) && forall b :: 0 <= b < |rank| ==> rank[b] <= top
    ensures Reachable(s, handles, a)
    decreases top - rank[a]
  {
    hide EdgesBelow;
    if Ptr(a) in handles {
      assert LeadsTo(s, handles, [a], a);
    } else {
      var p := EdgeHasParent(s, Ptr(a), |s|);
      assert CellLinked(s, rank, p);
      var i :| 0 <= i < |s[p].children| && s[p].children[i] == Ptr(a);
      LiveIsReachable(s, rank, handles, p, top);
      var path :| LeadsTo(s, handles, path, p);
      assert LeadsTo(s, handles, path + [a], a);
    }
  }

  /** Whatever can be reached in an earlier store is still live in a later one that lost nothing reachable. */
  lemma {:induction false} ReachableSurvives(s: Store, rank: seq<nat>, t: Store, handles: multiset<Ref>, path: seq<Addr>, a: Addr)
    requires Linked(t, rank) && LeadsTo(s, handles, path, a)
    requires forall r :: r in handles ==> ValidRef(t, r)
    requires Extends(t, s)
    ensures IsLive(t, a)
    decreases |path|
  {
    if |path| > 1 {
      var n := |path| - 1;
      assert LeadsTo(s, handles, path[..n], path[n - 1]);
      ReachableSurvives(s, rank, t, handles, path[..n], path[n - 1]);
      assert CellLinked(t, rank, path[n - 1]);
      var i :| 0 <= i < |t[path[n - 1]].children| && t[path[n - 1]].children[i] == Ptr(a);
      assert ValidRef(t, t[path[n - 1]].children[i]);
    } else {
      assert Ptr(a) in handles;
    }
  }

  function WithCount(s: Store, a: Addr, count: nat): Store
    requires IsLive(s, a)
  {
    s[a := s[a].(refCount := count)]
  }

  /** Changing a count touches no link. */
  lemma WithCountKeeps(s: Store, rank: seq<nat>, a: Addr, count: nat)
    requires Linked(s, rank) && IsLive(s, a)
    ensures Linked(WithCount(s, a, count), rank)
    ensures Edges(WithCount(s, a, count)) == Edges(s) && LiveSet(WithCount(s, a, count)) == LiveSet(s)
  {
    var t := WithCount(s, a, count);
    assert Edges(t) == Edges(s) by {
      EdgesUpdate(s, a, t[a]);
      ReplaceSame(Edges(s), multiset(Kids(s[a])));
    }
    forall b: Addr | IsLive(t, b) ensures CellLinked(t, rank, b) {
      assert CellLinked(s, rank, b);
    }
  }

  lemma ReplaceSame<T>(all: multiset<T>, part: multiset<T>)
    requires part <= all
    ensures all - part + part == all
  {
  }

  /** Stores that differ in their counts only. */
  ghost predicate SameButCounts(s: Store, t: Store) {
    && |s| == |t|
    && forall a: Addr :: a < |s| ==>
         s[a].Live? == t[a].Live? && (s[a].Live? ==> s[a].data == t[a].data && s[a].children == t[a].children)
  }

  lemma {:induction false} SameCellsSameEdges(s: Store, t: Store, n: nat)
    requires n <= |s| == |t| && forall a :: 0 <= a < |s| ==> Kids(s[a]) == Kids(t[a])
    ensures EdgesBelow(s, n) == EdgesBelow(t, n)
  {
    if n > 0 {
      SameCellsSameEdges(s, t, n - 1);
    }
  }

  lemma SameButCountsKeeps(s: Store, rank: seq<nat>, t: Store)
    requires SameButCounts(s, t) && Linked(s, rank)
    ensures Linked(t, rank) && Edges(t) == Edges(s) && LiveSet(t) == LiveSet(s)
  {
    SameCellsSameEdges(s, t, |s|);
    forall a: Addr | IsLive(t, a) ensures CellLinked(t, rank, a) {
      assert CellLinked(s, rank, a);
    }
  }

  /** `s` with one more reference to `r`. */
  function RaiseRef(s: Store, r: Ref): Store
    requires ValidRef(s, r)
  {
    match r
    case Inline(_) => s
    case Ptr(a) => WithCount(s, a, s[a].refCount + 1)
  }

  /** `s` with the count of every cell in `refs` raised, once for each occurrence. */
  function RetainAll(s: Store, refs: seq<Ref>): (t: Store)
    requires forall i :: 0 <= i < |refs| ==> ValidRef(s, refs[i])
    ensures SameButCounts(s, t)
    ensures forall a: Addr :: a < |s| && s[a].Live? ==> t[a].refCount == s[a].refCount + multiset(refs)[Ptr(a)]
  {
    if refs == [] then s
    else
      var n := |refs| - 1;
      assert refs == refs[..n] + [refs[n]];
      var t := RetainAll(s, refs[..n]);
      assert ValidRef(s, refs[n]);
      RaiseRef(t, refs[n])
  }

  lemma RetainNone(s: Store, refs: seq<Ref>)
    ensures RetainAll(s, refs[..0]) == s
  {
  }

  lemma RetainMore(s: Store, refs: seq<Ref>, i: nat)
    requires i < |refs| && forall k :: 0 <= k < |refs| ==> ValidRef(s, refs[k])
    ensures ValidRef(RetainAll(s, refs[..i]), refs[i])
    ensures RetainAll(s, refs[..i + 1]) == RaiseRef(RetainAll(s, refs[..i]), refs[i])
  {
    assert refs[..i + 1][..i] == refs[..i];
  }

  /** `s` after the shared cell at `a` has been cloned for one of its owners. */
  function CloneShared(s: Store, a: Addr): Store
    requires IsLive(s, a) && s[a].refCount > 0
    requires forall i :: 0 <= i < |s[a].children| ==> ValidRef(s, s[a].children[i])
  {
    var copied := s + [Live(1, s[a].data, s[a].children)];
    assert forall i :: 0 <= i < |s[a].children| ==> ValidRef(s, s[a].children[i]) ==> ValidRef(copied, s[a].children[i]);
    var retained := RetainAll(copied, s[a].children);
    WithCount(retained, a, retained[a].refCount - 1)
  }

  lemma EdgesAreValid(s: Store, rank: seq<nat>, r: Ref)
    requires Linked(s, rank) && r in Edges(s)
    ensures ValidRef(s, r)
  {
    var p := EdgeHasParent(s, r, |s|);
    assert CellLinked(s, rank, p);
    var i :| 0 <= i < |s[p].children| && s[p].children[i] == r;
    assert ValidRef(s, s[p].children[i]);
  }

  lemma AppendKeepsLinked(s: Store, rank: seq<nat>, c: Cell, top: nat)
    requires Linked(s, rank)
    requires c.Live? ==> !c.data.inline && c.data.childCount == |c.children|
    requires c.Live? ==> forall i :: 0 <= i < |c.children| ==> ValidRef(s, c.children[i]) && RankOf(rank, c.children[i]) <= top
    ensures Linked(s + [c], rank + [top])
  {
    var t, rank' := s + [c], rank + [top];
    forall b: Addr | IsLive(t, b) ensures CellLinked(t, rank', b) {
      if b < |s| {
        assert CellLinked(s, rank, b);
        forall i | 0 <= i < |t[b].children| ensures ValidRef(t, t[b].children[i]) && RankOf(rank', t[b].children[i]) <= rank'[b] {
          assert ValidRef(s, s[b].children[i]);
        }
      } else {
        forall i | 0 <= i < |t[b].children| ensures ValidRef(t, t[b].children[i]) && RankOf(rank', t[b].children[i]) <= rank'[b] {
          assert ValidRef(s, c.children[i]);
        }
      }
    }
  }

  lemma NewAddressIsUnused(s: Store, rank: seq<nat>, handles: multiset<Ref>, uncounted: multiset<Ref>)
    requires Linked(s, rank) && Counted(s, handles, uncounted)
    ensures var n := Ptr(|s|); Edges(s)[n] == 0 && handles[n] == 0 && uncounted[n] == 0
  {
    var n := Ptr(|s|);
    assert !ValidRef(s, n);
    if n in Edges(s) {
      EdgesAreValid(s, rank, n);
    }
  }

  lemma CloneSharedFacts(s: Store, rank: seq<nat>, a: Addr)
    requires Linked(s, rank) && IsLive(s, a) && s[a].refCount > 0
    ensures forall i :: 0 <= i < |s[a].children| ==> ValidRef(s, s[a].children[i])
    ensures var t := CloneShared(s, a);
            && |t| == |s| + 1 && t[|s|].Live? && t[|s|].data == s[a].data && t[|s|].children == s[a].children
            && Linked(t, rank + [rank[a]]) && Extends(s, t)
            && Edges(t) == Edges(s) + multiset(s[a].children)
  {
    hide EdgesBelow, CellLinked;
    LinkedAt(s, rank, a);
    var cell, rank' := Live(1, s[a].data, s[a].children), rank + [rank[a]];
    AppendKeepsLinked(s, rank, cell, rank[a]);
    EdgesAppend(s, cell);
    assert SameButCounts(s + [cell], CloneShared(s, a));
    hide Linked;
    SameButCountsKeeps(s + [cell], rank', CloneShared(s, a));
  }

  lemma CloneSharedCellCounts(s: Store, rank: seq<nat>, a: Addr, b: Addr)
    requires Linked(s, rank) && IsLive(s, a) && s[a].refCount > 0
    ensures forall i :: 0 <= i < |s[a].children| ==> ValidRef(s, s[a].children[i])
    ensures var t := CloneShared(s, a);
            && |t| == |s| + 1 && Ptr(|s|) !in s[a].children && t[|s|].Live? && t[|s|].refCount == 1
            && (b < |s| ==> IsLive(s, b) == IsLive(t, b))
            && (IsLive(s, b) ==>
                  t[b].refCount + (if b == a then 1 else 0) == s[b].refCount + multiset(s[a].children)[Ptr(b)])
  {
    LinkedAt(s, rank, a);
    assert !ValidRef(s, Ptr(|s|));
  }

  lemma CloneSharedCounts(s: Store, rank: seq<nat>, a: Addr, handles: multiset<Ref>, uncounted: multiset<Ref>)
    requires Linked(s, rank) && Counted(s, handles, uncounted)
    requires IsLive(s, a) && s[a].refCount > 1
    ensures forall i :: 0 <= i < |s[a].children| ==> ValidRef(s, s[a].children[i])
    ensures Counted(CloneShared(s, a), handles + multiset{Ptr(|s|)}, uncounted + multiset{Ptr(a)})
    ensures NoneDead(s) ==> NoneDead(CloneShared(s, a))
  {
    hide Linked, CellLinked;
    CloneSharedFacts(s, rank, a);
    NewAddressIsUnused(s, rank, handles, uncounted);
    hide EdgesBelow, CloneShared;
    var t, n := CloneShared(s, a), Ptr(|s|);
    forall b: Addr | IsLive(t, b)
      ensures t[b].refCount + (uncounted + multiset{Ptr(a)})[Ptr(b)] == Edges(t)[Ptr(b)] + (handles + multiset{n})[Ptr(b)]
      ensures NoneDead(s) ==> t[b].refCount > 0
    {
      CloneSharedCellCounts(s, rank, a, b);
    }
    forall r | r in handles + multiset{n} || r in uncounted + multiset{Ptr(a)} ensures ValidRef(t, r) {
      assert r != n ==> ValidRef(s, r);
    }
  }

  // ----- reading a node and its children -----------------------------------------------------

  function RefData(s: Store, r: Ref): Data
    requires ValidRef(s, r)
  {
    match r
    case Inline(d) => d
    case Ptr(a) => s[a].data
  }

  function RefDatas(s: Store, refs: seq<Ref>): (ds: seq<Data>)
    requires forall i :: 0 <= i < |refs| ==> ValidRef(s, refs[i])
    ensures |ds| == |refs| && forall i :: 0 <= i < |refs| ==> ds[i] == RefData(s, refs[i])
  {
    seq(|refs|, i requires 0 <= i < |refs| => RefData(s, refs[i]))
  }

  /** What summarising leaves of a node without children, which never had an extent. */
  function SummarizeChildless(d: Data): Data {
    d.(lookaheadBytes := 0, errorCost := if ChargesExtent(d.symbol) then ExtentCost(d.size) else 0,
       hasExternalTokens := false, dependsOnColumn := false, visibleChildCount := 0, namedChildCount := 0,
       visibleDescendantCount := 0, dynamicPrecedence := 0, repeatDepth := 0)
  }

  function SummaryOf(lang: Language, d: Data, ds: seq<Data>): Data {
    if ds == [] then SummarizeChildless(d) else Summarize(lang, d, ds)
  }

  function WithData(s: Store, a: Addr, d: Data): Store
    requires IsLive(s, a)
  {
    s[a := s[a].(data := d)]
  }

  lemma WithDataKeeps(s: Store, rank: seq<nat>, a: Addr, d: Data)
    requires Linked(s, rank) && IsLive(s, a) && !d.inline && d.childCount == s[a].data.childCount
    ensures Linked(WithData(s, a, d), rank) && Edges(WithData(s, a, d)) == Edges(s)
    ensures LiveSet(WithData(s, a, d)) == LiveSet(s)
  {
    hide EdgesBelow;
    var t := WithData(s, a, d);
    SameCellsSameEdges(s, t, |s|);
    forall b: Addr | IsLive(t, b) ensures CellLinked(t, rank, b) {
      assert CellLinked(s, rank, b);
      forall i | 0 <= i < |t[b].children| ensures ValidRef(t, t[b].children[i]) {
        assert ValidRef(s, s[b].children[i]);
      }
    }
  }

  ghost predicate FreeListOk(s: Store, free: seq<Addr>) {
    && (forall i :: 0 <= i < |free| ==> free[i] < |s| && s[free[i]].Free?)
    && forall i, j :: 0 <= i < j < |free| ==> free[i] != free[j]
  }

  lemma RaiseCount(s: Store, rank: seq<nat>, a: Addr, handles: multiset<Ref>, uncounted: multiset<Ref>)
    requires Linked(s, rank) && IsLive(s, a) && Counted(s, handles, uncounted)
    ensures var t := WithCount(s, a, s[a].refCount + 1);
            Linked(t, rank) && Counted(t, handles + multiset{Ptr(a)}, uncounted) && LiveSet(t) == LiveSet(s)
  {
    var t := WithCount(s, a, s[a].refCount + 1);
    WithCountKeeps(s, rank, a, s[a].refCount + 1);
    forall b: Addr | IsLive(t, b)
      ensures t[b].refCount + uncounted[Ptr(b)] == Edges(t)[Ptr(b)] + (handles + multiset{Ptr(a)})[Ptr(b)]
    {
      assert IsLive(s, b);
    }
  }

  lemma LowerCount(s: Store, rank: seq<nat>, a: Addr, handles: multiset<Ref>, uncounted: multiset<Ref>)
    requires Linked(s, rank) && IsLive(s, a) && s[a].refCount > 0 && Counted(s, handles, uncounted)
    ensures var t := WithCount(s, a, s[a].refCount - 1);
            Linked(t, rank) && Counted(t, handles, uncounted + multiset{Ptr(a)}) && LiveSet(t) == LiveSet(s)
  {
    var t := WithCount(s, a, s[a].refCount - 1);
    WithCountKeeps(s, rank, a, s[a].refCount - 1);
    forall b: Addr | IsLive(t, b)
      ensures t[b].refCount + (uncounted + multiset{Ptr(a)})[Ptr(b)] == Edges(t)[Ptr(b)] + handles[Ptr(b)]
    {
      assert IsLive(s, b);
    }
  }

  /** A new leaf cell, appended or put in place of a free one. */
  ghost predicate NewLeafAt(s: Store, rank: seq<nat>, t: Store, rank': seq<nat>, a: Addr, d: Data) {
    && !IsLive(s, a) && !d.inline && d.childCount == 0
    && if a == |s| then t == s + [Live(1, d, [])] && rank' == rank + [0]
       else a < |s| && t == s[a := Live(1, d, [])] && |rank| == |s| && rank' == rank[a := 0]
  }

  lemma NewLeafLinked(s: Store, rank: seq<nat>, t: Store, rank': seq<nat>, a: Addr, d: Data)
    requires Linked(s, rank) && NewLeafAt(s, rank, t, rank', a, d)
    ensures Linked(t, rank') && Extends(s, t)
  {
    forall b: Addr | IsLive(t, b) ensures CellLinked(t, rank', b) {
      if b != a {
        assert IsLive(s, b) && CellLinked(s, rank, b);
        forall i | 0 <= i < |t[b].children|
          ensures ValidRef(t, t[b].children[i]) && RankOf(rank', t[b].children[i]) <= rank'[b]
        {
          assert ValidRef(s, s[b].children[i]);
        }
      }
    }
  }

  lemma NewLeafCounted(s: Store, rank: seq<nat>, t: Store, rank': seq<nat>, a: Addr, d: Data, handles: multiset<Ref>)
    requires Linked(s, rank) && Counted(s, handles, multiset{}) && NewLeafAt(s, rank, t, rank', a, d)
    ensures Counted(t, handles + multiset{Ptr(a)}, multiset{})
  {
    var cell := Live(1, d, []);
    FreeCellIsUnused(s, rank, handles, a);
    assert Edges(t) == Edges(s) by {
      if a == |s| {
        EdgesAppend(s, cell);
      } else {
        EdgesUpdate(s, a, cell);
      }
    }
    forall b: Addr | IsLive(t, b)
      ensures t[b].refCount == Edges(t)[Ptr(b)] + (handles + multiset{Ptr(a)})[Ptr(b)]
    {
      assert b != a ==> IsLive(s, b);
    }
    forall r | r in handles + multiset{Ptr(a)} ensures ValidRef(t, r) {
      assert r != Ptr(a) ==> ValidRef(s, r);
    }
  }

  lemma FreeCellIsUnused(s: Store, rank: seq<nat>, handles: multiset<Ref>, a: Addr)
    requires Linked(s, rank) && Counted(s, handles, multiset{}) && !IsLive(s, a)
    ensures Edges(s)[Ptr(a)] == 0 && handles[Ptr(a)] == 0
  {
    assert !ValidRef(s, Ptr(a));
    if Ptr(a) in Edges(s) {
      EdgesAreValid(s, rank, Ptr(a));
    }
  }

  /** How each part of a summary grows by one child. */
  lemma OneMoreChild(lang: Language, inError: bool, p: nat, oldSize: Length, ds: seq<Data>, i: nat)
    requires i < |ds|
    ensures var front, more := ds[..i], ds[..i + 1];
            && StructuralIndex(more) == StructuralIndex(front) + (if ds[i].extra then 0 else 1)
            && Sum(lang, inError, p, more)
               == Combine(Sum(lang, inError, p, front), One(lang, inError, AliasAt(lang, p, StructuralIndex(front)), ds[i]))
            && SizeOf(more) == (if i == 0 then ds[0].size else Add(SizeOf(front), ds[i].Total()))
            && AnyError(more) == (AnyError(front) || ds[i].IsError())
            && AnyOnFirstRow(oldSize, more)
               == (AnyOnFirstRow(oldSize, front)
                   || (ds[i].DependsOnColumn() && (if i == 0 then oldSize else SizeOf(front)).extent.row == 0))
            && Sum(lang, inError, p, more).total == Add(ds[0].padding, SizeOf(more))
  {
    assert ds[..i + 1][..i] == ds[..i] && ds[..i + 1][i] == ds[i];
    SumTotals(lang, inError, p, ds[..i + 1]);
  }

  /** The dead cells are those on the stack and those in `others`, each once. */
  ghost predicate Waiting(s: Store, stack: seq<Addr>, others: set<Addr>) {
    && (forall i :: 0 <= i < |stack| ==> IsLive(s, stack[i]) && stack[i] !in others)
    && (forall i, j :: 0 <= i < j < |stack| ==> stack[i] != stack[j])
    && forall a: Addr :: IsLive(s, a) ==> (s[a].refCount == 0 <==> a in stack || a in others)
  }

  lemma {:induction false} PartOfCount<T>(xs: seq<T>, i: nat)
    requires i < |xs|
    ensures multiset(xs[..i])[xs[i]] < multiset(xs)[xs[i]]
  {
    assert xs == xs[..i] + [xs[i]] + xs[i + 1..];
  }

  /** The count of a child whose edge has not been dropped yet is positive. */
  lemma ChildIsCounted(s: Store, rank: seq<nat>, a: Addr, i: nat, handles: multiset<Ref>)
    requires Linked(s, rank) && IsLive(s, a) && i < |s[a].children| && s[a].children[i].Ptr?
    requires Counted(s, handles, multiset(s[a].children[..i]))
    ensures IsLive(s, s[a].children[i].addr) && s[s[a].children[i].addr].refCount > 0
    ensures s[a].children[i].addr != a
  {
    assert CellLinked(s, rank, a) && ValidRef(s, s[a].children[i]) && RankOf(rank, s[a].children[i]) <= rank[a];
    EdgesUpdate(s, a, s[a]);
    PartOfCount(s[a].children, i);
  }

  lemma DropKeepsWaiting(s: Store, stack: seq<Addr>, others: set<Addr>, r: Ref)
    requires Waiting(s, stack, others) && ValidRef(s, r) && (r.Ptr? ==> s[r.addr].refCount > 0)
    ensures Waiting(DropRef(s, r), DropStack(s, stack, r), others)
  {
    var t, stack' := DropRef(s, r), DropStack(s, stack, r);
    if r.Ptr? {
      assert r.addr !in stack && r.addr !in others;
    }
    forall c: Addr | IsLive(t, c) ensures t[c].refCount == 0 <==> c in stack' || c in others {
      assert IsLive(s, c);
    }
  }

  /** `s` after one reference to `r` has been given up. */
  function DropRef(s: Store, r: Ref): Store
    requires ValidRef(s, r) && (r.Ptr? ==> s[r.addr].refCount > 0)
  {
    match r
    case Inline(_) => s
    case Ptr(a) => WithCount(s, a, s[a].refCount - 1)
  }

  function DropStack(s: Store, stack: seq<Addr>, r: Ref): seq<Addr>
    requires ValidRef(s, r)
  {
    if r.Ptr? && s[r.addr].refCount == 1 then stack + [r.addr] else stack
  }

  /** One step of releasing the children of a dead cell. */
  lemma DropChild(s: Store, rank: seq<nat>, a: Addr, i: nat, handles: multiset<Ref>)
    requires Linked(s, rank) && IsLive(s, a) && i < |s[a].children|
    requires Counted(s, handles, multiset(s[a].children[..i]))
    ensures var r := s[a].children[i];
            && ValidRef(s, r) && (r.Ptr? ==> s[r.addr].refCount > 0)
            && Linked(DropRef(s, r), rank) && SameButCounts(s, DropRef(s, r))
            && Counted(DropRef(s, r), handles, multiset(s[a].children[..i + 1]))
  {
    hide Linked, Counted, DropRef, SameButCounts;
    OneMoreKid(s[a].children, i);
    DropOne(s, rank, a, i, handles, multiset(s[a].children[..i]));
  }

  lemma OneMoreKid(kids: seq<Ref>, i: nat)
    requires i < |kids|
    ensures multiset(kids[..i + 1]) == multiset(kids[..i]) + multiset{kids[i]}
  {
    assert kids[..i + 1] == kids[..i] + [kids[i]];
  }

  lemma DropOne(s: Store, rank: seq<nat>, a: Addr, i: nat, handles: multiset<Ref>, uncounted: multiset<Ref>)
    requires Linked(s, rank) && IsLive(s, a) && i < |s[a].children|
    requires Counted(s, handles, uncounted) && uncounted == multiset(s[a].children[..i])
    ensures var r := s[a].children[i];
            && ValidRef(s, r) && (r.Ptr? ==> s[r.addr].refCount > 0)
            && Linked(DropRef(s, r), rank) && SameButCounts(s, DropRef(s, r))
            && Counted(DropRef(s, r), handles, uncounted + multiset{r})
  {
    hide EdgesBelow;
    var r := s[a].children[i];
    assert CellLinked(s, rank, a) && ValidRef(s, r);
    hide Linked;
    if r.Ptr? {
      ChildIsCounted(s, rank, a, i, handles);
      hide Counted;
      LowerCount(s, rank, r.addr, handles, uncounted);
    } else {
      InlineIsUncounted(s, handles, uncounted, r);
    }
  }

  lemma InlineIsUncounted(s: Store, handles: multiset<Ref>, uncounted: multiset<Ref>, r: Ref)
    requires r.Inline? && ValidRef(s, r)
    ensures Counted(s, handles, uncounted) ==> Counted(s, handles, uncounted + multiset{r})
    ensures Counted(s, handles + multiset{r}, uncounted) ==> Counted(s, handles, uncounted)
  {
    hide Edges;
  }

  lemma DropKeepsLinks(s: Store, rank: seq<nat>, r: Ref, free: seq<Addr>)
    requires Linked(s, rank) && FreeListOk(s, free) && ValidRef(s, r) && (r.Ptr? ==> s[r.addr].refCount > 0)
    ensures Linked(DropRef(s, r), rank) && Extends(DropRef(s, r), s) && FreeListOk(DropRef(s, r), free)
  {
    if r.Ptr? {
      WithCountKeeps(s, rank, r.addr, s[r.addr].refCount - 1);
    }
  }

  /** The very first reference that a release gives up. */
  lemma FirstDrop(s: Store, rank: seq<nat>, r: Ref, keep: multiset<Ref>)
    requires Linked(s, rank) && Counted(s, keep + multiset{r}, multiset{}) && NoneDead(s)
    ensures ValidRef(s, r) && (r.Ptr? ==> s[r.addr].refCount > 0)
    ensures Counted(DropRef(s, r), keep, multiset{}) && Waiting(DropRef(s, r), DropStack(s, [], r), {})
  {
    hide Linked, Waiting, Edges;
    assert r in keep + multiset{r};
    EmptyWaiting(s);
    if r.Ptr? {
      LowerCount(s, rank, r.addr, keep + multiset{r}, multiset{});
    }
    DropKeepsWaiting(s, [], {}, r);
  }

  /** Once its children are released nothing refers to a dead cell, nor did it refer to itself. */
  lemma DeadCellIsUnused(s: Store, rank: seq<nat>, a: Addr, handles: multiset<Ref>)
    requires Linked(s, rank) && IsLive(s, a) && s[a].refCount == 0
    requires Counted(s, handles, multiset(s[a].children))
    ensures Edges(s)[Ptr(a)] == 0 && handles[Ptr(a)] == 0 && Ptr(a) !in s[a].children
  {
    assert CellLinked(s, rank, a);
  }

  lemma FreeKeepsLinked(s: Store, rank: seq<nat>, a: Addr)
    requires Linked(s, rank) && IsLive(s, a) && Edges(s)[Ptr(a)] == 0
    ensures Linked(s[a := Free], rank) && LiveSet(s[a := Free]) == LiveSet(s) - {a} && Extends(s[a := Free], s)
  {
    hide Edges;
    var t := s[a := Free];
    forall b: Addr | IsLive(t, b) ensures CellLinked(t, rank, b) {
      assert CellLinked(s, rank, b);
      forall i | 0 <= i < |t[b].children| ensures ValidRef(t, t[b].children[i]) {
        KidIsEdge(s, b, i);
        assert ValidRef(s, s[b].children[i]);
      }
    }
  }

  lemma KidIsEdge(s: Store, a: Addr, i: nat)
    requires IsLive(s, a) && i < |s[a].children|
    ensures Edges(s)[s[a].children[i]] > 0
  {
    hide Edges;
    EdgesUpdate(s, a, s[a]);
    assert s[a].children[i] in multiset(s[a].children);
  }

  lemma FreeKeepsCounted(s: Store, a: Addr, handles: multiset<Ref>)
    requires IsLive(s, a) && Counted(s, handles, multiset(s[a].children)) && handles[Ptr(a)] == 0
    ensures Counted(s[a := Free], handles, multiset{})
  {
    hide EdgesBelow;
    var t := s[a := Free];
    EdgesUpdate(s, a, Free);
    forall b: Addr | IsLive(t, b) ensures t[b].refCount == Edges(t)[Ptr(b)] + handles[Ptr(b)] {
      assert IsLive(s, b);
    }
    forall r | r in handles ensures ValidRef(t, r) {
      assert ValidRef(s, r);
    }
  }

  lemma FreeKeepsLists(s: Store, a: Addr, stack: seq<Addr>, free: seq<Addr>)
    requires IsLive(s, a) && Waiting(s, stack, {a}) && FreeListOk(s, free)
    ensures Waiting(s[a := Free], stack, {}) && FreeListOk(s[a := Free], free + [a]) && FreeListOk(s[a := Free], free)
  {
    var t := s[a := Free];
    forall b: Addr | IsLive(t, b) ensures t[b].refCount == 0 <==> b in stack {
      assert IsLive(s, b);
    }
  }

  function MaxRank(rank: seq<nat>): (m: nat)
    ensures forall i :: 0 <= i < |rank| ==> rank[i] <= m
  {
    if rank == [] then 0 else Max(MaxRank(rank[..|rank| - 1]), rank[|rank| - 1])
  }

  /** What survives is exactly what the remaining handles can reach. */
  lemma ReleasedExactly(s: Store, t: Store, rank: seq<nat>, keep: multiset<Ref>)
    requires Linked(t, rank) && Counted(t, keep, multiset{}) && NoneDead(t) && Extends(t, s)
    ensures forall a: Addr :: IsLive(t, a) <==> Reachable(s, keep, a)
  {
    forall a: Addr ensures IsLive(t, a) <==> Reachable(s, keep, a) {
      if IsLive(t, a) {
        LiveIsReachable(t, rank, keep, a, MaxRank(rank));
        var path :| LeadsTo(t, keep, path, a);
        assert LeadsTo(s, keep, path, a);
      } else if Reachable(s, keep, a) {
        var path :| LeadsTo(s, keep, path, a);
        ReachableSurvives(s, rank, t, keep, path, a);
      }
    }
  }

  lemma ExtendsTransitive(s: Store, t: Store, u: Store)
    requires Extends(s, t) && Extends(t, u)
    ensures Extends(s, u)
  {
  }

  lemma PopWaiting(s: Store, stack: seq<Addr>)
    requires Waiting(s, stack, {}) && stack != []
    ensures var a := stack[|stack| - 1];
            Waiting(s, stack[..|stack| - 1], {a}) && IsLive(s, a) && a in LiveSet(s)
  {
  }

  lemma EmptyWaiting(s: Store)
    ensures Waiting(s, [], {}) <==> NoneDead(s)
  {
  }

  lemma LinkedAt(s: Store, rank: seq<nat>, a: Addr)
    requires Linked(s, rank) && IsLive(s, a)
    ensures |rank| == |s| && CellLinked(s, rank, a)
  {
  }

  lemma AppendKeepsFreeList(s: Store, c: Cell, free: seq<Addr>)
    requires FreeListOk(s, free)
    ensures FreeListOk(s + [c], free)
  {
  }

  /** Cloning for one owner keeps the counts exact and changes no tree that anyone can see. */
  lemma CloneIsInvisible(s: Store, rank: seq<nat>, a: Addr, keep: multiset<Ref>)
    requires Linked(s, rank) && IsLive(s, a) && s[a].refCount > 1
    ensures CellLinked(s, rank, a)
    ensures var t, rank', n := CloneShared(s, a), rank + [rank[a]], Ptr(|s|);
            && Linked(t, rank') && ValidRef(t, n) && t[|s|].refCount == 1
            && View(t, rank', n) == View(s, rank, Ptr(a))
            && (forall q :: ValidRef(s, q) ==> ValidRef(t, q) && View(t, rank', q) == View(s, rank, q))
            && (Counted(s, keep + multiset{Ptr(a)}, multiset{}) && NoneDead(s) ==>
                  Counted(t, keep + multiset{n}, multiset{}) && NoneDead(t))
  {
    LinkedAt(s, rank, a);
    hide Linked, CellLinked, CloneShared, Extends;
    CloneSharedFacts(s, rank, a);
    CloneSharedCellCounts(s, rank, a, a);
    var t, rank', n := CloneShared(s, a), rank + [rank[a]], Ptr(|s|);
    forall q | ValidRef(s, q) ensures ValidRef(t, q) && View(t, rank', q) == View(s, rank, q) {
      ExtendsKeepsViews(s, rank, t, rank', q);
    }
    assert View(t, rank', n) == View(s, rank, Ptr(a)) by {
      forall i | 0 <= i < |s[a].children| ensures Views(t, rank', |s|)[i] == Views(s, rank, a)[i] {
        assert ValidRef(s, s[a].children[i]);
      }
    }
    if Counted(s, keep + multiset{Ptr(a)}, multiset{}) && NoneDead(s) {
      CloneSharedCounts(s, rank, a, keep + multiset{Ptr(a)}, multiset{});
      hide NoneDead;
      MoveHandle(t, keep, Ptr(a), n);
    }
  }

  lemma MoveHandle(t: Store, keep: multiset<Ref>, before: Ref, after: Ref)
    requires Counted(t, keep + multiset{before} + multiset{after}, multiset{} + multiset{before})
    ensures Counted(t, keep + multiset{after}, multiset{})
  {
    forall r | r in keep + multiset{after} ensures ValidRef(t, r) {
      assert r in keep + multiset{before} + multiset{after};
    }
  }

  /** Copying and retaining, then dropping the original, is what `CloneShared` describes. */
  lemma CloneThenDrop(s: Store, rank: seq<nat>, a: Addr, t: Store)
    requires IsLive(s, a) && s[a].refCount > 1 && |rank| == |s| && CellLinked(s, rank, a)
    requires var copied := s + [Live(1, s[a].data, s[a].children)];
             && (forall i :: 0 <= i < |s[a].children| ==> ValidRef(copied, s[a].children[i]))
             && t == RetainAll(copied, s[a].children)
    ensures IsLive(t, a) && t[a].refCount > 1 && DropRef(t, Ptr(a)) == CloneShared(s, a)
  {
  }

  /** A new node takes its children's handles over as edges. */
  lemma AppendNode(s: Store, rank: seq<nat>, d: Data, children: seq<Ref>, held: multiset<Ref>)
    requires Linked(s, rank) && Counted(s, held + multiset(children), multiset{}) && NoneDead(s)
    requires !d.inline && d.childCount == |children|
    ensures var t := s + [Live(1, d, children)];
            && Linked(t, rank + [MaxRank(rank) + 1]) && NoneDead(t) && Extends(s, t)
            && Counted(t, held + multiset{Ptr(|s|)}, multiset{})
  {
    hide EdgesBelow, MaxRank;
    var n, cell := Ptr(|s|), Live(1, d, children);
    var t := s + [cell];
    forall i | 0 <= i < |children| ensures ValidRef(s, children[i]) && RankOf(rank, children[i]) <= MaxRank(rank) + 1 {
      assert children[i] in held + multiset(children);
    }
    AppendKeepsLinked(s, rank, cell, MaxRank(rank) + 1);
    EdgesAppend(s, cell);
    NewAddressIsUnused(s, rank, held + multiset(children), multiset{});
    hide Linked, EdgesBelow;
    forall b: Addr | IsLive(t, b) ensures t[b].refCount == Edges(t)[Ptr(b)] + (held + multiset{n})[Ptr(b)] {
      assert b < |s| ==> IsLive(s, b);
    }
    forall r | r in held + multiset{n} ensures ValidRef(t, r) {
      assert r != n ==> r in held + multiset(children) && ValidRef(s, r);
    }
  }

  lemma SummaryKeepsCounts(t: Store, rank: seq<nat>, a: Addr, d: Data, handles: multiset<Ref>, s: Store)
    requires Linked(t, rank) && IsLive(t, a) && !d.inline && d.childCount == t[a].data.childCount
    requires Counted(t, handles, multiset{}) && NoneDead(t) && Extends(s, t) && !IsLive(s, a)
    ensures var u := WithData(t, a, d); Counted(u, handles, multiset{}) && NoneDead(u) && Extends(s, u)
  {
    var u := WithData(t, a, d);
    WithDataKeeps(t, rank, a, d);
    hide Linked, Edges;
    forall b: Addr | IsLive(u, b) ensures u[b].refCount == Edges(u)[Ptr(b)] + handles[Ptr(b)] && u[b].refCount > 0 {
      assert IsLive(t, b);
    }
    forall r | r in handles ensures ValidRef(u, r) {
      assert ValidRef(t, r);
    }
  }

  lemma SummaryOfAgrees(lang: Language, d: Data, ds: seq<Data>)
    requires |ds| == d.childCount && !d.inline
    ensures var s := SummaryOf(lang, d, ds);
            && AgreesWith(lang, s, ds) && !s.inline && s.childCount == d.childCount
            && s.dynamicPrecedence == Sum(lang, ChargesExtent(s.symbol), s.productionId, ds).dynamicPrecedence
  {
    if ds == [] {
      NoTotals(lang, ChargesExtent(d.symbol), d.productionId);
    } else {
      SummarizeAgrees(lang, d, ds);
    }
  }

  lemma SummarizeAgrees(lang: Language, d: Data, ds: seq<Data>)
    requires |ds| == d.childCount && !d.inline && ds != []
    ensures var s := Summarize(lang, d, ds);
            && AgreesWith(lang, s, ds) && !s.inline && s.childCount == d.childCount
            && s.dynamicPrecedence == Sum(lang, ChargesExtent(s.symbol), s.productionId, ds).dynamicPrecedence
  {
    hide Sum, SizeOf, AnyError, AnyOnFirstRow, MaxRepeatDepth, ExtentCost;
    var s := Summarize(lang, d, ds);
    assert s.symbol == d.symbol && s.productionId == d.productionId;
    assert Kept(Summarize(lang, s, ds)) == Kept(s);
  }

  lemma NoTotals(lang: Language, inError: bool, p: nat)
    ensures Sum(lang, inError, p, []) == NOTHING
  {
  }

  // ----- how high a repetition is nested -------------------------------------------------------

  function DepthAt(s: Store, r: Ref): nat { if ValidRef(s, r) then RefData(s, r).RepeatDepth() else 0 }

  predicate HasSymbol(s: Store, r: Ref, symbol: Symbol) { ValidRef(s, r) && RefData(s, r).symbol == symbol }

  /** One more than the higher of the first and the last child, for a hidden node that begins with its own symbol. */
  function DepthFrom(s: Store, a: Addr): nat
    requires IsLive(s, a)
  {
    var d, kids := s[a].data, s[a].children;
    if |kids| >= 2 && !d.visible && !d.named && HasSymbol(s, kids[0], d.symbol) then
      var first, last := DepthAt(s, kids[0]), DepthAt(s, kids[|kids| - 1]);
      1 + if first < last then last else first
    else 0
  }

  /** The cell caches how high its children say that it is nested. */
  predicate DepthTrue(s: Store, a: Addr) { IsLive(s, a) && s[a].data.repeatDepth == DepthFrom(s, a) }

  /** A cell that has been summarised does. */
  lemma SummaryDepth(lang: Language, s: Store, rank: seq<nat>, a: Addr)
    requires Linked(s, rank) && IsLive(s, a) && CellLinked(s, rank, a)
    ensures DepthTrue(WithData(s, a, SummaryOf(lang, s[a].data, RefDatas(s, s[a].children))), a)
  {
    LinkedAt(s, rank, a);
    hide Linked, Sum, SizeOf, AnyError, AnyOnFirstRow;
    var kids := s[a].children;
    var u := WithData(s, a, SummaryOf(lang, s[a].data, RefDatas(s, kids)));
    forall i | 0 <= i < |kids| ensures ValidRef(s, kids[i]) && ValidRef(u, kids[i]) && RefData(u, kids[i]) == RefData(s, kids[i]) {
      assert ValidRef(s, kids[i]) && RankOf(rank, kids[i]) <= rank[a];
    }
  }

  lemma SummaryAgrees(lang: Language, t: Store, rank: seq<nat>, a: Addr, d: Data)
    requires Linked(t, rank) && IsLive(t, a) && CellLinked(t, rank, a)
    requires d == SummaryOf(lang, t[a].data, RefDatas(t, t[a].children))
    ensures var u := WithData(t, a, d);
            && IsLive(u, a) && Linked(u, rank) && CellLinked(u, rank, a)
            && AgreesWith(lang, d, RefDatas(u, t[a].children))
            && d.dynamicPrecedence
               == Sum(lang, ChargesExtent(d.symbol), d.productionId, RefDatas(u, t[a].children)).dynamicPrecedence
  {
    hide Edges, EdgesBelow, SummaryOf, Sum, AgreesWith, Linked;
    var u := WithData(t, a, d);
    SummaryOfAgrees(lang, t[a].data, RefDatas(t, t[a].children));
    WithDataKeeps(t, rank, a, d);
    LinkedAt(u, rank, a);
    forall i | 0 <= i < |t[a].children| ensures RefDatas(u, t[a].children)[i] == RefDatas(t, t[a].children)[i] {
      assert ValidRef(t, t[a].children[i]) && RankOf(rank, t[a].children[i]) <= rank[a];
    }
    assert RefDatas(u, t[a].children) == RefDatas(t, t[a].children);
  }

  class SubtreePool {
    var store: Store
    var freeTrees: seq<Addr>
    var treeStack: seq<Addr>
    ghost var rank: seq<nat>

    ghost predicate Consistent()
      reads this
    {
      Linked(store, rank) && FreeListOk(store, freeTrees)
    }

    /** Every count is exact with respect to the handles held outside, and nothing is garbage. */
    ghost predicate Valid(handles: multiset<Ref>)
      reads this
    {
      Consistent() && Counted(store, handles, multiset{}) && NoneDead(store)
    }

    constructor ()
      ensures Valid(multiset{}) && store == []
    {
      store, freeTrees, treeStack, rank := [], [], [], [];
    }

    /** What one more child, ending at `end`, adds to the totals of the children before it. */
    method AddUpChild(lang: Language, inError: bool, alias: Symbol, end: Length, totals: Totals, child: Data)
      returns (t: Totals)
      requires end == Add(totals.total, child.Total())
      ensures t == Combine(totals, One(lang, inError, alias, child))
    {
      t := totals.(
        total := end,
        lookaheadEnd := Max(totals.lookaheadEnd, end.bytes + child.lookaheadBytes),
        errorCost := totals.errorCost + Charge(inError, child),
        dynamicPrecedence := totals.dynamicPrecedence + child.DynamicPrecedence(),
        visibleDescendants := totals.visibleDescendants + child.VisibleDescendants(),
        externalTokens := totals.externalTokens || child.HasExternalTokens());
      var a := EffectiveAlias(alias, child);
      if a != 0 {
        t := t.(visibleDescendants := t.visibleDescendants + 1, visibleChildren := t.visibleChildren + 1,
                namedChildren := t.namedChildren + if lang.isNamed(a) then 1 else 0);
      } else if child.visible {
        t := t.(visibleDescendants := t.visibleDescendants + 1, visibleChildren := t.visibleChildren + 1,
                namedChildren := t.namedChildren + if child.named then 1 else 0);
      } else if child.childCount > 0 {
        t := t.(visibleChildren := t.visibleChildren + child.visibleChildCount,
                namedChildren := t.namedChildren + child.namedChildCount);
      }
    }

    /** The loop over a node's children: its extent, parse state, column dependency and totals. */
    method AddUpChildren(lang: Language, before: Data, children: seq<Ref>)
      returns (padding: Length, size: Length, parseState: nat, dependsOnColumn: bool, totals: Totals)
      requires forall i :: 0 <= i < |children| ==> ValidRef(store, children[i])
      ensures var ds := RefDatas(store, children);
        && totals == Sum(lang, ChargesExtent(before.symbol), before.productionId, ds)
        && padding == (if ds == [] then before.padding else ds[0].padding)
        && size == (if ds == [] then before.size else SizeOf(ds))
        && parseState == (if AnyError(ds) then STATE_NONE else before.parseState)
        && dependsOnColumn == AnyOnFirstRow(before.size, ds)
    {
      var s := store;
      ghost var ds := RefDatas(s, children);
      var inError, p := ChargesExtent(before.symbol), before.productionId;
      padding, size, parseState := before.padding, before.size, before.parseState;
      dependsOnColumn := false;
      totals := NOTHING;
      var structuralIndex, i := 0, 0;
      while i < |children|
        invariant 0 <= i <= |children|
        invariant structuralIndex == StructuralIndex(ds[..i])
        invariant i > 0 ==> padding == ds[0].padding && size == SizeOf(ds[..i])
        invariant i == 0 ==> padding == before.padding && size == before.size
        invariant parseState == if AnyError(ds[..i]) then STATE_NONE else before.parseState
        invariant dependsOnColumn == AnyOnFirstRow(before.size, ds[..i])
        invariant totals == Sum(lang, inError, p, ds[..i])
      {
        assert ValidRef(s, children[i]);
        var child := RefData(s, children[i]);
        OneMoreChild(lang, inError, p, before.size, ds, i);
        dependsOnColumn := dependsOnColumn || (size.extent.row == 0 && child.DependsOnColumn());
        if i == 0 {
          padding, size := child.padding, child.size;
        } else {
          size := Add(size, child.Total());
        }
        totals := AddUpChild(lang, inError, AliasAt(lang, p, structuralIndex), Add(padding, size), totals, child);
        if child.IsError() {
          parseState := STATE_NONE;
        }
        if !child.extra {
          structuralIndex := structuralIndex + 1;
        }
        i := i + 1;
      }
      assert ds[..|children|] == ds;
    }

    /** Assign all of the node's properties that depend on its children. */
    method SummarizeChildren(lang: Language, a: Addr)
      requires Consistent() && IsLive(store, a)
      modifies this`store
      ensures Consistent()
      ensures IsLive(old(store), a) && CellLinked(old(store), rank, a)
      ensures store == WithData(old(store), a, SummaryOf(lang, old(store)[a].data, RefDatas(old(store), old(store)[a].children)))
      ensures DepthTrue(store, a)
    {
      assert CellLinked(store, rank, a);
      SummaryDepth(lang, store, rank, a);
      var s, before, children := store, store[a].data, store[a].children;
      ghost var ds := RefDatas(s, children);
      var padding, size, parseState, dependsOnColumn, totals := AddUpChildren(lang, before, children);
      var d := SummarizeChildless(before);
      if |children| > 0 {
        assert ValidRef(s, children[0]) && ValidRef(s, children[|children| - 1]);
        var first, last := RefData(s, children[0]), RefData(s, children[|children| - 1]);
        d := Assign(before, first, last, size, parseState, dependsOnColumn, totals);
      }
      store := WithData(s, a, d);
      WithDataKeeps(s, rank, a, d);
    }

    /** Take memory for a new leaf, from the free list if it has any; the caller owns the result. */
    method Allocate(d: Data, ghost held: multiset<Ref>) returns (a: Addr)
      requires Valid(held) && !d.inline && d.childCount == 0
      modifies this
      ensures Valid(held + multiset{Ptr(a)}) && !IsLive(old(store), a) && Extends(old(store), store)
      ensures IsLive(store, a) && store[a] == Live(1, d, [])
      ensures NewLeafAt(old(store), old(rank), store, rank, a, d)
    {
      hide CellLinked, EdgesBelow, Counted;
      ghost var s, r := store, rank;
      if |freeTrees| > 0 {
        a := freeTrees[|freeTrees| - 1];
        freeTrees := freeTrees[..|freeTrees| - 1];
        store := store[a := Live(1, d, [])];
        rank := rank[a := 0];
      } else {
        a := |store|;
        store := store + [Live(1, d, [])];
        rank := rank + [0];
      }
      NewLeafLinked(s, r, store, rank, a, d);
      NewLeafCounted(s, r, store, rank, a, d, held);
    }

    /** Take another share of a subtree. */
    method Retain(r: Ref, ghost held: multiset<Ref>)
      requires Consistent() && ValidRef(store, r)
      modifies this`store
      ensures Consistent() && ValidRef(old(store), r) && store == RaiseRef(old(store), r)
      ensures old(Valid(held)) ==> Valid(held + multiset{r})
    {
      hide Linked, EdgesBelow;
      if r.Ptr? {
        WithCountKeeps(store, rank, r.addr, store[r.addr].refCount + 1);
        if Counted(store, held, multiset{}) {
          RaiseCount(store, rank, r.addr, held, multiset{});
        }
        store := WithCount(store, r.addr, store[r.addr].refCount + 1);
      }
    }

    /** Copy a shared cell; the copy takes its own share of every child. */
    method Clone(a: Addr) returns (n: Addr)
      requires Consistent() && IsLive(store, a)
      modifies this`store, this`rank
      ensures n == |old(store)| && Consistent() && rank == old(rank) + [old(rank)[a]]
      ensures IsLive(old(store), a) && CellLinked(old(store), old(rank), a)
      ensures var copied := old(store) + [Live(1, old(store)[a].data, old(store)[a].children)];
              && (forall i :: 0 <= i < |old(store)[a].children| ==> ValidRef(copied, old(store)[a].children[i]))
              && store == RetainAll(copied, old(store)[a].children)
    {
      hide Linked, FreeListOk, EdgesBelow, Counted;
      LinkedAt(store, rank, a);
      hide CellLinked;
      n := |store|;
      var children := store[a].children;
      var cell := Live(1, store[a].data, children);
      AppendKeepsLinked(store, rank, cell, rank[a]);
      AppendKeepsFreeList(store, cell, freeTrees);
      store := store + [cell];
      rank := rank + [rank[a]];
      ghost var copied, ranked := store, rank;
      hide RaiseRef, WithCount, RetainAll;
      RetainNone(copied, children);
      for i := 0 to |children|
        invariant Consistent() && rank == ranked
        invariant forall k :: 0 <= k < |children| ==> ValidRef(copied, children[k])
        invariant store == RetainAll(copied, children[..i])
      {
        RetainMore(copied, children, i);
        Retain(children[i], multiset{});
      }
      assert children[..|children|] == children;
    }

    /**
     * Get a version of a subtree that may be changed in place: itself if it has one owner, a
     * clone otherwise. Either way every reference keeps the tree it stands for.
     */
    method MakeMut(r: Ref, ghost keep: multiset<Ref>) returns (m: Ref)
      requires Consistent() && ValidRef(store, r) && (r.Ptr? ==> store[r.addr].refCount > 0)
      modifies this
      ensures Consistent() && ValidRef(store, m) && ValidRef(old(store), r)
      ensures View(store, rank, m) == old(View(store, rank, r))
      ensures forall q :: ValidRef(old(store), q) ==>
                ValidRef(store, q) && View(store, rank, q) == View(old(store), old(rank), q)
      ensures old(Valid(keep + multiset{r})) ==> Valid(keep + multiset{m})
      ensures m.Ptr? ==> store[m.addr].refCount == 1
      ensures r.Inline? || old(store)[r.addr].refCount == 1 ==> m == r && store == old(store) && rank == old(rank)
      ensures r.Ptr? && old(store)[r.addr].refCount > 1 ==>
                && CellLinked(old(store), old(rank), r.addr)
                && m == Ptr(|old(store)|) && store == CloneShared(old(store), r.addr)
                && rank == old(rank) + [old(rank)[r.addr]]
    {
      hide Linked, Counted, NoneDead, FreeListOk, CloneShared, Extends, View, Views, DropRef;
      ghost var s, ranked := store, rank;
      if r.Inline? || store[r.addr].refCount == 1 {
        return r;
      }
      LinkedAt(store, rank, r.addr);
      CloneIsInvisible(store, rank, r.addr, keep);
      var n := Clone(r.addr);
      m := Ptr(n);
      CloneThenDrop(s, ranked, r.addr, store);
      Release(r, multiset{});
    }

    /** Make a leaf: inside the reference if it fits there, in a cell of its own otherwise. */
    method NewLeaf(symbol: Symbol, padding: Length, size: Length, lookaheadBytes: nat, parseState: nat,
                   hasExternalTokens: bool, dependsOnColumn: bool, visible: bool, named: bool,
                   ghost held: multiset<Ref>)
      returns (r: Ref)
      requires Valid(held)
      modifies this
      ensures Valid(held + multiset{r}) && Extends(old(store), store)
      ensures r.Inline? <==>
                && symbol <= 255 && !hasExternalTokens && lookaheadBytes < 16
                && padding.bytes < 255 && padding.extent.row < 16 && padding.extent.column < 255
                && size.bytes < 255 && size.extent.row == 0 && size.extent.column < 255
      ensures var d := RefData(store, r);
        && d.symbol == symbol && d.padding == padding && d.lookaheadBytes == lookaheadBytes && d.childCount == 0
        && d.size == (if r.Inline? then Length(size.bytes, Point(0, size.bytes)) else size)
        && d.extra == (symbol == SYM_END) && !d.hasChanges && !d.isMissing
        && d.parseState == parseState && d.visible == visible && d.named == named
        && d.HasExternalTokens() == hasExternalTokens && d.DependsOnColumn() == (r.Ptr? && dependsOnColumn)
        && d.ErrorCost() == 0 && d.RepeatDepth() == 0
    {
      var inline := symbol <= 255 && !hasExternalTokens && CanInline(padding, size, lookaheadBytes);
      var d := Data(
        inline, symbol, parseState, padding,
        if inline then Length(size.bytes, Point(0, size.bytes)) else size,
        lookaheadBytes, 0, visible, named, symbol == SYM_END, false, hasExternalTokens, dependsOnColumn, false,
        0, 0, 0, 0, 0, 0, 0, 0, 0);
      if inline {
        r := Inline(d);
      } else {
        var a := Allocate(d, held);
        r := Ptr(a);
      }
    }

    /** Make a node that takes over the caller's shares of its children. */
    method NewNode(lang: Language, symbol: Symbol, children: seq<Ref>, productionId: nat, visible: bool, named: bool,
                   ghost held: multiset<Ref>)
      returns (a: Addr)
      requires Valid(held + multiset(children))
      modifies this`store, this`rank
      ensures Valid(held + multiset{Ptr(a)}) && !IsLive(old(store), a) && Extends(old(store), store)
      ensures IsLive(store, a) && store[a].children == children && CellLinked(store, rank, a)
      ensures store[a].data.symbol == symbol && store[a].data.productionId == productionId
      ensures AgreesWith(lang, store[a].data, RefDatas(store, children))
      ensures store[a].data.dynamicPrecedence == Sum(lang, ChargesExtent(symbol), productionId, RefDatas(store, children)).dynamicPrecedence
      ensures DepthTrue(store, a)
    {
      hide Linked, Counted, NoneDead, FreeListOk, Extends, DepthTrue;
      a := |store|;
      ghost var s := store;
      var d := Data(
        false, symbol, 0, ZERO, ZERO, 0, 0, visible, named, false, false, false, false, false,
        |children|, 0, 0, 0, 0, 0, productionId, 0, 0);
      AppendNode(s, rank, d, children, held);
      AppendKeepsFreeList(store, Live(1, d, children), freeTrees);
      store := store + [Live(1, d, children)];
      rank := rank + [MaxRank(rank) + 1];
      ghost var linked := store;
      SummarizeChildren(lang, a);
      SummaryKeepsCounts(linked, rank, a, store[a].data, held + multiset{Ptr(a)}, s);
      SummaryAgrees(lang, linked, rank, a, store[a].data);
    }

    /** Give up one reference; a cell that loses its last one is queued. */
    method Drop(r: Ref)
      requires ValidRef(store, r) && (r.Ptr? ==> store[r.addr].refCount > 0)
      modifies this`store, this`treeStack
      ensures ValidRef(old(store), r) && store == DropRef(old(store), r)
      ensures treeStack == DropStack(old(store), old(treeStack), r)
    {
      if r.Inline? {
        return;
      }
      store := WithCount(store, r.addr, store[r.addr].refCount - 1);
      if store[r.addr].refCount == 0 {
        treeStack := treeStack + [r.addr];
      }
    }

    /** Drop the references a dead cell holds, queueing the cells that die of it. */
    method ReleaseChildren(a: Addr, ghost handles: multiset<Ref>)
      requires Linked(store, rank) && IsLive(store, a)
      requires Counted(store, handles, multiset{}) && Waiting(store, treeStack, {a})
      modifies this`store, this`treeStack
      ensures SameButCounts(old(store), store) && Linked(store, rank) && IsLive(store, a)
      ensures Counted(store, handles, multiset(store[a].children)) && Waiting(store, treeStack, {a})
    {
      hide Linked, Counted, Edges, EdgesBelow, Waiting, DropStack;
      var children := store[a].children;
      ghost var s := store;
      for i := 0 to |children|
        invariant SameButCounts(s, store) && Linked(store, rank)
        invariant Counted(store, handles, multiset(children[..i])) && Waiting(store, treeStack, {a})
      {
        assert store[a].children == children;
        DropChild(store, rank, a, i, handles);
        DropKeepsWaiting(store, treeStack, {a}, children[i]);
        Drop(children[i]);
      }
      assert children[..|children|] == children;
    }

    /** Free a dead cell: leaves go to the pool's free list while it has room. */
    method ReleaseCell(a: Addr, ghost keep: multiset<Ref>)
      requires Consistent() && IsLive(store, a)
      requires Counted(store, keep, multiset{}) && Waiting(store, treeStack, {a})
      modifies this`store, this`treeStack, this`freeTrees
      ensures Consistent() && Counted(store, keep, multiset{}) && Waiting(store, treeStack, {})
      ensures Extends(store, old(store)) && LiveSet(store) == LiveSet(old(store)) - {a}
    {
      hide Linked, CellLinked, EdgesBelow, Counted;
      ghost var s := store;
      ReleaseChildren(a, keep);
      SameButCountsKeeps(s, rank, store);
      assert FreeListOk(store, freeTrees);
      DeadCellIsUnused(store, rank, a, keep);
      FreeKeepsLinked(store, rank, a);
      FreeKeepsCounted(store, a, keep);
      FreeKeepsLists(store, a, treeStack, freeTrees);
      var leaf := |store[a].children| == 0;
      store := store[a := Free];
      if leaf && |freeTrees| + 1 <= MAX_TREE_POOL_SIZE {
        freeTrees := freeTrees + [a];
      }
    }

    /** Free the queued cells and everything that dies with them. */
    method FreeQueued(ghost keep: multiset<Ref>)
      requires Consistent() && Counted(store, keep, multiset{}) && Waiting(store, treeStack, {})
      modifies this`store, this`treeStack, this`freeTrees
      ensures Valid(keep) && Extends(store, old(store))
    {
      hide Linked, Counted, Waiting, FreeListOk, Extends, NoneDead, LiveSet;
      ghost var s := store;
      ExtendsTransitive(s, s, s);
      while |treeStack| > 0
        invariant Consistent() && Counted(store, keep, multiset{}) && Waiting(store, treeStack, {})
        invariant Extends(store, s)
        decreases |LiveSet(store)|
      {
        PopWaiting(store, treeStack);
        var a := treeStack[|treeStack| - 1];
        treeStack := treeStack[..|treeStack| - 1];
        ghost var before := store;
        ReleaseCell(a, keep);
        ExtendsTransitive(store, before, s);
      }
      EmptyWaiting(store);
    }

    /**
     * Give up one share of a subtree. When it was the last one, the cells that could be reached
     * only through it are freed, each once, and everything else stays as it is.
     */
    method Release(r: Ref, ghost keep: multiset<Ref>)
      requires Consistent() && ValidRef(store, r) && (r.Ptr? ==> store[r.addr].refCount > 0)
      requires r.Ptr? && store[r.addr].refCount == 1 ==> Valid(keep + multiset{r})
      modifies this
      ensures Consistent() && rank == old(rank)
      ensures ValidRef(old(store), r)
      ensures r.Inline? || old(store)[r.addr].refCount > 1 ==> store == DropRef(old(store), r)
      ensures old(Valid(keep + multiset{r})) ==>
                && Valid(keep) && Extends(store, old(store))
                && forall a: Addr :: IsLive(store, a) <==> Reachable(old(store), keep, a)
    {
      hide Linked, Counted, Waiting, FreeListOk, Extends, NoneDead, LiveSet;
      ghost var s := store;
      treeStack := [];
      DropKeepsLinks(store, rank, r, freeTrees);
      if Counted(s, keep + multiset{r}, multiset{}) && NoneDead(s) {
        FirstDrop(store, rank, r, keep);
      }
      Drop(r);
      if |treeStack| > 0 {
        ghost var dropped := store;
        FreeQueued(keep);
        ExtendsTransitive(store, dropped, s);
      } else {
        EmptyWaiting(store);
      }
      if Counted(s, keep + multiset{r}, multiset{}) && NoneDead(s) {
        ReleasedExactly(s, store, rank, keep);
      }
    }
  }
}
