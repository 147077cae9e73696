/** One rotation of a repetition in shared memory, and why nobody can tell. */
module Rotations {
  import opened Lengths
  import opened Subtrees
  import opened Summaries
  import opened SubtreePools
  import opened Ownership
  import opened Meanings

  // ----- the rotation --------------------------------------------------------------------------

  /** A cell with one owner and at least two children, for a repetition of `symbol`. */
  predicate IsLink(s: Store, r: Ref, symbol: Symbol) {
    && r.Ptr? && IsLive(s, r.addr) && s[r.addr].refCount <= 1 && |s[r.addr].children| >= 2
    && s[r.addr].data.symbol == symbol
  }

  predicate Rotatable(s: Store, t: Addr, symbol: Symbol) {
    && IsLink(s, Ptr(t), symbol)
    && IsLink(s, s[t].children[0], symbol)
    && IsLink(s, s[s[t].children[0].addr].children[0], symbol)
  }

  function Child(s: Store, t: Addr): Addr
    requires IsLive(s, t) && |s[t].children| > 0 && s[t].children[0].Ptr?
  {
    s[t].children[0].addr
  }

  /** The child's last grandchild moves up to the child, and the grandchild takes the child in. */
  function Rotate(s: Store, t: Addr, c: Addr, g: Addr): Store
    requires IsLive(s, t) && IsLive(s, c) && IsLive(s, g) && t != c && c != g && t != g
    requires |s[t].children| > 0 && |s[c].children| > 0 && |s[g].children| > 0
  {
    var last := |s[g].children| - 1;
    SetKid(SetKid(SetKid(s, t, 0, Ptr(g)), c, 0, s[g].children[last]), g, last, Ptr(c))
  }

  /** Ranks after a rotation of `c` and `g`: there is room for `c` just below `g`. */
  function Reranked(rank: seq<nat>, c: Addr, g: Addr): (rank': seq<nat>)
    requires c < |rank| && g < |rank| && rank[c] > 0
    ensures |rank'| == |rank|
  {
    seq(|rank|, i requires 0 <= i < |rank| =>
      if i == g then 3 * rank[c] else if i == c then 3 * rank[c] - 1 else 3 * rank[i])
  }

  /** What is known of the three cells of a rotation. */
  ghost predicate Pivot(s: Store, rank: seq<nat>, handles: multiset<Ref>, t: Addr, c: Addr, g: Addr) {
    && Linked(s, rank) && Counted(s, handles, multiset{})
    && IsLive(s, t) && IsLive(s, c) && IsLive(s, g)
    && s[c].refCount == 1 && s[g].refCount == 1
    && |s[t].children| >= 2 && |s[c].children| >= 2 && |s[g].children| >= 2
    && s[t].children[0] == Ptr(c) && s[c].children[0] == Ptr(g)
  }

  lemma PivotOrder(s: Store, rank: seq<nat>, handles: multiset<Ref>, t: Addr, c: Addr, g: Addr)
    requires Pivot(s, rank, handles, t, c, g)
    ensures |rank| == |s| && rank[g] < rank[c] < rank[t]
    ensures forall y: Addr, j: nat :: IsLive(s, y) && j < |s[y].children| && s[y].children[j] == Ptr(c) ==> y == t && j == 0
    ensures forall y: Addr, j: nat :: IsLive(s, y) && j < |s[y].children| && s[y].children[j] == Ptr(g) ==> y == c && j == 0
    ensures Ptr(c) !in handles && Ptr(g) !in handles
  {
    LinkedAt(s, rank, t);
    LinkedAt(s, rank, c);
    hide Linked, Counted;
    SoleSlot(s, handles, t, 0);
    SoleSlot(s, handles, c, 0);
  }

  lemma RotationEdges(s: Store, t: Addr, c: Addr, g: Addr)
    requires IsLive(s, t) && IsLive(s, c) && IsLive(s, g) && t != c && c != g && t != g
    requires |s[t].children| > 0 && |s[c].children| > 0 && |s[g].children| > 0
    requires s[t].children[0] == Ptr(c) && s[c].children[0] == Ptr(g)
    ensures Edges(Rotate(s, t, c, g)) == Edges(s)
  {
    hide Edges, EdgesBelow;
    var last := |s[g].children| - 1;
    var z := s[g].children[last];
    var s1 := SetKid(s, t, 0, Ptr(g));
    var s2 := SetKid(s1, c, 0, z);
    SetKidEdges(s, t, 0, Ptr(g));
    SetKidEdges(s1, c, 0, z);
    SetKidEdges(s2, g, last, Ptr(c));
    hide SetKid;
    Cancel(Edges(s), Edges(s1), Edges(s2), Edges(SetKid(s2, g, last, Ptr(c))), Ptr(c), Ptr(g), z);
  }

  lemma Cancel<T>(e0: multiset<T>, e1: multiset<T>, e2: multiset<T>, e3: multiset<T>, c: T, g: T, z: T)
    requires e1 + multiset{c} == e0 + multiset{g}
    requires e2 + multiset{g} == e1 + multiset{z}
    requires e3 + multiset{z} == e2 + multiset{c}
    ensures e3 == e0
  {
    forall x ensures e3[x] == e0[x] {
      assert (e1 + multiset{c})[x] == (e0 + multiset{g})[x];
      assert (e2 + multiset{g})[x] == (e1 + multiset{z})[x];
      assert (e3 + multiset{z})[x] == (e2 + multiset{c})[x];
    }
  }

  lemma RotationCounted(s: Store, rank: seq<nat>, handles: multiset<Ref>, t: Addr, c: Addr, g: Addr)
    requires Pivot(s, rank, handles, t, c, g) && NoneDead(s)
    ensures t != c && c != g && t != g
    ensures Counted(Rotate(s, t, c, g), handles, multiset{}) && NoneDead(Rotate(s, t, c, g))
    ensures LiveSet(Rotate(s, t, c, g)) == LiveSet(s)
  {
    hide Linked, EdgesBelow;
    PivotOrder(s, rank, handles, t, c, g);
    RotationEdges(s, t, c, g);
    SameCounts(s, Rotate(s, t, c, g), handles);
  }

  lemma SameCounts(s: Store, u: Store, handles: multiset<Ref>)
    requires Counted(s, handles, multiset{}) && NoneDead(s) && Edges(u) == Edges(s) && |s| == |u|
    requires forall a: Addr :: a < |s| ==> s[a].Live? == u[a].Live? && (s[a].Live? ==> s[a].refCount == u[a].refCount)
    ensures Counted(u, handles, multiset{}) && NoneDead(u) && LiveSet(u) == LiveSet(s)
  {
    hide EdgesBelow;
    forall a: Addr | IsLive(u, a) ensures u[a].refCount == Edges(u)[Ptr(a)] + handles[Ptr(a)] && u[a].refCount > 0 {
      assert IsLive(s, a);
    }
    forall r | r in handles ensures ValidRef(u, r) {
      assert ValidRef(s, r);
    }
  }

  lemma RotationLinked(s: Store, rank: seq<nat>, handles: multiset<Ref>, t: Addr, c: Addr, g: Addr)
    requires Pivot(s, rank, handles, t, c, g)
    ensures t != c && c != g && t != g && |rank| == |s| && rank[c] > 0
    ensures Linked(Rotate(s, t, c, g), Reranked(rank, c, g))
  {
    PivotOrder(s, rank, handles, t, c, g);
    hide Counted;
    var u, rank' := Rotate(s, t, c, g), Reranked(rank, c, g);
    forall a: Addr | IsLive(u, a) ensures CellLinked(u, rank', a) {
      LinkedAt(s, rank, a);
      LinkedAt(s, rank, g);
      forall i | 0 <= i < |u[a].children|
        ensures ValidRef(u, u[a].children[i]) && RankOf(rank', u[a].children[i]) <= rank'[a]
      {
        var k := u[a].children[i];
        if k != s[a].children[i] {
          assert (a == t && k == Ptr(g)) || (a == c && k == s[g].children[|s[g].children| - 1]) || (a == g && k == Ptr(c));
          assert ValidRef(s, s[g].children[|s[g].children| - 1]);
        } else {
          assert ValidRef(s, s[a].children[i]);
        }
      }
    }
  }

  // ----- what a rotation keeps -----------------------------------------------------------------

  /** Inner nodes show and name what their symbol does. */
  ghost predicate NodeOk(lang: Language, d: Data) {
    d.childCount > 0 ==>
      && !d.isMissing && d.visible == lang.isVisible(d.symbol) && d.named == lang.isNamed(d.symbol)
      && (d.repeatDepth > 0 ==> !d.visible && !d.named && d.childCount >= 2)
  }

  /** `r` is a node of the same repetition as its parent `p`. */
  predicate Repeats(s: Store, p: Addr, r: Ref)
    requires IsLive(s, p)
  {
    && !s[p].data.visible && !s[p].data.named && |s[p].children| >= 2
    && r.Ptr? && IsLive(s, r.addr) && |s[r.addr].children| >= 2 && s[r.addr].data.symbol == s[p].data.symbol
  }

  /** The node's production has no alias for its last child. */
  predicate NoLastAlias(lang: Language, s: Store, a: Addr)
    requires IsLive(s, a) && s[a].children != []
  {
    && (forall i :: 0 <= i < |s[a].children| ==> ValidRef(s, s[a].children[i]))
    && AliasAfter(lang, s[a].data, RefDatas(s, s[a].children[..|s[a].children| - 1])) == 0
  }

  /**
   * A node that begins with one of the same repetition has no aliases, and one inside such a node
   * has none for its last child. All other aliases are free.
   */
  ghost predicate AliasesOk(lang: Language, s: Store, a: Addr)
    requires IsLive(s, a)
  {
    && (s[a].children != [] && Repeats(s, a, s[a].children[0]) ==> AliasFree(lang, s[a].data.productionId))
    && forall r :: r in s[a].children && Repeats(s, a, r) ==> NoLastAlias(lang, s, r.addr)
  }

  /** The zone is made of whole trees, whose nodes are in order; nothing is said of other trees in the pool. */
  ghost predicate NodesOk(lang: Language, zone: set<Addr>, s: Store) {
    && lang.isVisible(SYM_ERROR)
    && forall a: Addr :: a in zone ==>
         IsLive(s, a) && NodeOk(lang, s[a].data) && AliasesOk(lang, s, a) && KidsWithin(s, a, zone)
  }

  ghost predicate KidsWithin(s: Store, a: Addr, zone: set<Addr>)
    requires IsLive(s, a)
  {
    forall r :: r in s[a].children && r.Ptr? ==> r.addr in zone
  }

  ghost function MeaningAt(lang: Language, s: Store, rank: seq<nat>, r: Ref): (seq<Data>, Data, seq<Shown>)
    requires Linked(s, rank) && ValidRef(s, r)
  {
    Meaning(lang, View(s, rank, r))
  }

  lemma RotatedCells(s: Store, rank: seq<nat>, handles: multiset<Ref>, t: Addr, c: Addr, g: Addr)
    requires Pivot(s, rank, handles, t, c, g)
    ensures t != c && c != g && t != g
    ensures var u, last := Rotate(s, t, c, g), |s[g].children| - 1;
            && |u| == |s|
            && u[t] == s[t].(children := [Ptr(g)] + s[t].children[1..])
            && u[c] == s[c].(children := [s[g].children[last]] + s[c].children[1..])
            && u[g] == s[g].(children := s[g].children[..last] + [Ptr(c)])
            && forall a: Addr :: a < |s| && a != t && a != c && a != g ==> u[a] == s[a]
  {
    PivotOrder(s, rank, handles, t, c, g);
    hide Linked, Counted;
    ReplacedEnds(s[t].children, Ptr(g));
    ReplacedEnds(s[c].children, s[g].children[|s[g].children| - 1]);
    ReplacedEnds(s[g].children, Ptr(c));
  }

  lemma ReplacedEnds<T>(xs: seq<T>, x: T)
    requires xs != []
    ensures xs[0 := x] == [x] + xs[1..] && xs[|xs| - 1 := x] == xs[..|xs| - 1] + [x]
  {
  }

  /** The trees of some children. */
  ghost function ViewAll(s: Store, rank: seq<nat>, refs: seq<Ref>): (ts: seq<Tree>)
    requires Linked(s, rank) && forall i :: 0 <= i < |refs| ==> ValidRef(s, refs[i])
    ensures |ts| == |refs| && forall i :: 0 <= i < |refs| ==> ts[i] == View(s, rank, refs[i])
  {
    seq(|refs|, i requires 0 <= i < |refs| => View(s, rank, refs[i]))
  }

  lemma ViewIs(s: Store, rank: seq<nat>, a: Addr)
    requires Linked(s, rank) && IsLive(s, a)
    ensures forall i :: 0 <= i < |s[a].children| ==> ValidRef(s, s[a].children[i])
    ensures View(s, rank, Ptr(a)) == Tree(s[a].data, ViewAll(s, rank, s[a].children))
    ensures s[a].data.childCount == |s[a].children| && !s[a].data.inline
  {
    LinkedAt(s, rank, a);
    hide Linked;
    assert Views(s, rank, a) == ViewAll(s, rank, s[a].children);
  }

  lemma ViewAllAppend(s: Store, rank: seq<nat>, xs: seq<Ref>, ys: seq<Ref>)
    requires Linked(s, rank)
    requires forall i :: 0 <= i < |xs| ==> ValidRef(s, xs[i])
    requires forall i :: 0 <= i < |ys| ==> ValidRef(s, ys[i])
    ensures forall i :: 0 <= i < |xs + ys| ==> ValidRef(s, (xs + ys)[i])
    ensures ViewAll(s, rank, xs + ys) == ViewAll(s, rank, xs) + ViewAll(s, rank, ys)
  {
    hide Linked;
  }

  /** A cell as a tree, by its first child and the others. */
  lemma FirstView(s: Store, rank: seq<nat>, a: Addr, first: Ref, rest: seq<Ref>)
    requires Linked(s, rank) && IsLive(s, a) && s[a].children == [first] + rest
    ensures ValidRef(s, first) && forall i :: 0 <= i < |rest| ==> ValidRef(s, rest[i])
    ensures View(s, rank, Ptr(a)) == Tree(s[a].data, [View(s, rank, first)] + ViewAll(s, rank, rest))
    ensures s[a].data.childCount == 1 + |rest|
  {
    hide Linked, View;
    ViewIs(s, rank, a);
    assert s[a].children[0] == first;
    forall i | 0 <= i < |rest| ensures ValidRef(s, rest[i]) { assert rest[i] == s[a].children[i + 1]; }
    ViewAllAppend(s, rank, [first], rest);
    assert ViewAll(s, rank, [first]) == [View(s, rank, first)];
  }

  /** A cell as a tree, by its last child and the others. */
  lemma LastView(s: Store, rank: seq<nat>, a: Addr, front: seq<Ref>, last: Ref)
    requires Linked(s, rank) && IsLive(s, a) && s[a].children == front + [last]
    ensures ValidRef(s, last) && forall i :: 0 <= i < |front| ==> ValidRef(s, front[i])
    ensures View(s, rank, Ptr(a)) == Tree(s[a].data, ViewAll(s, rank, front) + [View(s, rank, last)])
    ensures s[a].data.childCount == |front| + 1
  {
    hide Linked, View;
    ViewIs(s, rank, a);
    assert s[a].children[|front|] == last;
    forall i | 0 <= i < |front| ensures ValidRef(s, front[i]) { assert front[i] == s[a].children[i]; }
    ViewAllAppend(s, rank, front, [last]);
    assert ViewAll(s, rank, [last]) == [View(s, rank, last)];
  }

  /** The three cells as trees, before the rotation. */
  lemma PivotView(s: Store, rank: seq<nat>, t: Addr, c: Addr, g: Addr, ps: seq<Ref>, z: Ref, qs: seq<Ref>, rs: seq<Ref>)
    requires Linked(s, rank) && IsLive(s, t) && IsLive(s, c) && IsLive(s, g)
    requires s[t].children == [Ptr(c)] + rs && s[c].children == [Ptr(g)] + qs && s[g].children == ps + [z]
    ensures forall i :: 0 <= i < |ps| ==> ValidRef(s, ps[i])
    ensures forall i :: 0 <= i < |qs| ==> ValidRef(s, qs[i])
    ensures forall i :: 0 <= i < |rs| ==> ValidRef(s, rs[i])
    ensures ValidRef(s, z)
    ensures s[t].data.childCount == 1 + |rs| && s[c].data.childCount == 1 + |qs| && s[g].data.childCount == |ps| + 1
    ensures View(s, rank, Ptr(t))
         == Tree(s[t].data,
                 [Tree(s[c].data,
                       [Tree(s[g].data, ViewAll(s, rank, ps) + [View(s, rank, z)])] + ViewAll(s, rank, qs))]
                 + ViewAll(s, rank, rs))
  {
    hide Linked, View, ViewAll;
    FirstView(s, rank, t, Ptr(c), rs);
    FirstView(s, rank, c, Ptr(g), qs);
    LastView(s, rank, g, ps, z);
  }

  /** The three cells as trees, after it. */
  lemma RotatedView(u: Store, rank: seq<nat>, t: Addr, c: Addr, g: Addr, ps: seq<Ref>, z: Ref, qs: seq<Ref>, rs: seq<Ref>)
    requires Linked(u, rank) && IsLive(u, t) && IsLive(u, c) && IsLive(u, g)
    requires u[t].children == [Ptr(g)] + rs && u[c].children == [z] + qs && u[g].children == ps + [Ptr(c)]
    ensures forall i :: 0 <= i < |ps| ==> ValidRef(u, ps[i])
    ensures forall i :: 0 <= i < |qs| ==> ValidRef(u, qs[i])
    ensures forall i :: 0 <= i < |rs| ==> ValidRef(u, rs[i])
    ensures ValidRef(u, z)
    ensures View(u, rank, Ptr(t))
         == Tree(u[t].data,
                 [Tree(u[g].data,
                       ViewAll(u, rank, ps) + [Tree(u[c].data, [View(u, rank, z)] + ViewAll(u, rank, qs))])]
                 + ViewAll(u, rank, rs))
  {
    hide Linked, View, ViewAll;
    FirstView(u, rank, t, Ptr(g), rs);
    FirstView(u, rank, c, z, qs);
    LastView(u, rank, g, ps, Ptr(c));
  }

  lemma PivotLive(s: Store, rank: seq<nat>, handles: multiset<Ref>, t: Addr, c: Addr, g: Addr)
    requires Pivot(s, rank, handles, t, c, g)
    ensures Linked(s, rank) && IsLive(s, t) && IsLive(s, c) && IsLive(s, g)
    ensures |s[t].children| >= 2 && |s[c].children| >= 2 && |s[g].children| >= 2
  {
  }

  /** The three cells are links of one repetition, and no alias is where the rotation takes place. */
  ghost predicate SameRepetition(lang: Language, s: Store, t: Addr, c: Addr, g: Addr)
    requires IsLive(s, t) && IsLive(s, c) && IsLive(s, g)
  {
    var symbol := s[t].data.symbol;
    && Groups(lang, symbol, s[t].data) && Groups(lang, symbol, s[c].data) && Grouping(symbol, s[g].data)
    && s[g].children != [] && NoLastAlias(lang, s, g)
  }

  lemma DatasOfViews(s: Store, rank: seq<nat>, refs: seq<Ref>)
    requires Linked(s, rank) && forall i :: 0 <= i < |refs| ==> ValidRef(s, refs[i])
    ensures Datas(ViewAll(s, rank, refs)) == RefDatas(s, refs)
  {
    hide Linked;
    forall i | 0 <= i < |refs| ensures View(s, rank, refs[i]).data == RefData(s, refs[i]) {
      ViewData(s, rank, refs[i]);
    }
  }

  lemma ViewData(s: Store, rank: seq<nat>, r: Ref)
    requires Linked(s, rank) && ValidRef(s, r)
    ensures View(s, rank, r).data == RefData(s, r)
  {
  }

  /** Apart from the two cells that moved, every reference means what it did. */
  lemma {:induction false} RotationKeepsMeanings(lang: Language, s: Store, rank: seq<nat>, handles: multiset<Ref>,
                                                t: Addr, c: Addr, g: Addr, r: Ref)
    requires Pivot(s, rank, handles, t, c, g) && SameRepetition(lang, s, t, c, g)
    requires ValidRef(s, r) && r != Ptr(c) && r != Ptr(g)
    ensures t != c && c != g && t != g && |rank| == |s| && rank[c] > 0
    ensures var u, rank' := Rotate(s, t, c, g), Reranked(rank, c, g);
            && Linked(u, rank') && ValidRef(u, r)
            && MeaningAt(lang, u, rank', r) == MeaningAt(lang, s, rank, r)
    decreases RankOf(rank, r)
  {
    hide Linked, Counted, View, Rotate, Groups, Grouping, AliasAfter, Meaning;
    PivotOrder(s, rank, handles, t, c, g);
    RotationLinked(s, rank, handles, t, c, g);
    RotatedCells(s, rank, handles, t, c, g);
    var u, rank' := Rotate(s, t, c, g), Reranked(rank, c, g);
    if r == Ptr(t) {
      var last := |s[g].children| - 1;
      var ps, z, qs, rs := s[g].children[..last], s[g].children[last], s[c].children[1..], s[t].children[1..];
      assert s[t].children == [Ptr(c)] + rs && s[c].children == [Ptr(g)] + qs && s[g].children == ps + [z];
      PivotView(s, rank, t, c, g, ps, z, qs, rs);
      DatasOfViews(s, rank, ps);
      RotatedView(u, rank', t, c, g, ps, z, qs, rs);
      PivotKids(s, rank, handles, t, c, g);
      forall x | x in ps + [z] + qs + rs
        ensures ValidRef(s, x) && ValidRef(u, x) && MeaningAt(lang, u, rank', x) == MeaningAt(lang, s, rank, x)
      {
        RotationKeepsMeanings(lang, s, rank, handles, t, c, g, x);
      }
      RotationOfSame(lang, ViewAll(s, rank, ps), View(s, rank, z), ViewAll(s, rank, qs), ViewAll(s, rank, rs),
                     ViewAll(u, rank', ps), View(u, rank', z), ViewAll(u, rank', qs), ViewAll(u, rank', rs),
                     s[t].data, s[c].data, s[g].data);
    } else if r.Ptr? {
      var a := r.addr;
      ViewIs(s, rank, a);
      ViewIs(u, rank', a);
      LinkedAt(s, rank, a);
      if s[a].children == [] {
        assert ViewAll(s, rank, s[a].children) == ViewAll(u, rank', u[a].children);
      } else {
        forall i | 0 <= i < |s[a].children|
          ensures MeaningAt(lang, u, rank', s[a].children[i]) == MeaningAt(lang, s, rank, s[a].children[i])
        {
          RotationKeepsMeanings(lang, s, rank, handles, t, c, g, s[a].children[i]);
        }
        MeaningOfSame(lang, s[a].data, ViewAll(s, rank, s[a].children), ViewAll(u, rank', s[a].children));
      }
    } else {
      InlineView(s, rank, r);
      InlineView(u, rank', r);
    }
  }

  lemma InlineView(s: Store, rank: seq<nat>, r: Ref)
    requires Linked(s, rank) && ValidRef(s, r) && r.Inline?
    ensures View(s, rank, r) == Tree(r.data, [])
  {
  }

  /** The children that a rotation does not move are valid, lower than its root, and not the moved cells. */
  lemma PivotKids(s: Store, rank: seq<nat>, handles: multiset<Ref>, t: Addr, c: Addr, g: Addr)
    requires Pivot(s, rank, handles, t, c, g)
    ensures |rank| == |s|
    ensures var last := |s[g].children| - 1;
            forall x :: x in s[g].children[..last] + [s[g].children[last]] + s[c].children[1..] + s[t].children[1..] ==>
              ValidRef(s, x) && RankOf(rank, x) <= rank[t] && x != Ptr(c) && x != Ptr(g)
  {
    hide Linked, Counted;
    PivotOrder(s, rank, handles, t, c, g);
    LinkedAt(s, rank, t);
    LinkedAt(s, rank, c);
    LinkedAt(s, rank, g);
    var last := |s[g].children| - 1;
    forall x | x in s[g].children[..last] + [s[g].children[last]] + s[c].children[1..] + s[t].children[1..]
      ensures ValidRef(s, x) && RankOf(rank, x) <= rank[t] && x != Ptr(c) && x != Ptr(g)
    {
      if x in s[g].children[..last] || x == s[g].children[last] {
        var i :| 0 <= i < |s[g].children| && s[g].children[i] == x;
      } else if x in s[c].children[1..] {
        var i :| 1 <= i < |s[c].children| && s[c].children[i] == x;
      } else {
        var i :| 1 <= i < |s[t].children| && s[t].children[i] == x;
      }
    }
  }
}
