/**
 * Rebalancing the repetitions of a finished tree in place, with cancellation and resumption.
 */
module Balancing {
  import opened Lengths
  import opened Subtrees
  import opened Summaries
  import opened SubtreePools
  import opened Ownership
  import opened Meanings
  import opened Rotations

  // ----- what holds between any two steps ------------------------------------------------------

  /** The cells reached so far lead only into cells that are finished or to be visited later. */
  ghost predicate Explored(s: Store, front: set<Addr>, done: set<Addr>) {
    forall p: Addr, x: Addr :: IsLive(s, p) && x in front + done && Ptr(x) in s[p].children ==> p in done
  }

  ghost predicate Ready(lang: Language, zone: set<Addr>, s: Store, rank: seq<nat>, owned: set<Addr>, keep: multiset<Ref>, root: Ref,
                        front: set<Addr>, done: set<Addr>)
  {
    && Linked(s, rank) && Counted(s, keep + multiset{root}, multiset{}) && NoneDead(s)
    && NodesOk(lang, zone, s) && owned <= zone && (root.Ptr? ==> root.addr in zone)
    && Owned(s, owned, keep) && Explored(s, front, done)
  }

  /** The cached data of the cell is what its tree means. */
  ghost predicate CleanAt(lang: Language, s: Store, rank: seq<nat>, a: Addr)
    requires Linked(s, rank) && IsLive(s, a)
  {
    Kept(s[a].data) == MeaningAt(lang, s, rank, Ptr(a)).1
  }

  ghost predicate AllClean(lang: Language, zone: set<Addr>, s: Store, rank: seq<nat>, dirty: set<Addr>)
    requires Linked(s, rank)
  {
    forall a: Addr :: IsLive(s, a) && a in zone && a !in dirty ==> CleanAt(lang, s, rank, a)
  }

  /** References other than those into `moved` mean in `u` what they mean in `s`. */
  ghost predicate MeaningKept(lang: Language, s: Store, rank: seq<nat>, u: Store, rank': seq<nat>, moved: set<Addr>)
    requires Linked(s, rank) && Linked(u, rank')
  {
    forall r :: ValidRef(s, r) && !InSet(r, moved) ==>
      ValidRef(u, r) && MeaningAt(lang, u, rank', r) == MeaningAt(lang, s, rank, r)
  }

  /** A node whose data no rebalancing touches: a leaf, or one of a visible or named symbol. */
  predicate Fixed(c: Cell)
    requires c.Live?
  {
    c.children == [] || c.data.visible || c.data.named
  }

  /** The same cells with the same counts, identities and numbers of children; fixed ones with the same data. */
  ghost predicate SameNodes(s: Store, u: Store) {
    && |s| == |u|
    && forall a: Addr :: a < |s| ==>
         && s[a].Live? == u[a].Live?
         && (s[a].Live? ==>
               && s[a].refCount == u[a].refCount && SameIdentity(s[a].data, u[a].data)
               && |s[a].children| == |u[a].children| && (Fixed(s[a]) ==> s[a].data == u[a].data))
  }

  lemma SameNodesTransitive(s: Store, t: Store, u: Store)
    requires SameNodes(s, t) && SameNodes(t, u)
    ensures SameNodes(s, u)
  {
  }

  lemma MeaningKeptTransitive(lang: Language, s: Store, rank: seq<nat>, t: Store, rank': seq<nat>,
                              u: Store, rank'': seq<nat>, moved: set<Addr>, more: set<Addr>)
    requires Linked(s, rank) && Linked(t, rank') && Linked(u, rank'')
    requires MeaningKept(lang, s, rank, t, rank', moved) && MeaningKept(lang, t, rank', u, rank'', more)
    ensures MeaningKept(lang, s, rank, u, rank'', moved + more)
  {
    hide Linked, MeaningAt;
  }

  // ----- growing the set of owned cells --------------------------------------------------------

  /** A child of an owned cell that is counted once is owned as well. */
  lemma GrowOwned(s: Store, owned: set<Addr>, keep: multiset<Ref>, root: Ref, p: Addr, i: nat)
    requires Counted(s, keep + multiset{root}, multiset{}) && Owned(s, owned, keep) && p in owned
    requires IsLive(s, p) && i < |s[p].children|
    requires var r := s[p].children[i]; r.Ptr? && IsLive(s, r.addr) && s[r.addr].refCount == 1
    ensures Owned(s, owned + {s[p].children[i].addr}, keep)
    ensures s[p].children[i] != root
  {
    hide Counted;
    var r := s[p].children[i];
    SoleSlot(s, keep + multiset{root}, p, i);
    assert r !in keep + multiset{root};
    forall a: Addr | IsLive(s, a) && a !in owned + {r.addr} ensures NoKidIn(s, a, owned + {r.addr}) {
      assert NoKidIn(s, a, owned);
    }
  }

  // ----- the rotation step ---------------------------------------------------------------------

  lemma RotationKeepsExplored(s: Store, rank: seq<nat>, handles: multiset<Ref>, t: Addr, c: Addr, g: Addr,
                              front: set<Addr>, done: set<Addr>)
    requires Pivot(s, rank, handles, t, c, g) && Explored(s, front, done) && t !in done
    ensures t != c && c != g && t != g
    ensures Explored(Rotate(s, t, c, g), front, done) && g !in done && c !in done
  {
    hide Linked, Counted, Pivot, Rotate;
    RotatedCells(s, rank, handles, t, c, g);
    PivotLive(s, rank, handles, t, c, g);
    PivotSlots(s, rank, handles, t, c, g);
    var u := Rotate(s, t, c, g);
    assert Ptr(c) in s[t].children && Ptr(g) in s[c].children;
    assert c !in done && g !in done;
    forall p: Addr, x: Addr | IsLive(u, p) && x in front + done && Ptr(x) in u[p].children ensures p in done {
      var q := OldParent(s, rank, handles, t, c, g, p, Ptr(x));
    }
  }

  /** A child after the rotation was somebody's child before: the same cell's, or one of the three. */
  lemma OldParent(s: Store, rank: seq<nat>, handles: multiset<Ref>, t: Addr, c: Addr, g: Addr, p: Addr, r: Ref)
    returns (q: Addr)
    requires Pivot(s, rank, handles, t, c, g) && t != c && c != g && t != g
    requires IsLive(Rotate(s, t, c, g), p) && r in Rotate(s, t, c, g)[p].children
    ensures IsLive(s, q) && r in s[q].children && (q == p || {p, q} <= {t, c, g})
  {
    hide Linked, Counted, Pivot, Rotate;
    RotatedCells(s, rank, handles, t, c, g);
    PivotLive(s, rank, handles, t, c, g);
    PivotSlots(s, rank, handles, t, c, g);
    var last := |s[g].children| - 1;
    q := p;
    if p == t {
      if r == Ptr(g) { q := c; } else { assert r in s[t].children[1..]; }
    } else if p == c {
      if r == s[g].children[last] { q := g; } else { assert r in s[c].children[1..]; }
    } else if p == g {
      if r == Ptr(c) { q := t; } else { assert r in s[g].children[..last]; }
    }
  }

  lemma PivotSlots(s: Store, rank: seq<nat>, handles: multiset<Ref>, t: Addr, c: Addr, g: Addr)
    requires Pivot(s, rank, handles, t, c, g)
    ensures s[t].children[0] == Ptr(c) && s[c].children[0] == Ptr(g)
    ensures s[c].refCount == 1 && s[g].refCount == 1
  {
  }

  lemma RotationKeepsOwned(s: Store, rank: seq<nat>, handles: multiset<Ref>, t: Addr, c: Addr, g: Addr,
                           owned: set<Addr>, keep: multiset<Ref>)
    requires Pivot(s, rank, handles, t, c, g) && Owned(s, owned, keep) && {t, c, g} <= owned
    ensures t != c && c != g && t != g
    ensures Owned(Rotate(s, t, c, g), owned, keep)
    ensures AgreeOutside(s, Rotate(s, t, c, g), owned) && AgreeOutside(Rotate(s, t, c, g), s, owned)
    ensures SameNodes(s, Rotate(s, t, c, g))
  {
    hide Linked, Counted, Pivot, Rotate;
    RotatedCells(s, rank, handles, t, c, g);
    PivotLive(s, rank, handles, t, c, g);
    var u := Rotate(s, t, c, g);
    forall a: Addr | IsLive(u, a) && a !in owned ensures NoKidIn(u, a, owned) {
      assert NoKidIn(s, a, owned);
    }
  }

  lemma PivotInZone(lang: Language, zone: set<Addr>, s: Store, rank: seq<nat>, handles: multiset<Ref>, t: Addr, c: Addr, g: Addr)
    requires Pivot(s, rank, handles, t, c, g) && NodesOk(lang, zone, s) && t in zone
    ensures c in zone && g in zone
  {
    hide Linked, Counted, NodeOk;
    assert s[t].children[0] in s[t].children && KidsWithin(s, t, zone);
    assert s[c].children[0] in s[c].children && KidsWithin(s, c, zone);
  }

  /** Which nodes are of one repetition does not depend on what their parents are. */
  lemma SameRepeats(s: Store, u: Store, a: Addr, r: Ref)
    requires SameNodes(s, u) && IsLive(s, a)
    ensures IsLive(u, a) && (Repeats(u, a, r) <==> Repeats(s, a, r))
  {
  }

  lemma SameLastAlias(lang: Language, s: Store, u: Store, a: Addr)
    requires SameNodes(s, u) && IsLive(s, a) && s[a].children != [] && NoLastAlias(lang, s, a)
    requires IsLive(u, a) && ValidRef(u, u[a].children[|u[a].children| - 1])
    requires var n := |s[a].children| - 1; u[a].children[..n] == s[a].children[..n]
    ensures NoLastAlias(lang, u, a)
  {
    hide AliasAt;
    var n := |s[a].children| - 1;
    var front := s[a].children[..n];
    forall i | 0 <= i < |u[a].children| ensures ValidRef(u, u[a].children[i]) {
      if i < n {
        assert u[a].children[i] == u[a].children[..n][i] == s[a].children[..n][i] == s[a].children[i];
        assert ValidRef(s, s[a].children[i]);
      }
    }
    forall i | 0 <= i < n ensures RefDatas(s, front)[i].extra == RefDatas(u, front)[i].extra {
      assert front[i] == s[a].children[i];
    }
    SameExtras(RefDatas(s, front), RefDatas(u, front));
  }

  lemma FreeOfAliases(lang: Language, s: Store, a: Addr)
    requires IsLive(s, a) && s[a].children != [] && AliasFree(lang, s[a].data.productionId)
    requires forall i :: 0 <= i < |s[a].children| ==> ValidRef(s, s[a].children[i])
    ensures NoLastAlias(lang, s, a)
  {
  }

  /** A node that is in order, with its aliases; its symbol decides whether it is part of a repetition. */
  lemma NodeFacts(lang: Language, zone: set<Addr>, s: Store, a: Addr)
    requires NodesOk(lang, zone, s) && a in zone
    ensures IsLive(s, a) && NodeOk(lang, s[a].data) && AliasesOk(lang, s, a) && KidsWithin(s, a, zone)
  {
  }

  lemma SameSymbolRepeats(lang: Language, s: Store, p: Addr, q: Addr, r: Ref)
    requires IsLive(s, p) && IsLive(s, q) && NodeOk(lang, s[p].data) && NodeOk(lang, s[q].data)
    requires s[p].data.symbol == s[q].data.symbol && s[p].data.childCount > 0 && s[q].data.childCount > 0
    requires |s[p].children| >= 2 && |s[q].children| >= 2
    ensures Repeats(s, p, r) <==> Repeats(s, q, r)
  {
  }

  /** The last child of a node of the repetition had no alias, and has none after the rotation. */
  lemma RotationKeepsLastAlias(lang: Language, s: Store, rank: seq<nat>, handles: multiset<Ref>, t: Addr, c: Addr, g: Addr, x: Addr)
    requires Pivot(s, rank, handles, t, c, g) && t != c && c != g && t != g && SameNodes(s, Rotate(s, t, c, g))
    requires AliasFree(lang, s[t].data.productionId) && AliasFree(lang, s[c].data.productionId)
    requires IsLive(s, x) && s[x].children != [] && NoLastAlias(lang, s, x)
    ensures var u := Rotate(s, t, c, g); IsLive(u, x) && u[x].children != [] && NoLastAlias(lang, u, x)
  {
    hide Linked, Counted, Pivot, Rotate, AliasFree, NoLastAlias, SameNodes;
    RotatedCells(s, rank, handles, t, c, g);
    PivotLive(s, rank, handles, t, c, g);
    RotationLinked(s, rank, handles, t, c, g);
    var u := Rotate(s, t, c, g);
    LinkedAt(u, Reranked(rank, c, g), x);
    if x == t || x == c {
      FreeOfAliases(lang, u, x);
    } else {
      SameLastAlias(lang, s, u, x);
    }
  }

  lemma RotationKeepsAliases(lang: Language, zone: set<Addr>, s: Store, rank: seq<nat>, handles: multiset<Ref>,
                             t: Addr, c: Addr, g: Addr, a: Addr)
    requires Pivot(s, rank, handles, t, c, g) && SameRepetition(lang, s, t, c, g) && NodesOk(lang, zone, s)
    requires {t, c, g} <= zone && t != c && c != g && t != g && SameNodes(s, Rotate(s, t, c, g)) && a in zone
    ensures IsLive(Rotate(s, t, c, g), a) && AliasesOk(lang, Rotate(s, t, c, g), a)
  {
    hide Linked, Counted, Pivot, Rotate, NodesOk, NodeOk, SameNodes, AliasFree, NoLastAlias;
    RotatedCells(s, rank, handles, t, c, g);
    PivotLive(s, rank, handles, t, c, g);
    NodeFacts(lang, zone, s, a);
    var u := Rotate(s, t, c, g);
    if u[a].children != [] && Repeats(u, a, u[a].children[0]) && a != t && a != c {
      assert u[a].children[0] == s[a].children[0];
      SameRepeats(s, u, a, s[a].children[0]);
    }
    forall r | r in u[a].children && Repeats(u, a, r) ensures NoLastAlias(lang, u, r.addr) {
      SameRepeats(s, u, a, r);
      var q := OldParent(s, rank, handles, t, c, g, a, r);
      if q != a {
        NodeFacts(lang, zone, s, q);
        SameSymbolRepeats(lang, s, a, q, r);
      } else {
        assert Repeats(s, q, r);
      }
      RepeatsIsCell(s, q, r);
      RotationKeepsLastAlias(lang, s, rank, handles, t, c, g, r.addr);
    }
  }

  lemma RepeatsIsCell(s: Store, p: Addr, r: Ref)
    requires IsLive(s, p) && Repeats(s, p, r)
    ensures r.Ptr? && IsLive(s, r.addr) && s[r.addr].children != []
  {
  }

  lemma RotationKeepsNodesOk(lang: Language, zone: set<Addr>, s: Store, rank: seq<nat>, handles: multiset<Ref>,
                             t: Addr, c: Addr, g: Addr)
    requires Pivot(s, rank, handles, t, c, g) && SameRepetition(lang, s, t, c, g) && NodesOk(lang, zone, s) && {t, c, g} <= zone
    requires t != c && c != g && t != g && SameNodes(s, Rotate(s, t, c, g))
    ensures NodesOk(lang, zone, Rotate(s, t, c, g))
  {
    hide Linked, Counted, Pivot, Rotate, NodeOk, AliasesOk, SameRepetition, SameNodes;
    RotatedCells(s, rank, handles, t, c, g);
    PivotLive(s, rank, handles, t, c, g);
    var u := Rotate(s, t, c, g);
    forall a: Addr | a in zone
      ensures IsLive(u, a) && NodeOk(lang, u[a].data) && AliasesOk(lang, u, a) && KidsWithin(u, a, zone)
    {
      assert IsLive(s, a) && NodeOk(lang, s[a].data);
      RotationKeepsAliases(lang, zone, s, rank, handles, t, c, g, a);
      forall r | r in u[a].children && r.Ptr? ensures r.addr in zone {
        var q := OldParent(s, rank, handles, t, c, g, a, r);
        assert KidsWithin(s, q, zone);
      }
    }
  }

  lemma RotationKeepsClean(lang: Language, zone: set<Addr>, s: Store, rank: seq<nat>, handles: multiset<Ref>, t: Addr, c: Addr, g: Addr,
                           dirty: set<Addr>)
    requires Pivot(s, rank, handles, t, c, g) && SameRepetition(lang, s, t, c, g)
    requires AllClean(lang, zone, s, rank, dirty)
    ensures t != c && c != g && t != g && |rank| == |s| && rank[c] > 0
    ensures var u, rank' := Rotate(s, t, c, g), Reranked(rank, c, g);
            && Linked(u, rank') && AllClean(lang, zone, u, rank', dirty + {c, g})
            && MeaningKept(lang, s, rank, u, rank', {c, g})
  {
    hide Linked, Counted, MeaningAt, Pivot, Rotate, SameRepetition;
    RotationLinked(s, rank, handles, t, c, g);
    RotatedCells(s, rank, handles, t, c, g);
    PivotLive(s, rank, handles, t, c, g);
    var u, rank' := Rotate(s, t, c, g), Reranked(rank, c, g);
    forall r | ValidRef(s, r) && !InSet(r, {c, g})
      ensures ValidRef(u, r) && MeaningAt(lang, u, rank', r) == MeaningAt(lang, s, rank, r)
    {
      RotationKeepsMeanings(lang, s, rank, handles, t, c, g, r);
    }
    forall a: Addr | IsLive(u, a) && a in zone && a !in dirty + {c, g} ensures CleanAt(lang, u, rank', a) {
      assert IsLive(s, a) && ValidRef(s, Ptr(a)) && CleanAt(lang, s, rank, a);
    }
  }

  // ----- the spine: cells that are rotated one below the other ----------------------------------

  /** The root of the `j`th rotation has the next cell as its first child, which took `cs[j]` in as its last. */
  ghost predicate SpinePair(s: Store, upper: Addr, lower: Addr, c: Addr) {
    && IsLive(s, upper) && IsLive(s, lower) && IsLive(s, c)
    && |s[upper].children| >= 2 && |s[lower].children| >= 2 && |s[c].children| >= 2
    && s[lower].refCount == 1 && s[c].refCount == 1
    && s[upper].children[0] == Ptr(lower) && s[lower].children[|s[lower].children| - 1] == Ptr(c)
    && !Fixed(s[upper]) && !Fixed(s[lower]) && !Fixed(s[c])
  }

  ghost predicate SpineOk(s: Store, spine: seq<Addr>, cs: seq<Addr>) {
    && |spine| == |cs| + 1
    && forall j :: 0 <= j < |cs| ==> SpinePair(s, spine[j], spine[j + 1], cs[j])
  }

  /** The cells moved by the first `k` rotations. */
  ghost function Moved(spine: seq<Addr>, cs: seq<Addr>, k: nat): set<Addr>
    requires k <= |cs| && |spine| == |cs| + 1
  {
    if k == 0 then {} else Moved(spine, cs, k - 1) + {spine[k], cs[k - 1]}
  }

  lemma {:induction false} SpineRanks(s: Store, rank: seq<nat>, spine: seq<Addr>, cs: seq<Addr>, i: nat, j: nat)
    requires Linked(s, rank) && SpineOk(s, spine, cs) && i <= j < |spine| && IsLive(s, spine[|cs|])
    ensures |rank| == |s| && IsLive(s, spine[i]) && IsLive(s, spine[j])
    ensures i < j ==> rank[spine[j]] < rank[spine[i]]
    ensures j > 0 ==> IsLive(s, cs[j - 1]) && rank[cs[j - 1]] < rank[spine[j]]
    decreases j - i
  {
    hide Linked;
    LinkedSizesOf(s, rank);
    assert IsLive(s, spine[j]) by {
      if j < |cs| { assert SpinePair(s, spine[j], spine[j + 1], cs[j]); }
    }
    if j > 0 {
      assert SpinePair(s, spine[j - 1], spine[j], cs[j - 1]);
      LinkedAt(s, rank, spine[j - 1]);
      LinkedAt(s, rank, spine[j]);
      if i < j {
        SpineRanks(s, rank, spine, cs, i, j - 1);
      }
    }
  }

  /** A moved cell is below the top of the spine: the first child or the last child of a spine cell. */
  lemma {:induction false} MovedAt(spine: seq<Addr>, cs: seq<Addr>, k: nat, x: Addr) returns (j: nat)
    requires k <= |cs| && |spine| == |cs| + 1 && x in Moved(spine, cs, k)
    ensures j < k && (x == spine[j + 1] || x == cs[j])
  {
    if x in {spine[k], cs[k - 1]} {
      j := k - 1;
    } else {
      j := MovedAt(spine, cs, k - 1, x);
    }
  }

  lemma {:induction false} MovedPrefix(spine: seq<Addr>, cs: seq<Addr>, c: Addr, g: Addr, k: nat)
    requires |spine| == |cs| + 1 && k <= |cs|
    ensures Moved(spine + [g], cs + [c], k) == Moved(spine, cs, k)
  {
    if k > 0 {
      MovedPrefix(spine, cs, c, g, k - 1);
    }
  }

  lemma LinkedSizesOf(s: Store, rank: seq<nat>)
    requires Linked(s, rank)
    ensures |rank| == |s|
  {
  }

  /** But for the two cells that move, a cell keeps its count, its data and its last child. */
  lemma CellStays(s: Store, rank: seq<nat>, handles: multiset<Ref>, t: Addr, c: Addr, g: Addr, x: Addr)
    requires Pivot(s, rank, handles, t, c, g) && IsLive(s, x) && x != c && x != g && |s[x].children| >= 2
    ensures t != c && c != g && t != g
    ensures var u := Rotate(s, t, c, g);
            && IsLive(u, x) && u[x].refCount == s[x].refCount && u[x].data == s[x].data
            && |u[x].children| == |s[x].children|
            && u[x].children[|u[x].children| - 1] == s[x].children[|s[x].children| - 1]
            && (x != t ==> u[x] == s[x])
  {
    hide Linked, Counted, Pivot, Rotate;
    RotatedCells(s, rank, handles, t, c, g);
    PivotLive(s, rank, handles, t, c, g);
    SameLast(s[x].children, Ptr(g));
  }

  lemma PairAt(s: Store, spine: seq<Addr>, cs: seq<Addr>, j: nat)
    requires |spine| == |cs| + 1 && SpineOk(s, spine, cs) && j < |cs|
    ensures SpinePair(s, spine[j], spine[j + 1], cs[j])
  {
  }

  lemma PivotRanks(s: Store, rank: seq<nat>, handles: multiset<Ref>, t: Addr, c: Addr, g: Addr)
    requires Pivot(s, rank, handles, t, c, g)
    ensures |rank| == |s| && rank[g] < rank[c] < rank[t]
  {
    hide Linked, Counted, Pivot;
    PivotOrder(s, rank, handles, t, c, g);
  }

  lemma OtherSlot(s: Store, rank: seq<nat>, handles: multiset<Ref>, t: Addr, c: Addr, g: Addr, y: Addr, i: nat)
    requires Pivot(s, rank, handles, t, c, g) && IsLive(s, y) && 0 < i < |s[y].children|
    ensures s[y].children[i] != Ptr(c) && s[y].children[i] != Ptr(g)
  {
    hide Linked, Counted, Pivot;
    PivotOrder(s, rank, handles, t, c, g);
  }

  /** A rotation at the lower end of the spine leaves the pairs above it in place. */
  lemma PairStays(s: Store, rank: seq<nat>, handles: multiset<Ref>, spine: seq<Addr>, cs: seq<Addr>, c: Addr, g: Addr, j: nat)
    requires |spine| == |cs| + 1 && SpineOk(s, spine, cs) && Pivot(s, rank, handles, spine[|cs|], c, g) && j < |cs|
    ensures spine[|cs|] != c && c != g && spine[|cs|] != g
    ensures SpinePair(Rotate(s, spine[|cs|], c, g), spine[j], spine[j + 1], cs[j])
  {
    hide Linked, Counted, Pivot, Rotate, SpineOk;
    var t, n := spine[|cs|], |cs|;
    PairAt(s, spine, cs, j);
    PivotLive(s, rank, handles, t, c, g);
    PivotSlots(s, rank, handles, t, c, g);
    PivotRanks(s, rank, handles, t, c, g);
    SpineRanks(s, rank, spine, cs, j, n);
    SpineRanks(s, rank, spine, cs, j + 1, n);
    OtherSlot(s, rank, handles, t, c, g, spine[j + 1], |s[spine[j + 1]].children| - 1);
    CellStays(s, rank, handles, t, c, g, spine[j]);
    CellStays(s, rank, handles, t, c, g, spine[j + 1]);
    CellStays(s, rank, handles, t, c, g, cs[j]);
  }

  lemma SameLast<T>(xs: seq<T>, x: T)
    requires |xs| >= 2
    ensures var ys := [x] + xs[1..]; |ys| == |xs| && ys[|ys| - 1] == xs[|xs| - 1]
  {
  }

  lemma NewPair(s: Store, rank: seq<nat>, handles: multiset<Ref>, t: Addr, c: Addr, g: Addr)
    requires Pivot(s, rank, handles, t, c, g) && !Fixed(s[t]) && !Fixed(s[c]) && !Fixed(s[g])
    ensures t != c && c != g && t != g
    ensures SpinePair(Rotate(s, t, c, g), t, g, c)
  {
    hide Linked, Counted, Pivot, Rotate;
    RotatedCells(s, rank, handles, t, c, g);
    PivotLive(s, rank, handles, t, c, g);
    PivotSlots(s, rank, handles, t, c, g);
  }

  lemma GrowSpine(s: Store, rank: seq<nat>, handles: multiset<Ref>, spine: seq<Addr>, cs: seq<Addr>, c: Addr, g: Addr)
    requires |spine| == |cs| + 1 && SpineOk(s, spine, cs) && Pivot(s, rank, handles, spine[|cs|], c, g)
    requires !Fixed(s[spine[|cs|]]) && !Fixed(s[c]) && !Fixed(s[g])
    ensures var t := spine[|cs|];
            && t != c && c != g && t != g
            && SpineOk(Rotate(s, t, c, g), spine + [g], cs + [c])
            && Moved(spine + [g], cs + [c], |cs| + 1) == Moved(spine, cs, |cs|) + {c, g}
  {
    var t, n := spine[|cs|], |cs|;
    hide Linked, Counted, Pivot, Rotate, SpinePair;
    PivotLive(s, rank, handles, t, c, g);
    NewPair(s, rank, handles, t, c, g);
    var u, spine', cs' := Rotate(s, t, c, g), spine + [g], cs + [c];
    forall j | 0 <= j < |cs'| ensures SpinePair(u, spine'[j], spine'[j + 1], cs'[j]) {
      if j < n {
        PairStays(s, rank, handles, spine, cs, c, g, j);
      }
    }
    MovedPrefix(spine, cs, c, g, n);
  }

  // ----- the first loop: rotating down the spine ------------------------------------------------

  /** A repetition node groups its children, and so does every node with its symbol. */
  lemma LinkGroups(lang: Language, zone: set<Addr>, s: Store, rank: seq<nat>, a: Addr, symbol: Symbol)
    requires Linked(s, rank) && NodesOk(lang, zone, s) && a in zone && IsLive(s, a) && |s[a].children| >= 2
    requires s[a].data.symbol == symbol && !lang.isVisible(symbol) && !lang.isNamed(symbol)
    ensures Grouping(symbol, s[a].data) && !Fixed(s[a])
  {
    LinkedAt(s, rank, a);
    assert NodeOk(lang, s[a].data);
  }

  lemma RotateKeepsFreeList(s: Store, rank: seq<nat>, handles: multiset<Ref>, t: Addr, c: Addr, g: Addr, free: seq<Addr>)
    requires Pivot(s, rank, handles, t, c, g) && FreeListOk(s, free)
    ensures t != c && c != g && t != g
    ensures FreeListOk(Rotate(s, t, c, g), free)
  {
    RotatedCells(s, rank, handles, t, c, g);
    hide Linked, Counted;
  }

  /** One rotation at the end of the spine. */
  lemma RotateStep(lang: Language, zone: set<Addr>, s: Store, rank: seq<nat>, owned: set<Addr>, keep: multiset<Ref>, root: Ref,
                   front: set<Addr>, done: set<Addr>, spine: seq<Addr>, cs: seq<Addr>, c: Addr, g: Addr, free: seq<Addr>)
    requires Ready(lang, zone, s, rank, owned, keep, root, front, done) && SpineOk(s, spine, cs) && FreeListOk(s, free)
    requires |spine| == |cs| + 1
    requires Pivot(s, rank, keep + multiset{root}, spine[|cs|], c, g) && SameRepetition(lang, s, spine[|cs|], c, g)
    requires !Fixed(s[spine[|cs|]]) && !Fixed(s[c]) && !Fixed(s[g])
    requires spine[|cs|] in owned && spine[|cs|] !in done && AllClean(lang, zone, s, rank, Moved(spine, cs, |cs|))
    ensures var t := spine[|cs|]; t != c && c != g && t != g && |rank| == |s| && c < |rank| && g < |rank| && rank[c] > 0
    ensures var t := spine[|cs|];
            var u, rank', owned' := Rotate(s, t, c, g), Reranked(rank, c, g), owned + {c, g};
            && Ready(lang, zone, u, rank', owned', keep, root, front, done) && FreeListOk(u, free)
            && SpineOk(u, spine + [g], cs + [c]) && IsLive(u, g) && g !in done
            && AllClean(lang, zone, u, rank', Moved(spine + [g], cs + [c], |cs| + 1))
            && Moved(spine + [g], cs + [c], |cs| + 1) == Moved(spine, cs, |cs|) + {c, g}
            && MeaningKept(lang, s, rank, u, rank', {c, g}) && !InSet(root, {c, g})
            && SameNodes(s, u) && AgreeOutside(s, u, owned') && AgreeOutside(u, s, owned') && LiveSet(u) == LiveSet(s)
  {
    hide Linked, Counted, NoneDead, NodesOk, Owned, Explored, Pivot, Rotate, SpineOk, Moved, AllClean, MeaningKept,
         SameNodes, AgreeOutside, SameRepetition, FreeListOk, LiveSet;
    var t, handles := spine[|cs|], keep + multiset{root};
    PivotLive(s, rank, handles, t, c, g);
    PivotSlots(s, rank, handles, t, c, g);
    PivotOrder(s, rank, handles, t, c, g);
    GrowOwned(s, owned, keep, root, t, 0);
    GrowOwned(s, owned + {c}, keep, root, c, 0);
    assert owned + {c} + {g} == owned + {c, g};
    RotationLinked(s, rank, handles, t, c, g);
    RotatedCells(s, rank, handles, t, c, g);
    RotationCounted(s, rank, handles, t, c, g);
    RotationKeepsOwned(s, rank, handles, t, c, g, owned + {c, g}, keep);
    PivotInZone(lang, zone, s, rank, handles, t, c, g);
    RotationKeepsNodesOk(lang, zone, s, rank, handles, t, c, g);
    RotationKeepsExplored(s, rank, handles, t, c, g, front, done);
    RotationKeepsClean(lang, zone, s, rank, handles, t, c, g, Moved(spine, cs, |cs|));
    GrowSpine(s, rank, handles, spine, cs, c, g);
    RotateKeepsFreeList(s, rank, handles, t, c, g, free);
  }
}
