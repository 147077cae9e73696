/** How high repetitions are nested, as trees, and that balancing is told the truth about it. */
module Depths {
  import opened Subtrees
  import opened SubtreePools
  import opened Ownership
  import opened Rotations
  import opened Balancing
  import opened OwnPrecedences
  import opened Halvings

  /**
   * The height of a repetition: a hidden node with two or more children that begins with its own
   * symbol is one higher than the higher of its first and its last child; all others have height zero.
   */
  function Height(t: Tree): nat {
    var n := |t.children|;
    if n >= 2 && !t.data.visible && !t.data.named && t.children[0].data.symbol == t.data.symbol then
      1 + Max(Height(t.children[0]), Height(t.children[n - 1]))
    else 0
  }

  /** The cells of the zone, but for those of a set, cache how high their children say that they are. */
  ghost predicate DepthsTrue(s: Store, zone: set<Addr>, done: set<Addr>) {
    forall a: Addr :: a in zone && a !in done && IsLive(s, a) ==> DepthTrue(s, a)
  }

  /** No cell outside of a set has a child in it. */
  ghost predicate Above(s: Store, cells: set<Addr>) {
    forall a: Addr, x: Addr :: IsLive(s, a) && Ptr(x) in s[a].children && x in cells ==> a in cells
  }

  lemma HeightOf(d: Data, ts: seq<Tree>)
    ensures Height(Tree(d, ts))
         == if |ts| >= 2 && !d.visible && !d.named && ts[0].data.symbol == d.symbol
            then 1 + Max(Height(ts[0]), Height(ts[|ts| - 1])) else 0
  {
  }

  lemma KidsAreViews(s: Store, rank: seq<nat>, a: Addr)
    requires Linked(s, rank) && IsLive(s, a)
    ensures |rank| == |s|
    ensures forall i :: 0 <= i < |s[a].children| ==>
              ValidRef(s, s[a].children[i]) && RankOf(rank, s[a].children[i]) < RankOf(rank, Ptr(a))
    ensures var ts := ViewAll(s, rank, s[a].children);
            View(s, rank, Ptr(a)) == Tree(s[a].data, ts)
            && forall i :: 0 <= i < |ts| ==> ts[i].data == RefData(s, s[a].children[i])
  {
    ViewIs(s, rank, a);
    LinkedAt(s, rank, a);
    DatasOfViews(s, rank, s[a].children);
    hide Linked, View;
    forall i | 0 <= i < |s[a].children|
      ensures ViewAll(s, rank, s[a].children)[i].data == RefData(s, s[a].children[i])
    {
      ViewData(s, rank, s[a].children[i]);
    }
  }

  /** What is cached is the height of the tree, wherever all below is up to date. */
  lemma {:induction false} DepthIsHeight(s: Store, rank: seq<nat>, zone: set<Addr>, done: set<Addr>, r: Ref)
    requires Linked(s, rank) && ValidRef(s, r) && DepthsTrue(s, zone, done) && Above(s, done)
    requires forall a: Addr :: a in zone ==> IsLive(s, a) && KidsWithin(s, a, zone)
    requires r.Ptr? ==> r.addr in zone && r.addr !in done
    ensures DepthAt(s, r) == Height(View(s, rank, r))
    decreases RankOf(rank, r)
  {
    hide Linked, View, Height, DepthsTrue, Above, KidsWithin, ViewAll;
    if r.Ptr? {
      var a := r.addr;
      KidsAreViews(s, rank, a);
      var kids := s[a].children;
      HeightOf(s[a].data, ViewAll(s, rank, kids));
      assert DepthTrue(s, a) by { DepthOf(s, zone, done, a); }
      if |kids| >= 2 {
        KidBelow(s, zone, done, a, 0);
        KidBelow(s, zone, done, a, |kids| - 1);
        DepthIsHeight(s, rank, zone, done, kids[0]);
        DepthIsHeight(s, rank, zone, done, kids[|kids| - 1]);
      }
      CellNotInline(s, rank, a);
    } else {
      InlineView(s, rank, r);
      HeightOf(r.data, []);
    }
  }

  /** The cell is found to be of its tree's height, and to lean as its first child's tree is higher than its last's. */
  ghost predicate LeansByHeight(s: Store, rank: seq<nat>, a: Addr) {
    && Linked(s, rank) && IsLive(s, a)
    && var t := View(s, rank, Ptr(a));
       && s[a].data.repeatDepth == Height(t)
       && (t.children != [] ==> Excess(s, a) == Height(t.children[0]) - Height(t.children[|t.children| - 1]))
  }

  lemma LeansTruly(lang: Language, zone: set<Addr>, s: Store, rank: seq<nat>, owned: set<Addr>, keep: multiset<Ref>, root: Ref,
                   front: set<Addr>, done: set<Addr>, a: Addr)
    requires Ready(lang, zone, s, rank, owned, keep, root, front, done) && DepthsTrue(s, zone, done)
    requires a in owned && a !in done
    ensures LeansByHeight(s, rank, a)
  {
    hide Linked, Counted, Owned, View, Height, DepthTrue, NodeOk, AliasesOk, KidsWithin;
    KidsAreViews(s, rank, a);
    DepthIsHeight(s, rank, zone, done, Ptr(a));
    CellNotInline(s, rank, a);
    var kids := s[a].children;
    if kids != [] {
      KidBelow(s, zone, done, a, 0);
      KidBelow(s, zone, done, a, |kids| - 1);
      DepthIsHeight(s, rank, zone, done, kids[0]);
      DepthIsHeight(s, rank, zone, done, kids[|kids| - 1]);
    }
  }

  lemma DepthOf(s: Store, zone: set<Addr>, done: set<Addr>, a: Addr)
    requires DepthsTrue(s, zone, done) && a in zone && a !in done && IsLive(s, a)
    ensures DepthTrue(s, a)
  {
  }

  lemma KidBelow(s: Store, zone: set<Addr>, done: set<Addr>, a: Addr, i: nat)
    requires Above(s, done) && IsLive(s, a) && a !in done && i < |s[a].children| && KidsWithin(s, a, zone)
    ensures s[a].children[i].Ptr? ==> s[a].children[i].addr in zone && s[a].children[i].addr !in done
  {
    assert s[a].children[i] in s[a].children;
  }

  lemma CellNotInline(s: Store, rank: seq<nat>, a: Addr)
    requires Linked(s, rank) && IsLive(s, a)
    ensures DepthAt(s, Ptr(a)) == s[a].data.repeatDepth
  {
    LinkedAt(s, rank, a);
  }

  // ----- what balancing keeps ------------------------------------------------------------------

  /** A cell off the spine without children on it is as it was. */
  lemma OffSpineDepth(s0: Store, s: Store, rank: seq<nat>, u: Store, spine: seq<Addr>, cs: seq<Addr>, a: Addr)
    requires OnlyRotated(s0, s, spine, cs) && SameOffSpine(s, u, spine, cs) && IsLive(s0, a) && a !in spine && a !in cs
    requires forall x: Addr :: x in spine || x in cs ==> Ptr(x) !in s[a].children
    requires Linked(s, rank)
    ensures DepthTrue(u, a) == DepthTrue(s0, a)
  {
    LinkedKids(s, rank, a);
    hide Linked, DepthTrue;
    forall i | 0 <= i < |s0[a].children|
      ensures var r := s0[a].children[i];
              ValidRef(u, r) == ValidRef(s0, r) && (ValidRef(s0, r) ==> RefData(u, r) == RefData(s0, r))
    {
      assert s[a].children[i] in s[a].children;
    }
    SameDepth(s0, u, a);
  }

  /** Compressing leaves depths true: those of the cells that moved, and all others below those already visited. */
  lemma CompressedDepths(s0: Store, s: Store, rank: seq<nat>, handles: multiset<Ref>, u: Store, spine: seq<Addr>, cs: seq<Addr>,
                         zone: set<Addr>, front: set<Addr>, done: set<Addr>)
    requires OnlyRotated(s0, s, spine, cs) && SameOffSpine(s, u, spine, cs) && (cs == [] ==> u == s)
    requires Linked(s, rank) && Counted(s, handles, multiset{}) && |spine| == |cs| + 1 && SpineOk(s, spine, cs)
    requires cs != [] ==> Forgotten(u, spine, cs, 0)
    requires Explored(s, front, done) && spine[0] in front && DepthsTrue(s0, zone, done)
    ensures DepthsTrue(u, zone, done)
  {
    hide Linked, Counted, SpineOk, DepthTrue, Own;
    if cs != [] {
      forall a: Addr | a in zone && a !in done && IsLive(u, a) ensures DepthTrue(u, a) {
        if a !in spine && a !in cs {
          forall x: Addr | x in spine || x in cs ensures Ptr(x) !in s[a].children {
            OnSpineOnly(s, rank, handles, spine, cs, front, done, a, x);
          }
          OffSpineDepth(s0, s, rank, u, spine, cs, a);
        } else {
          assert UpToDate(u, a);
        }
      }
    }
  }

  lemma KeptIsRotated(s0: Store, s: Store, spine: seq<Addr>, cs: seq<Addr>)
    requires |spine| == |cs| + 1 && OwnKept(s0, s, spine, cs)
    ensures OnlyRotated(s0, s, spine, cs)
  {
  }

  lemma SpineDepths(s: Store, spine: seq<Addr>, cs: seq<Addr>)
    requires Forgotten(s, spine, cs, 0)
    ensures forall a: Addr :: a in spine || a in cs ==> DepthTrue(s, a)
  {
    hide DepthTrue;
  }

  /** The parents of a cell of the spine are on it or visited. */
  lemma OnSpineOnly(s: Store, rank: seq<nat>, handles: multiset<Ref>, spine: seq<Addr>, cs: seq<Addr>,
                    front: set<Addr>, done: set<Addr>, a: Addr, x: Addr)
    requires Linked(s, rank) && Counted(s, handles, multiset{}) && |spine| == |cs| + 1 && SpineOk(s, spine, cs)
    requires Explored(s, front, done) && spine[0] in front && IsLive(s, a) && (x in spine || x in cs)
    requires a !in spine && a !in cs && a !in done
    ensures Ptr(x) !in s[a].children
  {
    hide Linked, Counted, SpineOk;
    if Ptr(x) in s[a].children {
      if x in cs {
        var j :| 0 <= j < |cs| && cs[j] == x;
        SpineSlots(s, rank, handles, spine, cs, j);
      } else {
        var j :| 0 <= j < |spine| && spine[j] == x;
        if j > 0 {
          SpineSlots(s, rank, handles, spine, cs, j - 1);
        }
      }
    }
  }
}
