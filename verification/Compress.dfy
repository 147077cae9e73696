/** Compressing a repetition: rotate down its left edge, then summarise again on the way back up. */
module Compressing {
  import opened Lengths
  import opened Subtrees
  import opened Summaries
  import opened SubtreePools
  import opened Ownership
  import opened Meanings
  import opened Rotations
  import opened Balancing
  import opened OwnPrecedences
  import opened Depths
  import opened Halvings

  // ----- summarising one cell again ------------------------------------------------------------

  /** `u` differs from `s` in what it caches about some hidden inner nodes. */
  ghost predicate Relabelled(s: Store, u: Store) {
    && |s| == |u|
    && forall a: Addr :: a < |s| ==>
         && s[a].Live? == u[a].Live?
         && (s[a].Live? ==>
               && s[a].refCount == u[a].refCount && s[a].children == u[a].children
               && SameIdentity(s[a].data, u[a].data) && (Fixed(s[a]) ==> s[a].data == u[a].data))
  }

  /** What references mean does not depend on what inner nodes cache. */
  lemma {:induction false} RelabelledMeaning(lang: Language, s: Store, rank: seq<nat>, u: Store, r: Ref)
    requires Linked(s, rank) && Linked(u, rank) && Relabelled(s, u) && ValidRef(s, r)
    ensures ValidRef(u, r) && MeaningAt(lang, u, rank, r) == MeaningAt(lang, s, rank, r)
    decreases RankOf(rank, r)
  {
    hide Linked, View, Meaning;
    if r.Ptr? {
      var a := r.addr;
      ViewIs(s, rank, a);
      ViewIs(u, rank, a);
      LinkedAt(s, rank, a);
      forall i | 0 <= i < |s[a].children|
        ensures MeaningAt(lang, u, rank, s[a].children[i]) == MeaningAt(lang, s, rank, s[a].children[i])
      {
        RelabelledMeaning(lang, s, rank, u, s[a].children[i]);
      }
      if s[a].children == [] {
        assert ViewAll(s, rank, s[a].children) == ViewAll(u, rank, u[a].children);
      } else {
        MeaningOfNode(lang, s[a].data, ViewAll(s, rank, s[a].children), u[a].data, ViewAll(u, rank, u[a].children));
      }
    } else {
      InlineView(s, rank, r);
      InlineView(u, rank, r);
    }
  }

  lemma SummarizeIdentity(lang: Language, d: Data, ds: seq<Data>)
    requires ds != []
    ensures SameIdentity(d, Summarize(lang, d, ds))
    ensures Summarize(lang, d, ds).repeatDepth > 0 ==> !d.visible && !d.named && d.childCount >= 2
  {
  }

  lemma InlineMeaning(lang: Language, s: Store, rank: seq<nat>, r: Ref)
    requires Linked(s, rank) && ValidRef(s, r) && r.Inline?
    ensures Kept(RefData(s, r)) == MeaningAt(lang, s, rank, r).1
  {
    InlineView(s, rank, r);
  }

  /** A cell that is summarised from clean children is clean. */
  lemma SummaryIsMeaning(lang: Language, s: Store, rank: seq<nat>, a: Addr, d: Data)
    requires Linked(s, rank) && IsLive(s, a) && CellLinked(s, rank, a) && s[a].children != []
    requires forall i :: 0 <= i < |s[a].children| && s[a].children[i].Ptr? ==>
               CleanAt(lang, s, rank, s[a].children[i].addr)
    requires SameIdentity(s[a].data, d)
    ensures Kept(Summarize(lang, s[a].data, RefDatas(s, s[a].children))) == MeaningAt(lang, s, rank, Ptr(a)).1
  {
    ViewIs(s, rank, a);
    var kids := s[a].children;
    var ts := ViewAll(s, rank, kids);
    forall i | 0 <= i < |kids| ensures Kept(RefDatas(s, kids)[i]) == Kept(TrueDatas(lang, ts)[i]) {
      if kids[i].Inline? {
        InlineMeaning(lang, s, rank, kids[i]);
      }
    }
    TrueDataOf(lang, Tree(s[a].data, ts));
    hide Linked, Kept, Summarize;
    SummarizeKept(lang, s[a].data, s[a].data, RefDatas(s, kids), TrueDatas(lang, ts));
  }

  /** Summarising one hidden cell again changes what it caches and nothing else. */
  lemma Resummarized(lang: Language, zone: set<Addr>, s: Store, rank: seq<nat>, a: Addr, dirty: set<Addr>)
    requires Linked(s, rank) && IsLive(s, a) && CellLinked(s, rank, a) && !Fixed(s[a])
    requires AllClean(lang, zone, s, rank, dirty) && NodesOk(lang, zone, s) && a in zone
    ensures var u := WithData(s, a, Summarize(lang, s[a].data, RefDatas(s, s[a].children)));
            && Linked(u, rank) && Relabelled(s, u) && AllClean(lang, zone, u, rank, dirty + {a})
            && (NoKidIn(s, a, dirty) ==> AllClean(lang, zone, u, rank, dirty - {a}))
  {
    hide Linked, Kept, Summarize, MeaningAt, RefDatas;
    var d := Summarize(lang, s[a].data, RefDatas(s, s[a].children));
    var u := WithData(s, a, d);
    SummarizeIdentity(lang, s[a].data, RefDatas(s, s[a].children));
    WithDataKeeps(s, rank, a, d);
    assert Relabelled(s, u);
    hide Relabelled;
    forall r | ValidRef(s, r) ensures ValidRef(u, r) && MeaningAt(lang, u, rank, r) == MeaningAt(lang, s, rank, r) {
      RelabelledMeaning(lang, s, rank, u, r);
    }
    forall b: Addr | IsLive(u, b) && b in zone && b !in dirty + {a} ensures CleanAt(lang, u, rank, b) {
      assert IsLive(s, b) && ValidRef(s, Ptr(b)) && CleanAt(lang, s, rank, b);
    }
    if NoKidIn(s, a, dirty) {
      assert KidsWithin(s, a, zone);
      forall i | 0 <= i < |s[a].children| && s[a].children[i].Ptr? ensures CleanAt(lang, s, rank, s[a].children[i].addr) {
        assert s[a].children[i] in s[a].children;
      }
      SummaryIsMeaning(lang, s, rank, a, d);
      assert ValidRef(s, Ptr(a)) && CleanAt(lang, u, rank, a);
    }
  }

  // ----- the spine, while it is built and while it is summarised -------------------------------

  ghost predicate SpineOwned(spine: seq<Addr>, cs: seq<Addr>, owned: set<Addr>) {
    && (forall j :: 0 <= j < |spine| ==> spine[j] in owned)
    && forall j :: 0 <= j < |cs| ==> cs[j] in owned
  }

  /** What holds between any two steps of a compression that began in `s0`, apart from what is dirty. */
  ghost predicate Spinning(lang: Language, zone: set<Addr>, s0: Store, rank0: seq<nat>, s: Store, rank: seq<nat>, owned: set<Addr>,
                           keep: multiset<Ref>, root: Ref, front: set<Addr>, done: set<Addr>,
                           spine: seq<Addr>, cs: seq<Addr>, free: seq<Addr>)
  {
    && Linked(s0, rank0) && Ready(lang, zone, s, rank, owned, keep, root, front, done) && FreeListOk(s, free)
    && |spine| == |cs| + 1 && SpineOk(s, spine, cs) && SpineOwned(spine, cs, owned) && spine[|cs|] !in done
    && MeaningKept(lang, s0, rank0, s, rank, Moved(spine, cs, |cs|)) && !InSet(root, Moved(spine, cs, |cs|))
    && SameNodes(s0, s) && AgreeOutside(s0, s, owned) && AgreeOutside(s, s0, owned)
    && KidsKept(s0, s, done)
  }

  /** Finished cells keep their children. */
  ghost predicate KidsKept(s: Store, u: Store, done: set<Addr>) {
    forall a: Addr :: IsLive(s, a) && a in done ==> IsLive(u, a) && u[a].children == s[a].children
  }

  lemma KidsKeptTransitive(s: Store, t: Store, u: Store, done: set<Addr>)
    requires KidsKept(s, t, done) && KidsKept(t, u, done)
    ensures KidsKept(s, u, done)
  {
  }

  lemma RotationKeepsKids(s: Store, rank: seq<nat>, handles: multiset<Ref>, t: Addr, c: Addr, g: Addr,
                          front: set<Addr>, done: set<Addr>)
    requires Pivot(s, rank, handles, t, c, g) && Explored(s, front, done) && t !in done
    ensures t != c && c != g && t != g
    ensures KidsKept(s, Rotate(s, t, c, g), done)
  {
    hide Linked, Counted, Pivot, Rotate, Explored;
    RotatedCells(s, rank, handles, t, c, g);
    RotationKeepsExplored(s, rank, handles, t, c, g, front, done);
  }

  lemma AgreeGrows(s0: Store, s: Store, u: Store, owned: set<Addr>, owned': set<Addr>)
    requires AgreeOutside(s0, s, owned) && AgreeOutside(s, s0, owned) && owned <= owned'
    requires AgreeOutside(s, u, owned') && AgreeOutside(u, s, owned')
    ensures AgreeOutside(s0, u, owned') && AgreeOutside(u, s0, owned')
  {
  }

  lemma SpineOwnedGrows(spine: seq<Addr>, cs: seq<Addr>, owned: set<Addr>, c: Addr, g: Addr)
    requires SpineOwned(spine, cs, owned)
    ensures SpineOwned(spine + [g], cs + [c], owned + {c, g})
  {
  }

  lemma InEither(r: Ref, xs: set<Addr>, ys: set<Addr>)
    requires !InSet(r, xs) && !InSet(r, ys)
    ensures !InSet(r, xs + ys)
  {
  }

  /** One more rotation at the lower end of the spine. */
  lemma SpinDown(lang: Language, zone: set<Addr>, s0: Store, rank0: seq<nat>, s: Store, rank: seq<nat>, owned: set<Addr>,
                 keep: multiset<Ref>, root: Ref, front: set<Addr>, done: set<Addr>,
                 spine: seq<Addr>, cs: seq<Addr>, free: seq<Addr>, c: Addr, g: Addr)
    requires Spinning(lang, zone, s0, rank0, s, rank, owned, keep, root, front, done, spine, cs, free)
    requires AllClean(lang, zone, s, rank, Moved(spine, cs, |cs|))
    requires Pivot(s, rank, keep + multiset{root}, spine[|cs|], c, g) && SameRepetition(lang, s, spine[|cs|], c, g)
    requires !Fixed(s[spine[|cs|]]) && !Fixed(s[c]) && !Fixed(s[g])
    ensures var t := spine[|cs|]; t != c && c != g && t != g && |rank| == |s| && c < |rank| && g < |rank| && rank[c] > 0
    ensures var u, rank' := Rotate(s, spine[|cs|], c, g), Reranked(rank, c, g);
            && Linked(u, rank') && Spinning(lang, zone, s0, rank0, u, rank', owned + {c, g}, keep, root, front, done, spine + [g], cs + [c], free)
            && AllClean(lang, zone, u, rank', Moved(spine + [g], cs + [c], |cs| + 1))
  {
    hide Linked, Counted, NoneDead, NodesOk, Owned, Explored, Pivot, Rotate, SpineOk, Moved, AllClean, MeaningKept,
         SameNodes, AgreeOutside, SameRepetition, FreeListOk, Ready, SpineOwned, InSet, LiveSet, KidsKept;
    assert spine[|cs|] in owned by {
      SpineEnd(spine, cs, owned);
    }
    PivotLive(s, rank, keep + multiset{root}, spine[|cs|], c, g);
    RotateStep(lang, zone, s, rank, owned, keep, root, front, done, spine, cs, c, g, free);
    var u, rank' := Rotate(s, spine[|cs|], c, g), Reranked(rank, c, g);
    ReadyLinked(lang, zone, s, rank, owned, keep, root, front, done);
    ReadyLinked(lang, zone, u, rank', owned + {c, g}, keep, root, front, done);
    SameNodesTransitive(s0, s, u);
    MeaningKeptTransitive(lang, s0, rank0, s, rank, u, rank', Moved(spine, cs, |cs|), {c, g});
    AgreeGrows(s0, s, u, owned, owned + {c, g});
    ReadyExplored(lang, zone, s, rank, owned, keep, root, front, done);
    RotationKeepsKids(s, rank, keep + multiset{root}, spine[|cs|], c, g, front, done);
    KidsKeptTransitive(s0, s, u, done);
    SpineOwnedGrows(spine, cs, owned, c, g);
    InEither(root, Moved(spine, cs, |cs|), {c, g});
  }

  lemma SpineEnd(spine: seq<Addr>, cs: seq<Addr>, owned: set<Addr>)
    requires SpineOwned(spine, cs, owned) && |spine| == |cs| + 1
    ensures spine[|cs|] in owned
  {
  }

  lemma ReadyExplored(lang: Language, zone: set<Addr>, s: Store, rank: seq<nat>, owned: set<Addr>, keep: multiset<Ref>, root: Ref,
                      front: set<Addr>, done: set<Addr>)
    requires Ready(lang, zone, s, rank, owned, keep, root, front, done)
    ensures Explored(s, front, done) && Owned(s, owned, keep) && NoneDead(s) && NodesOk(lang, zone, s)
    ensures owned <= zone
  {
  }

  lemma ReadyLinked(lang: Language, zone: set<Addr>, s: Store, rank: seq<nat>, owned: set<Addr>, keep: multiset<Ref>, root: Ref,
                    front: set<Addr>, done: set<Addr>)
    requires Ready(lang, zone, s, rank, owned, keep, root, front, done)
    ensures Linked(s, rank) && Counted(s, keep + multiset{root}, multiset{})
  {
  }

  lemma SummaryNodeOk(lang: Language, d: Data, ds: seq<Data>)
    requires ds != [] && NodeOk(lang, d)
    ensures NodeOk(lang, Summarize(lang, d, ds))
  {
  }

  lemma RelabelledNodes(s: Store, u: Store)
    requires Relabelled(s, u)
    ensures SameNodes(s, u)
  {
  }

  lemma RelabelledKeepsKids(s: Store, u: Store, done: set<Addr>)
    requires Relabelled(s, u)
    ensures KidsKept(s, u, done)
  {
  }

  lemma RelabelledCounts(s: Store, u: Store, handles: multiset<Ref>)
    requires Relabelled(s, u) && Counted(s, handles, multiset{}) && NoneDead(s)
    ensures Counted(u, handles, multiset{}) && NoneDead(u) && LiveSet(u) == LiveSet(s)
  {
    hide Counted, NoneDead;
    SameCellsSameEdges(s, u, |s|);
    SameCounts(s, u, handles);
  }

  lemma RelabelledOwned(s: Store, u: Store, owned: set<Addr>, keep: multiset<Ref>, front: set<Addr>, done: set<Addr>)
    requires Relabelled(s, u) && Owned(s, owned, keep) && Explored(s, front, done)
    ensures Owned(u, owned, keep) && Explored(u, front, done)
  {
    forall a: Addr | IsLive(u, a) && a !in owned ensures NoKidIn(u, a, owned) {
      assert NoKidIn(s, a, owned);
    }
  }

  lemma RelabelledSpine(s: Store, u: Store, spine: seq<Addr>, cs: seq<Addr>, free: seq<Addr>)
    requires Relabelled(s, u) && |spine| == |cs| + 1 && SpineOk(s, spine, cs) && FreeListOk(s, free)
    ensures SpineOk(u, spine, cs) && FreeListOk(u, free)
  {
    forall j | 0 <= j < |cs| ensures SpinePair(u, spine[j], spine[j + 1], cs[j]) {
      assert SpinePair(s, spine[j], spine[j + 1], cs[j]);
    }
  }

  lemma RelabelledAliases(lang: Language, s: Store, u: Store, a: Addr)
    requires Relabelled(s, u) && IsLive(s, a) && AliasesOk(lang, s, a)
    ensures IsLive(u, a) && AliasesOk(lang, u, a)
  {
    RelabelledNodes(s, u);
    hide SameNodes, Repeats, NoLastAlias, AliasFree;
    forall r ensures Repeats(u, a, r) <==> Repeats(s, a, r) {
      SameRepeats(s, u, a, r);
    }
    forall r | r in u[a].children && Repeats(u, a, r) ensures NoLastAlias(lang, u, r.addr) {
      RepeatsIsCell(s, a, r);
      LastAliasValid(lang, s, r.addr);
      SameLastAlias(lang, s, u, r.addr);
    }
  }

  lemma LastAliasValid(lang: Language, s: Store, a: Addr)
    requires IsLive(s, a) && s[a].children != [] && NoLastAlias(lang, s, a)
    ensures ValidRef(s, s[a].children[|s[a].children| - 1])
  {
  }

  lemma RelabelledNodesOk(lang: Language, zone: set<Addr>, s: Store, a: Addr, ds: seq<Data>)
    requires NodesOk(lang, zone, s) && IsLive(s, a) && ds != []
    requires Relabelled(s, WithData(s, a, Summarize(lang, s[a].data, ds)))
    ensures NodesOk(lang, zone, WithData(s, a, Summarize(lang, s[a].data, ds)))
  {
    hide Summarize, NodeOk, AliasesOk;
    var u := WithData(s, a, Summarize(lang, s[a].data, ds));
    forall b: Addr | b in zone
      ensures IsLive(u, b) && NodeOk(lang, u[b].data) && AliasesOk(lang, u, b) && KidsWithin(u, b, zone)
    {
      assert NodeOk(lang, s[b].data) && KidsWithin(s, b, zone) && AliasesOk(lang, s, b);
      RelabelledAliases(lang, s, u, b);
      if b == a {
        SummaryNodeOk(lang, s[a].data, ds);
      }
    }
  }

  lemma RelabelledMeanings(lang: Language, s: Store, rank: seq<nat>, u: Store)
    requires Linked(s, rank) && Linked(u, rank) && Relabelled(s, u)
    ensures MeaningKept(lang, s, rank, u, rank, {})
  {
    hide Linked, MeaningAt;
    forall r | ValidRef(s, r) ensures ValidRef(u, r) && MeaningAt(lang, u, rank, r) == MeaningAt(lang, s, rank, r) {
      RelabelledMeaning(lang, s, rank, u, r);
    }
  }

  lemma WithDataAgrees(s: Store, a: Addr, d: Data, owned: set<Addr>)
    requires IsLive(s, a) && a in owned
    ensures AgreeOutside(s, WithData(s, a, d), owned) && AgreeOutside(WithData(s, a, d), s, owned)
  {
  }

  /** A relabelling at one owned cell keeps what is ready ready. */
  lemma RelabelledReady(lang: Language, zone: set<Addr>, s: Store, rank: seq<nat>, a: Addr, ds: seq<Data>, owned: set<Addr>,
                        keep: multiset<Ref>, root: Ref, front: set<Addr>, done: set<Addr>)
    requires Ready(lang, zone, s, rank, owned, keep, root, front, done) && IsLive(s, a) && ds != []
    requires var u := WithData(s, a, Summarize(lang, s[a].data, ds)); Relabelled(s, u) && Linked(u, rank)
    ensures Ready(lang, zone, WithData(s, a, Summarize(lang, s[a].data, ds)), rank, owned, keep, root, front, done)
  {
    hide Linked, Counted, NoneDead, NodesOk, Owned, Explored, Relabelled, Summarize, WithData;
    var u := WithData(s, a, Summarize(lang, s[a].data, ds));
    RelabelledCounts(s, u, keep + multiset{root});
    RelabelledOwned(s, u, owned, keep, front, done);
    RelabelledNodesOk(lang, zone, s, a, ds);
  }

  /** Summarising one cell of the spine again. */
  lemma SpinLabel(lang: Language, zone: set<Addr>, s0: Store, rank0: seq<nat>, s: Store, rank: seq<nat>, owned: set<Addr>,
                  keep: multiset<Ref>, root: Ref, front: set<Addr>, done: set<Addr>,
                  spine: seq<Addr>, cs: seq<Addr>, free: seq<Addr>, a: Addr, dirty: set<Addr>)
    requires Spinning(lang, zone, s0, rank0, s, rank, owned, keep, root, front, done, spine, cs, free)
    requires AllClean(lang, zone, s, rank, dirty) && a in owned && IsLive(s, a) && CellLinked(s, rank, a) && !Fixed(s[a])
    ensures var u := WithData(s, a, Summarize(lang, s[a].data, RefDatas(s, s[a].children)));
            && Spinning(lang, zone, s0, rank0, u, rank, owned, keep, root, front, done, spine, cs, free)
            && Relabelled(s, u) && AllClean(lang, zone, u, rank, dirty + {a})
            && (NoKidIn(s, a, dirty) ==> AllClean(lang, zone, u, rank, dirty - {a}))
  {
    hide Linked, Counted, NoneDead, NodesOk, Owned, Explored, SpineOk, Moved, AllClean, MeaningKept,
         SameNodes, AgreeOutside, FreeListOk, Ready, SpineOwned, InSet, LiveSet, KidsKept, Relabelled, NoKidIn, Summarize, RefDatas, WithData;
    ReadyLinked(lang, zone, s, rank, owned, keep, root, front, done);
    ReadyExplored(lang, zone, s, rank, owned, keep, root, front, done);
    var ds := RefDatas(s, s[a].children);
    var u := WithData(s, a, Summarize(lang, s[a].data, ds));
    Resummarized(lang, zone, s, rank, a, dirty);
    RelabelledReady(lang, zone, s, rank, a, ds, owned, keep, root, front, done);
    RelabelledSpine(s, u, spine, cs, free);
    RelabelledMeanings(lang, s, rank, u);
    RelabelledNodes(s, u);
    SameNodesTransitive(s0, s, u);
    MeaningKeptTransitive(lang, s0, rank0, s, rank, u, rank, Moved(spine, cs, |cs|), {});
    assert Moved(spine, cs, |cs|) + {} == Moved(spine, cs, |cs|);
    WithDataAgrees(s, a, Summarize(lang, s[a].data, ds), owned);
    AgreeGrows(s0, s, u, owned, owned);
    RelabelledKeepsKids(s, u, done);
    KidsKeptTransitive(s0, s, u, done);
  }

  /** Which children of the spine's cells were moved: a moved cell has its place on the spine only. */
  lemma SpineKids(s: Store, rank: seq<nat>, handles: multiset<Ref>, spine: seq<Addr>, cs: seq<Addr>, k: nat)
    requires Linked(s, rank) && Counted(s, handles, multiset{})
    requires |spine| == |cs| + 1 && SpineOk(s, spine, cs) && k < |cs|
    ensures IsLive(s, cs[k]) && NoKidIn(s, cs[k], Moved(spine, cs, k + 1))
    ensures IsLive(s, spine[k + 1]) && NoKidIn(s, spine[k + 1], Moved(spine, cs, k + 1) - {cs[k]})
  {
    hide Linked, Counted, Moved;
    assert SpinePair(s, spine[k], spine[k + 1], cs[k]);
    forall i | 0 <= i < |s[cs[k]].children| ensures !InSet(s[cs[k]].children[i], Moved(spine, cs, k + 1)) {
      if InSet(s[cs[k]].children[i], Moved(spine, cs, k + 1)) {
        var j := MovedChild(s, rank, handles, spine, cs, k, cs[k], i);
        SpineRanks(s, rank, spine, cs, j, k + 1);
      }
    }
    var lower := spine[k + 1];
    forall i | 0 <= i < |s[lower].children| ensures !InSet(s[lower].children[i], Moved(spine, cs, k + 1) - {cs[k]}) {
      if InSet(s[lower].children[i], Moved(spine, cs, k + 1)) {
        var j := MovedChild(s, rank, handles, spine, cs, k, lower, i);
        SpineRanks(s, rank, spine, cs, j, k + 1);
      }
    }
  }

  /** The parent of a moved cell is a cell of the spine. */
  lemma MovedChild(s: Store, rank: seq<nat>, handles: multiset<Ref>, spine: seq<Addr>, cs: seq<Addr>, k: nat, y: Addr, i: nat)
    returns (j: nat)
    requires Linked(s, rank) && Counted(s, handles, multiset{})
    requires |spine| == |cs| + 1 && SpineOk(s, spine, cs) && k < |cs|
    requires IsLive(s, y) && i < |s[y].children| && InSet(s[y].children[i], Moved(spine, cs, k + 1))
    ensures j <= k + 1 && y == spine[j]
    ensures j == k + 1 ==> s[y].children[i] == Ptr(cs[k])
    ensures IsLive(s, spine[|cs|])
  {
    hide Linked, Counted, Moved;
    var x := s[y].children[i].addr;
    j := MovedAt(spine, cs, k + 1, x);
    assert SpinePair(s, spine[|cs| - 1], spine[|cs|], cs[|cs| - 1]);
    assert SpinePair(s, spine[j], spine[j + 1], cs[j]);
    if x == spine[j + 1] {
      SoleSlot(s, handles, spine[j], 0);
    } else {
      SoleSlot(s, handles, spine[j + 1], |s[spine[j + 1]].children| - 1);
      j := j + 1;
    }
  }

  // ----- the two loops -------------------------------------------------------------------------

  lemma SpinStarts(lang: Language, zone: set<Addr>, s: Store, rank: seq<nat>, owned: set<Addr>, keep: multiset<Ref>, root: Ref,
                   front: set<Addr>, done: set<Addr>, self: Addr, free: seq<Addr>)
    requires Ready(lang, zone, s, rank, owned, keep, root, front, done) && FreeListOk(s, free) && AllClean(lang, zone, s, rank, {})
    requires self in owned && self !in done
    ensures Spinning(lang, zone, s, rank, s, rank, owned, keep, root, front, done, [self], [], free)
    ensures AllClean(lang, zone, s, rank, Moved([self], [], 0))
  {
    hide Linked, Counted, NoneDead, NodesOk, Owned, Explored, MeaningAt, AllClean, FreeListOk;
    assert Moved([self], [], 0) == {};
  }

  lemma KidsInZone(lang: Language, zone: set<Addr>, s: Store, a: Addr)
    requires NodesOk(lang, zone, s) && a in zone
    ensures IsLive(s, a) && forall i :: 0 <= i < |s[a].children| && s[a].children[i].Ptr? ==> s[a].children[i].addr in zone
  {
    hide NodeOk;
    assert KidsWithin(s, a, zone);
  }

  /** The checks of the loop find the cells of a rotation. */
  lemma FindPivot(lang: Language, zone: set<Addr>, s: Store, rank: seq<nat>, owned: set<Addr>, keep: multiset<Ref>, root: Ref,
                  front: set<Addr>, done: set<Addr>, t: Addr, symbol: Symbol)
    requires Ready(lang, zone, s, rank, owned, keep, root, front, done) && !lang.isVisible(symbol) && !lang.isNamed(symbol)
    requires Rotatable(s, t, symbol) && t in owned
    ensures var c := s[t].children[0].addr; var g := s[c].children[0].addr;
            && Pivot(s, rank, keep + multiset{root}, t, c, g) && SameRepetition(lang, s, t, c, g)
            && !Fixed(s[t]) && !Fixed(s[c]) && !Fixed(s[g])
  {
    hide Linked, Counted, Owned, Explored, NodesOk, NodeOk, Grouping, AliasFree, NoLastAlias, Fixed;
    var c := s[t].children[0].addr;
    var g := s[c].children[0].addr;
    KidsInZone(lang, zone, s, t);
    KidsInZone(lang, zone, s, c);
    LinkGroups(lang, zone, s, rank, t, symbol);
    LinkGroups(lang, zone, s, rank, c, symbol);
    LinkGroups(lang, zone, s, rank, g, symbol);
    NodeFacts(lang, zone, s, t);
    NodeFacts(lang, zone, s, c);
    assert s[t].children[0] in s[t].children && Repeats(s, t, s[t].children[0]);
    assert s[c].children[0] in s[c].children && Repeats(s, c, s[c].children[0]);
  }

  /** One turn of the loop: rotate below the last cell of the spine. */
  lemma SpinOnce(lang: Language, zone: set<Addr>, s0: Store, rank0: seq<nat>, s: Store, rank: seq<nat>, owned: set<Addr>,
                 keep: multiset<Ref>, root: Ref, front: set<Addr>, done: set<Addr>,
                 spine: seq<Addr>, cs: seq<Addr>, free: seq<Addr>, symbol: Symbol)
    requires Spinning(lang, zone, s0, rank0, s, rank, owned, keep, root, front, done, spine, cs, free)
    requires AllClean(lang, zone, s, rank, Moved(spine, cs, |cs|)) && OwnKept(s0, s, spine, cs)
    requires |spine| == |cs| + 1 && Rotatable(s, spine[|cs|], symbol) && !lang.isVisible(symbol) && !lang.isNamed(symbol)
    ensures var t := spine[|cs|]; var c := s[t].children[0].addr; var g := s[c].children[0].addr;
            && t != c && c != g && t != g && |rank| == |s| && rank[c] > 0
            && var u, rank' := Rotate(s, t, c, g), Reranked(rank, c, g);
            && Linked(u, rank') && Spinning(lang, zone, s0, rank0, u, rank', owned + {c, g}, keep, root, front, done, spine + [g], cs + [c], free)
            && AllClean(lang, zone, u, rank', Moved(spine + [g], cs + [c], |cs| + 1)) && OwnKept(s0, u, spine + [g], cs + [c])
            && forall a: Addr :: IsLive(s, a) ==> IsLive(u, a) && u[a].data == s[a].data
  {
    hide Linked, Counted, NodesOk, Explored, Spinning, Ready, SpineOk, Moved, AllClean, Pivot, SameRepetition, Fixed, Rotate,
         FreeListOk, Own, OwnTotal, SpineOwned;
    var t := spine[|cs|];
    var c := s[t].children[0].addr;
    var g := s[c].children[0].addr;
    SpinFacts(lang, zone, s0, rank0, s, rank, owned, keep, root, front, done, spine, cs, free);
    FindPivot(lang, zone, s, rank, owned, keep, root, front, done, t, symbol);
    SpinDown(lang, zone, s0, rank0, s, rank, owned, keep, root, front, done, spine, cs, free, c, g);
    OneMoreRotation(s0, s, rank, keep + multiset{root}, spine, cs, c, g);
  }

  /** The three writes of a rotation. */
  method RotateLinks(pool: SubtreePool, tree: Addr, child: Addr, grandchild: Addr)
    requires IsLive(pool.store, tree) && IsLive(pool.store, child) && IsLive(pool.store, grandchild)
    requires tree != child && child != grandchild && tree != grandchild
    requires |pool.store[tree].children| > 0 && |pool.store[child].children| > 0 && |pool.store[grandchild].children| > 0
    modifies pool`store
    ensures pool.store == Rotate(old(pool.store), tree, child, grandchild)
  {
    var last := |pool.store[grandchild].children| - 1;
    var moved := pool.store[grandchild].children[last];
    pool.store := SetKid(pool.store, tree, 0, Ptr(grandchild));
    pool.store := SetKid(pool.store, child, 0, moved);
    pool.store := SetKid(pool.store, grandchild, last, Ptr(child));
  }

  /** The next rotation, if one is possible. */
  lemma TurnStep(s: Store, t: Addr, count: nat, symbol: Symbol)
    requires count > 0
    ensures !Rotatable(s, t, symbol) ==> Turned(s, t, count, symbol) == s
    ensures Rotatable(s, t, symbol) ==>
              var c := Child(s, t);
              var g := Child(s, c);
              t != c && c != g && t != g ==> Turned(s, t, count, symbol) == Turned(Rotate(s, t, c, g), g, count - 1, symbol)
  {
  }

  /** Rotate up to `count` times, each time one link further down the left edge. */
  method RotateDown(pool: SubtreePool, lang: Language, ghost zone: set<Addr>, self: Addr, count: nat, ghost owned: set<Addr>,
                    ghost keep: multiset<Ref>, ghost root: Ref, ghost front: set<Addr>, ghost done: set<Addr>)
    returns (ghost spine: seq<Addr>, ghost cs: seq<Addr>, ghost owned': set<Addr>)
    requires Ready(lang, zone, pool.store, pool.rank, owned, keep, root, front, done)
    requires FreeListOk(pool.store, pool.freeTrees) && AllClean(lang, zone, pool.store, pool.rank, {})
    requires self in owned && self !in done && IsLive(pool.store, self)
    requires var symbol := pool.store[self].data.symbol; !lang.isVisible(symbol) && !lang.isNamed(symbol)
    modifies pool
    ensures Spinning(lang, zone, old(pool.store), old(pool.rank), pool.store, pool.rank, owned', keep, root, front, done,
                     spine, cs, pool.freeTrees)
    ensures |spine| == |cs| + 1 && spine[0] == self && owned <= owned'
    ensures AllClean(lang, zone, pool.store, pool.rank, Moved(spine, cs, |cs|))
    ensures pool.treeStack == old(pool.treeStack) + spine[..|cs|]
    ensures |cs| <= count
    ensures |cs| < count ==> !Rotatable(pool.store, spine[|cs|], old(pool.store)[self].data.symbol)
    ensures pool.store == Turned(old(pool.store), self, count, old(pool.store)[self].data.symbol)
    ensures OwnKept(old(pool.store), pool.store, spine, cs)
    ensures IsLive(pool.store, self) && pool.store[self].data == old(pool.store)[self].data
  {
    hide Linked, Counted, NoneDead, NodesOk, Owned, Explored, SpineOk, Moved, AllClean, MeaningKept,
         SameNodes, AgreeOutside, FreeListOk, Ready, Spinning, OwnKept, Rotate, Reranked, Turned;
    ghost var s0, rank0 := pool.store, pool.rank;
    OwnStarts(s0, self);
    SpinStarts(lang, zone, s0, rank0, owned, keep, root, front, done, self, pool.freeTrees);
    ReadyLinked(lang, zone, s0, rank0, owned, keep, root, front, done);
    var symbol := pool.store[self].data.symbol;
    var tree := self;
    spine, cs, owned' := [self], [], owned;
    for i := 0 to count
      invariant Spinning(lang, zone, s0, rank0, pool.store, pool.rank, owned', keep, root, front, done, spine, cs, pool.freeTrees)
      invariant |spine| == |cs| + 1 && spine[0] == self && spine[|cs|] == tree && owned <= owned'
      invariant |cs| == i && Turned(s0, self, count, symbol) == Turned(pool.store, tree, count - i, symbol)
      invariant Linked(pool.store, pool.rank)
      invariant AllClean(lang, zone, pool.store, pool.rank, Moved(spine, cs, |cs|))
      invariant pool.treeStack == old(pool.treeStack) + spine[..|cs|]
      invariant IsLive(pool.store, tree) && pool.store[tree].data.symbol == symbol
      invariant OwnKept(s0, pool.store, spine, cs)
      invariant IsLive(pool.store, self) && pool.store[self].data == s0[self].data
    {
      TurnStep(pool.store, tree, count - i, symbol);
      if pool.store[tree].refCount > 1 || |pool.store[tree].children| < 2 { break; }
      var childRef := pool.store[tree].children[0];
      if !IsLink(pool.store, childRef, symbol) { break; }
      var child := childRef.addr;
      var grandchildRef := pool.store[child].children[0];
      if !IsLink(pool.store, grandchildRef, symbol) { break; }
      var grandchild := grandchildRef.addr;

      ghost var s := pool.store;
      SpinOnce(lang, zone, s0, rank0, s, pool.rank, owned', keep, root, front, done, spine, cs, pool.freeTrees, symbol);

      RotateLinks(pool, tree, child, grandchild);
      pool.rank := Reranked(pool.rank, child, grandchild);
      pool.treeStack := pool.treeStack + [tree];
      tree := grandchild;
      assert (spine + [grandchild])[..|cs| + 1] == spine[..|cs|] + [spine[|cs|]];
      spine, cs, owned' := spine + [grandchild], cs + [child], owned' + {child, grandchild};
    }
    if |cs| == count {
      TurnDone(pool.store, tree, 0, symbol);
    }
  }

  /** The three cells at step `k` of the spine: the root of the rotation, and the two that moved. */
  lemma SpineAt(lang: Language, zone: set<Addr>, s0: Store, rank0: seq<nat>, s: Store, rank: seq<nat>, owned: set<Addr>,
                keep: multiset<Ref>, root: Ref, front: set<Addr>, done: set<Addr>,
                spine: seq<Addr>, cs: seq<Addr>, free: seq<Addr>, k: nat)
    requires Spinning(lang, zone, s0, rank0, s, rank, owned, keep, root, front, done, spine, cs, free) && k < |cs|
    ensures Linked(s, rank) && FreeListOk(s, free) && |spine| == |cs| + 1
    ensures SpinePair(s, spine[k], spine[k + 1], cs[k])
    ensures {spine[k], spine[k + 1], cs[k]} <= owned
    ensures NoKidIn(s, cs[k], Moved(spine, cs, k + 1))
    ensures NoKidIn(s, spine[k + 1], Moved(spine, cs, k + 1) - {cs[k]})
  {
    hide Linked, Counted, Owned, Explored, NodesOk, SpinePair, FreeListOk, Moved, NoKidIn;
    SpineKids(s, rank, keep + multiset{root}, spine, cs, k);
  }

  lemma CleanWithMore(lang: Language, zone: set<Addr>, s: Store, rank: seq<nat>, dirty: set<Addr>, more: set<Addr>)
    requires Linked(s, rank) && AllClean(lang, zone, s, rank, dirty) && dirty <= more
    ensures AllClean(lang, zone, s, rank, more)
  {
    hide Linked, CleanAt;
  }

  lemma RelabelledTransitive(s: Store, t: Store, u: Store)
    ensures Relabelled(s, s)
    ensures Relabelled(s, t) && Relabelled(t, u) ==> Relabelled(s, u)
  {
  }

  lemma RelabelledRotatable(s: Store, u: Store, t: Addr, symbol: Symbol)
    requires Relabelled(s, u)
    ensures Rotatable(s, t, symbol) <==> Rotatable(u, t, symbol)
  {
  }

  lemma RelabelledRotate(s: Store, u: Store, t: Addr, symbol: Symbol)
    requires Relabelled(s, u) && Rotatable(s, t, symbol)
    requires t != Child(s, t) && Child(s, t) != Child(s, Child(s, t)) && t != Child(s, Child(s, t))
    ensures Rotatable(u, t, symbol) && Child(u, t) == Child(s, t) && Child(u, Child(s, t)) == Child(s, Child(s, t))
    ensures var c := Child(s, t); var g := Child(s, c); Relabelled(Rotate(s, t, c, g), Rotate(u, t, c, g))
  {
  }

  /** What is rotated does not depend on what nodes cache. */
  lemma {:induction false} RelabelledTurned(s: Store, u: Store, t: Addr, count: nat, symbol: Symbol)
    requires Relabelled(s, u)
    ensures Relabelled(Turned(s, t, count, symbol), Turned(u, t, count, symbol))
    decreases count
  {
    RelabelledRotatable(s, u, t, symbol);
    if count > 0 && Rotatable(s, t, symbol) {
      var c := Child(s, t);
      var g := Child(s, c);
      if t != c && c != g && t != g {
        RelabelledRotate(s, u, t, symbol);
        RelabelledTurned(Rotate(s, t, c, g), Rotate(u, t, c, g), g, count - 1, symbol);
      }
    }
  }

  lemma RelabelledKids(s: Store, u: Store, a: Addr, cells: set<Addr>)
    requires Relabelled(s, u) && IsLive(s, a)
    ensures IsLive(u, a) && u[a].children == s[a].children && (Fixed(u[a]) <==> Fixed(s[a]))
    ensures NoKidIn(s, a, cells) ==> NoKidIn(u, a, cells)
  {
  }

  /** Summarise one cell of the spine again. */
  method Resummarize(pool: SubtreePool, lang: Language, ghost zone: set<Addr>, a: Addr, ghost s0: Store, ghost rank0: seq<nat>,
                     ghost owned: set<Addr>, ghost keep: multiset<Ref>, ghost root: Ref, ghost front: set<Addr>,
                     ghost done: set<Addr>, ghost spine: seq<Addr>, ghost cs: seq<Addr>, ghost dirty: set<Addr>)
    requires pool.Consistent() && IsLive(pool.store, a) && a in owned && !Fixed(pool.store[a])
    requires Spinning(lang, zone, s0, rank0, pool.store, pool.rank, owned, keep, root, front, done, spine, cs, pool.freeTrees)
    requires AllClean(lang, zone, pool.store, pool.rank, dirty)
    modifies pool`store
    ensures pool.Consistent()
    ensures Spinning(lang, zone, s0, rank0, pool.store, pool.rank, owned, keep, root, front, done, spine, cs, pool.freeTrees)
    ensures Relabelled(old(pool.store), pool.store) && AllClean(lang, zone, pool.store, pool.rank, dirty + {a})
    ensures NoKidIn(old(pool.store), a, dirty) ==> AllClean(lang, zone, pool.store, pool.rank, dirty - {a})
    ensures Resummed(old(pool.store), pool.store, a) && pool.rank == old(pool.rank)
  {
    hide Linked, FreeListOk, Spinning, Relabelled, AllClean, NoKidIn, CellLinked, Summarize, Resummed;
    ghost var s := pool.store;
    LinkedAt(s, pool.rank, a);
    SummaryForgets(lang, s, pool.rank, a);
    SpinLabel(lang, zone, s0, rank0, s, pool.rank, owned, keep, root, front, done, spine, cs, pool.freeTrees, a, dirty);
    pool.SummarizeChildren(lang, a);
  }

  /** Climb back from the last rotation to the first, summarising the three cells of each. */
  method SummarizeUp(pool: SubtreePool, lang: Language, ghost zone: set<Addr>, ghost s0: Store, ghost rank0: seq<nat>,
                     initialStackSize: nat,
                     ghost owned: set<Addr>, ghost keep: multiset<Ref>, ghost root: Ref, ghost front: set<Addr>,
                     ghost done: set<Addr>, ghost spine: seq<Addr>, ghost cs: seq<Addr>)
    requires |spine| == |cs| + 1
    requires Spinning(lang, zone, s0, rank0, pool.store, pool.rank, owned, keep, root, front, done, spine, cs, pool.freeTrees)
    requires pool.Consistent() && AllClean(lang, zone, pool.store, pool.rank, Moved(spine, cs, |cs|))
    requires |pool.treeStack| == initialStackSize + |cs| && pool.treeStack[initialStackSize..] == spine[..|cs|]
    modifies pool
    ensures pool.Consistent() && AllClean(lang, zone, pool.store, pool.rank, {}) && pool.rank == old(pool.rank)
    ensures Spinning(lang, zone, s0, rank0, pool.store, pool.rank, owned, keep, root, front, done, spine, cs, pool.freeTrees)
    ensures pool.treeStack == old(pool.treeStack)[..initialStackSize] && Relabelled(old(pool.store), pool.store)
    ensures SameOffSpine(old(pool.store), pool.store, spine, cs) && (cs != [] ==> Forgotten(pool.store, spine, cs, 0))
    ensures cs == [] ==> pool.store == old(pool.store)
  {
    hide Linked, FreeListOk, Spinning, Relabelled, AllClean, NoKidIn, Moved, Fixed, Resummed, SameOffSpine, Forgotten, SpineOk,
         Counted;
    ghost var k := |cs|;
    NothingChanged(pool.store, spine, cs);
    RelabelledTransitive(pool.store, pool.store, pool.store);
    while |pool.treeStack| > initialStackSize
      invariant 0 <= k <= |cs| && |pool.treeStack| == initialStackSize + k
      invariant pool.treeStack == old(pool.treeStack)[..initialStackSize + k]
      invariant pool.Consistent() && pool.rank == old(pool.rank) && Relabelled(old(pool.store), pool.store)
      invariant Spinning(lang, zone, s0, rank0, pool.store, pool.rank, owned, keep, root, front, done, spine, cs, pool.freeTrees)
      invariant AllClean(lang, zone, pool.store, pool.rank, Moved(spine, cs, k))
      invariant SameOffSpine(old(pool.store), pool.store, spine, cs) && (k < |cs| ==> Forgotten(pool.store, spine, cs, k))
      invariant k == |cs| ==> pool.store == old(pool.store)
      decreases k
    {
      k := k - 1;
      var tree := pool.treeStack[|pool.treeStack| - 1];
      pool.treeStack := pool.treeStack[..|pool.treeStack| - 1];
      assert tree == old(pool.treeStack)[initialStackSize..][k] == spine[k];
      ghost var s1 := pool.store;
      SpineAt(lang, zone, s0, rank0, s1, pool.rank, owned, keep, root, front, done, spine, cs, pool.freeTrees, k);
      var child := pool.store[tree].children[0].addr;
      var grandchild := pool.store[child].children[|pool.store[child].children| - 1].addr;
      ghost var dirty := Moved(spine, cs, k + 1);
      Resummarize(pool, lang, zone, grandchild, s0, rank0, owned, keep, root, front, done, spine, cs, dirty);
      RelabelledKids(s1, pool.store, child, dirty - {grandchild});
      RelabelledKids(s1, pool.store, tree, {});
      ghost var s2 := pool.store;
      Resummarize(pool, lang, zone, child, s0, rank0, owned, keep, root, front, done, spine, cs, dirty - {grandchild});
      RelabelledKids(s2, pool.store, tree, {});
      RelabelledTransitive(old(pool.store), s1, s2);
      ghost var s3 := pool.store;
      RelabelledTransitive(old(pool.store), s2, s3);
      dirty := dirty - {grandchild} - {child};
      MovedBelow(spine, cs, k);
      CleanWithMore(lang, zone, pool.store, pool.rank, dirty, Moved(spine, cs, k));
      TopIsClean(pool.store, tree, spine, cs, k);
      Resummarize(pool, lang, zone, tree, s0, rank0, owned, keep, root, front, done, spine, cs, Moved(spine, cs, k));
      RelabelledTransitive(old(pool.store), s3, pool.store);
      CleanWithMore(lang, zone, pool.store, pool.rank, if k == 0 then {} else Moved(spine, cs, k) + {tree}, Moved(spine, cs, k));
      SpinFacts(lang, zone, s0, rank0, s1, pool.rank, owned, keep, root, front, done, spine, cs, pool.freeTrees);
      LevelForgotten(s1, s2, s3, pool.store, pool.rank, keep + multiset{root}, spine, cs, k);
      ResummedOnSpine(old(pool.store), s1, s2, spine, cs, cs[k]);
      ResummedOnSpine(old(pool.store), s2, s3, spine, cs, spine[k + 1]);
      ResummedOnSpine(old(pool.store), s3, pool.store, spine, cs, spine[k]);
    }
    MovedBelow(spine, cs, 0);
  }

  lemma MovedBelow(spine: seq<Addr>, cs: seq<Addr>, k: nat)
    requires |spine| == |cs| + 1 && k <= |cs|
    ensures k == 0 ==> Moved(spine, cs, 0) == {}
    ensures k > 0 ==> spine[k] in Moved(spine, cs, k)
    ensures k < |cs| ==> Moved(spine, cs, k + 1) - {cs[k]} - {spine[k + 1]} <= Moved(spine, cs, k)
  {
  }

  lemma TopIsClean(s: Store, a: Addr, spine: seq<Addr>, cs: seq<Addr>, k: nat)
    requires |spine| == |cs| + 1 && k <= |cs| && IsLive(s, a)
    ensures k == 0 ==> NoKidIn(s, a, Moved(spine, cs, k)) && Moved(spine, cs, k) - {a} == {}
  {
  }

  lemma NothingChanged(s: Store, spine: seq<Addr>, cs: seq<Addr>)
    ensures SameOffSpine(s, s, spine, cs)
  {
  }

  lemma SpinFacts(lang: Language, zone: set<Addr>, s0: Store, rank0: seq<nat>, s: Store, rank: seq<nat>, owned: set<Addr>,
                  keep: multiset<Ref>, root: Ref, front: set<Addr>, done: set<Addr>,
                  spine: seq<Addr>, cs: seq<Addr>, free: seq<Addr>)
    requires Spinning(lang, zone, s0, rank0, s, rank, owned, keep, root, front, done, spine, cs, free)
    ensures Linked(s, rank) && Counted(s, keep + multiset{root}, multiset{}) && |spine| == |cs| + 1 && SpineOk(s, spine, cs)
    ensures IsLive(s, spine[|cs|]) && spine[|cs|] in owned
    ensures Ready(lang, zone, s, rank, owned, keep, root, front, done)
  {
    hide Linked, Counted, Explored, NodesOk, SpineOk, FreeListOk;
  }

  lemma SpinEnds(lang: Language, zone: set<Addr>, s0: Store, rank0: seq<nat>, s: Store, rank: seq<nat>, owned: set<Addr>,
                 keep: multiset<Ref>, root: Ref, front: set<Addr>, done: set<Addr>,
                 spine: seq<Addr>, cs: seq<Addr>, free: seq<Addr>)
    requires Spinning(lang, zone, s0, rank0, s, rank, owned, keep, root, front, done, spine, cs, free)
    requires ValidRef(s0, root)
    ensures Ready(lang, zone, s, rank, owned, keep, root, front, done) && FreeListOk(s, free) && Linked(s, rank) && Linked(s0, rank0)
    ensures ValidRef(s, root) && MeaningAt(lang, s, rank, root) == MeaningAt(lang, s0, rank0, root)
    ensures SameNodes(s0, s) && AgreeOutside(s0, s, owned) && AgreeOutside(s, s0, owned) && KidsKept(s0, s, done)
    ensures |spine| == |cs| + 1 && SpineOk(s, spine, cs)
  {
    hide Linked, Counted, Owned, Explored, NodesOk, FreeListOk, MeaningAt, SameNodes, AgreeOutside, KidsKept, Moved;
  }

  /**
   * Rotate a repetition `count` times, as far as its links are singly owned, and bring the data of
   * the cells that moved up to date. `spine` and `cs` are those cells. All that the root of the
   * repetition loses is the dynamic precedence that their own productions had added. All that has been
   * rotated caches how high its children are, and whatever did so before and is still to be visited does so still.
   */
  method Compress(pool: SubtreePool, lang: Language, ghost zone: set<Addr>, self: Addr, count: nat, ghost owned: set<Addr>,
                  ghost keep: multiset<Ref>, ghost root: Ref, ghost front: set<Addr>, ghost done: set<Addr>)
    returns (ghost owned': set<Addr>, ghost spine: seq<Addr>, ghost cs: seq<Addr>)
    requires pool.Consistent() && Ready(lang, zone, pool.store, pool.rank, owned, keep, root, front, done)
    requires AllClean(lang, zone, pool.store, pool.rank, {}) && self in owned && self in front && self !in done
    requires IsLive(pool.store, self)
    requires var symbol := pool.store[self].data.symbol; !lang.isVisible(symbol) && !lang.isNamed(symbol)
    modifies pool
    ensures pool.Consistent() && Ready(lang, zone, pool.store, pool.rank, owned', keep, root, front, done)
    ensures AllClean(lang, zone, pool.store, pool.rank, {}) && owned <= owned' && pool.treeStack == old(pool.treeStack)
    ensures old(pool.Consistent()) && ValidRef(pool.store, root) && ValidRef(old(pool.store), root)
    ensures MeaningAt(lang, pool.store, pool.rank, root) == MeaningAt(lang, old(pool.store), old(pool.rank), root)
    ensures SameNodes(old(pool.store), pool.store) && KidsKept(old(pool.store), pool.store, done)
    ensures AgreeOutside(old(pool.store), pool.store, owned') && AgreeOutside(pool.store, old(pool.store), owned')
    ensures |spine| == |cs| + 1 && |cs| <= count && spine[0] == self && SpineOk(pool.store, spine, cs)
    ensures |cs| < count ==> !Rotatable(pool.store, spine[|cs|], old(pool.store)[self].data.symbol)
    ensures IsLive(pool.store, self)
    ensures Relabelled(Turned(old(pool.store), self, count, old(pool.store)[self].data.symbol), pool.store)
    ensures var before, after := old(pool.store)[self].data.dynamicPrecedence, pool.store[self].data.dynamicPrecedence;
            var lost := if cs == [] then 0 else OwnTotal(old(pool.store), spine, cs, |cs|);
            after == before - lost && (after == before <==> lost == 0)
    ensures forall a: Addr :: cs != [] && (a in spine || a in cs) ==> DepthTrue(pool.store, a)
    ensures DepthsTrue(old(pool.store), zone, done) ==> DepthsTrue(pool.store, zone, done)
  {
    hide Linked, Counted, NoneDead, NodesOk, Owned, Explored, SpineOk, Moved, AllClean, MeaningKept,
         SameNodes, AgreeOutside, FreeListOk, Ready, Spinning, KidsKept, MeaningAt, OwnTotal, Forgotten, Own, Rotatable,
         Turned, Relabelled, DepthTrue, DepthsTrue, OnlyRotated, SameOffSpine;
    ghost var s0, rank0 := pool.store, pool.rank;
    RootIsValid(lang, zone, s0, rank0, owned, keep, root, front, done);
    var initialStackSize := |pool.treeStack|;
    spine, cs, owned' := RotateDown(pool, lang, zone, self, count, owned, keep, root, front, done);
    SpinEnds(lang, zone, s0, rank0, pool.store, pool.rank, owned', keep, root, front, done, spine, cs, pool.freeTrees);
    ghost var s1 := pool.store;
    SpinFacts(lang, zone, s0, rank0, s1, pool.rank, owned', keep, root, front, done, spine, cs, pool.freeTrees);
    SummarizeUp(pool, lang, zone, s0, rank0, initialStackSize, owned', keep, root, front, done, spine, cs);
    SpinEnds(lang, zone, s0, rank0, pool.store, pool.rank, owned', keep, root, front, done, spine, cs, pool.freeTrees);
    RelabelledRotatable(s1, pool.store, spine[|cs|], s0[self].data.symbol);
    KeptIsRotated(s0, s1, spine, cs);
    if cs != [] {
      TopLoses(s1, pool.rank, keep + multiset{root}, pool.store, spine, cs);
      SpineDepths(pool.store, spine, cs);
    }
    if DepthsTrue(s0, zone, done) {
      ReadyExplored(lang, zone, s1, pool.rank, owned', keep, root, front, done);
      CompressedDepths(s0, s1, pool.rank, keep + multiset{root}, pool.store, spine, cs, zone, front, done);
    }
  }

  lemma RootIsValid(lang: Language, zone: set<Addr>, s: Store, rank: seq<nat>, owned: set<Addr>, keep: multiset<Ref>, root: Ref,
                    front: set<Addr>, done: set<Addr>)
    requires Ready(lang, zone, s, rank, owned, keep, root, front, done)
    ensures ValidRef(s, root)
  {
    assert root in keep + multiset{root};
  }
}
