/**
 * What becomes of the dynamic precedences that productions add to those of their children when
 * nodes of a repetition are rotated and summarised again.
 */
module OwnPrecedences {
  import opened Subtrees
  import opened Summaries
  import opened SubtreePools
  import opened Ownership
  import opened Rotations
  import opened Balancing

  ghost predicate AllValid(s: Store, refs: seq<Ref>) {
    forall i :: 0 <= i < |refs| ==> ValidRef(s, refs[i])
  }

  ghost function PrecedencesOf(s: Store, refs: seq<Ref>): int {
    if AllValid(s, refs) then Precedences(RefDatas(s, refs)) else 0
  }

  /** What the cell's own production has added to the dynamic precedences of its children. */
  ghost function Own(s: Store, a: Addr): int {
    if IsLive(s, a) then s[a].data.dynamicPrecedence - PrecedencesOf(s, s[a].children) else 0
  }

  /** What the productions of the first `n` rotated nodes of a spine have added. */
  ghost function OwnTotal(s: Store, spine: seq<Addr>, cs: seq<Addr>, n: nat): int
    requires n < |spine| && n <= |cs|
  {
    if n == 0 then Own(s, spine[0]) else OwnTotal(s, spine, cs, n - 1) + Own(s, spine[n]) + Own(s, cs[n - 1])
  }

  lemma {:induction false} OwnTotalSame(s: Store, u: Store, spine: seq<Addr>, cs: seq<Addr>,
                                        spine': seq<Addr>, cs': seq<Addr>, n: nat)
    requires n < |spine| && n <= |cs| && n < |spine'| && n <= |cs'|
    requires forall j :: 0 <= j <= n ==> spine'[j] == spine[j] && Own(u, spine[j]) == Own(s, spine[j])
    requires forall j :: 0 <= j < n ==> cs'[j] == cs[j] && Own(u, cs[j]) == Own(s, cs[j])
    ensures OwnTotal(u, spine', cs', n) == OwnTotal(s, spine, cs, n)
    decreases n
  {
    hide Own;
    if n > 0 {
      OwnTotalSame(s, u, spine, cs, spine', cs', n - 1);
    }
  }

  lemma SumOf(s: Store, xs: seq<Ref>, ys: seq<Ref>)
    requires AllValid(s, xs) && AllValid(s, ys)
    ensures AllValid(s, xs + ys) && PrecedencesOf(s, xs + ys) == PrecedencesOf(s, xs) + PrecedencesOf(s, ys)
  {
    assert RefDatas(s, xs + ys) == RefDatas(s, xs) + RefDatas(s, ys);
    PrecedencesAppend(RefDatas(s, xs), RefDatas(s, ys));
  }

  lemma SameSum(s: Store, u: Store, refs: seq<Ref>)
    requires AllValid(s, refs)
    requires forall i :: 0 <= i < |refs| ==> ValidRef(u, refs[i]) && RefData(u, refs[i]) == RefData(s, refs[i])
    ensures PrecedencesOf(u, refs) == PrecedencesOf(s, refs)
  {
    assert RefDatas(u, refs) == RefDatas(s, refs);
  }

  lemma LinkedKids(s: Store, rank: seq<nat>, a: Addr)
    requires Linked(s, rank) && IsLive(s, a)
    ensures AllValid(s, s[a].children) && s[a].data.childCount == |s[a].children| && |rank| == |s|
    ensures forall i :: 0 <= i < |s[a].children| && s[a].children[i].Ptr? ==>
              s[a].children[i].addr < |rank| && rank[s[a].children[i].addr] < rank[a]
  {
    LinkedAt(s, rank, a);
  }

  // ----- a rotation ----------------------------------------------------------------------------

  /** A rotation moves what productions have added between its three nodes, and changes no other node. */
  lemma RotationMovesOwn(s: Store, rank: seq<nat>, handles: multiset<Ref>, t: Addr, c: Addr, g: Addr)
    requires Pivot(s, rank, handles, t, c, g)
    ensures t != c && c != g && t != g
    ensures var u := Rotate(s, t, c, g);
            && Own(u, t) + Own(u, c) + Own(u, g) == Own(s, t) + Own(s, c) + Own(s, g)
            && forall a: Addr :: IsLive(s, a) ==>
                 IsLive(u, a) && u[a].data == s[a].data && (a != t && a != c && a != g ==> Own(u, a) == Own(s, a))
  {
    hide Pivot, Rotate, Linked, PrecedencesOf;
    RotatedCells(s, rank, handles, t, c, g);
    PivotLive(s, rank, handles, t, c, g);
    PivotSlots(s, rank, handles, t, c, g);
    var u := Rotate(s, t, c, g);
    forall a: Addr | IsLive(s, a)
      ensures IsLive(u, a) && u[a].data == s[a].data && (a != t && a != c && a != g ==> Own(u, a) == Own(s, a))
    {
      LinkedKids(s, rank, a);
      if a != t && a != c && a != g {
        SameSum(s, u, s[a].children);
      }
    }
    LinkedKids(s, rank, t);
    LinkedKids(s, rank, c);
    LinkedKids(s, rank, g);
    var last := |s[g].children| - 1;
    var ps, z, qs, rs := s[g].children[..last], s[g].children[last], s[c].children[1..], s[t].children[1..];
    assert s[t].children == [Ptr(c)] + rs && s[c].children == [Ptr(g)] + qs && s[g].children == ps + [z];
    ThreeSums(s, u, ps, z, qs, rs, Ptr(c), Ptr(g));
  }

  lemma ThreeSums(s: Store, u: Store, ps: seq<Ref>, z: Ref, qs: seq<Ref>, rs: seq<Ref>, c: Ref, g: Ref)
    requires AllValid(s, [c] + rs) && AllValid(s, [g] + qs) && AllValid(s, ps + [z])
    requires forall r :: ValidRef(s, r) ==> ValidRef(u, r) && RefData(u, r) == RefData(s, r)
    ensures PrecedencesOf(u, [g] + rs) + PrecedencesOf(u, [z] + qs) + PrecedencesOf(u, ps + [c])
         == PrecedencesOf(s, [c] + rs) + PrecedencesOf(s, [g] + qs) + PrecedencesOf(s, ps + [z])
  {
    hide PrecedencesOf;
    PartsValid(s, [c], rs);
    PartsValid(s, [g], qs);
    PartsValid(s, ps, [z]);
    SumOf(s, [c], rs);
    SumOf(s, [g], qs);
    SumOf(s, ps, [z]);
    SumOf(s, [g], rs);
    SumOf(s, [z], qs);
    SumOf(s, ps, [c]);
    SameSum(s, u, [g] + rs);
    SameSum(s, u, [z] + qs);
    SameSum(s, u, ps + [c]);
  }

  lemma PartsValid(s: Store, xs: seq<Ref>, ys: seq<Ref>)
    requires AllValid(s, xs + ys)
    ensures AllValid(s, xs) && AllValid(s, ys)
  {
    forall i | 0 <= i < |xs| ensures ValidRef(s, xs[i]) {
      assert (xs + ys)[i] == xs[i];
    }
    forall i | 0 <= i < |ys| ensures ValidRef(s, ys[i]) {
      assert (xs + ys)[|xs| + i] == ys[i];
    }
  }

  // ----- where the cells of a spine are --------------------------------------------------------

  /** The cells of a spine are all different, and each has its parent on the spine only. */
  lemma SpineSlots(s: Store, rank: seq<nat>, handles: multiset<Ref>, spine: seq<Addr>, cs: seq<Addr>, m: nat)
    requires Linked(s, rank) && Counted(s, handles, multiset{}) && SpineOk(s, spine, cs) && m < |cs|
    ensures IsLive(s, spine[m]) && IsLive(s, spine[m + 1]) && |s[spine[m]].children| >= 2 && |s[spine[m + 1]].children| >= 2
    ensures forall y: Addr, i: nat :: IsLive(s, y) && i < |s[y].children| && s[y].children[i] == Ptr(spine[m + 1]) ==>
              y == spine[m] && i == 0
    ensures forall y: Addr, i: nat :: IsLive(s, y) && i < |s[y].children| && s[y].children[i] == Ptr(cs[m]) ==>
              y == spine[m + 1] && i == |s[spine[m + 1]].children| - 1
    ensures s[spine[m]].children[0] == Ptr(spine[m + 1])
    ensures s[spine[m + 1]].children[|s[spine[m + 1]].children| - 1] == Ptr(cs[m])
  {
    hide Linked, Counted;
    assert SpinePair(s, spine[m], spine[m + 1], cs[m]);
    SoleSlot(s, handles, spine[m], 0);
    SoleSlot(s, handles, spine[m + 1], |s[spine[m + 1]].children| - 1);
  }

  lemma SpineDistinct(s: Store, rank: seq<nat>, handles: multiset<Ref>, spine: seq<Addr>, cs: seq<Addr>, i: nat, j: nat)
    requires Linked(s, rank) && Counted(s, handles, multiset{}) && |spine| == |cs| + 1
    requires SpineOk(s, spine, cs) && IsLive(s, spine[|cs|]) && i < |spine| && j < |cs|
    ensures spine[i] != cs[j]
    ensures forall k :: 0 <= k < |spine| && k != i ==> spine[k] != spine[i]
    ensures forall k :: 0 <= k < |cs| && k != j ==> cs[k] != cs[j]
  {
    hide Linked, Counted, SpineOk;
    SpineSlots(s, rank, handles, spine, cs, j);
    forall k | 0 <= k < |spine| && k != i ensures spine[k] != spine[i] {
      SpineRanks(s, rank, spine, cs, if k < i then k else i, if k < i then i else k);
    }
    if i == 0 {
      SpineRanks(s, rank, spine, cs, 0, j + 1);
    } else {
      SpineSlots(s, rank, handles, spine, cs, i - 1);
    }
    forall k | 0 <= k < |cs| && k != j ensures cs[k] != cs[j] {
      SpineSlots(s, rank, handles, spine, cs, k);
      SpineRanks(s, rank, spine, cs, if k < j then k + 1 else j + 1, if k < j then j + 1 else k + 1);
    }
  }

  /** The next two cells to be rotated are not yet among those that were, and the last of the spine is none of the others. */
  lemma NextCells(s: Store, rank: seq<nat>, handles: multiset<Ref>, spine: seq<Addr>, cs: seq<Addr>, c: Addr, g: Addr, j: nat)
    requires |spine| == |cs| + 1 && SpineOk(s, spine, cs) && Pivot(s, rank, handles, spine[|cs|], c, g) && j < |spine|
    ensures spine[j] != c && spine[j] != g && (j < |cs| ==> spine[j] != spine[|cs|])
    ensures j < |cs| ==> cs[j] != c && cs[j] != g && cs[j] != spine[|cs|]
  {
    hide Linked, Counted, SpineOk;
    var n := |cs|;
    PivotLive(s, rank, handles, spine[n], c, g);
    PivotSlots(s, rank, handles, spine[n], c, g);
    PivotOrder(s, rank, handles, spine[n], c, g);
    SpineRanks(s, rank, spine, cs, j, n);
    if j < n {
      SpineSlots(s, rank, handles, spine, cs, j);
      SpineDistinct(s, rank, handles, spine, cs, n, j);
      SpineRanks(s, rank, spine, cs, j + 1, n);
    }
  }

  /** Rotating along the spine has changed the children of its cells and nothing else. */
  ghost predicate OnlyRotated(s0: Store, s: Store, spine: seq<Addr>, cs: seq<Addr>) {
    && |s| == |s0| && (cs == [] ==> s == s0)
    && (forall a: Addr :: a < |s| && a !in spine && a !in cs ==> s[a] == s0[a])
    && forall a: Addr :: IsLive(s0, a) ==> IsLive(s, a) && s[a].data == s0[a].data
  }

  /** Rotating along the spine has moved what productions had added, from one of its cells to another. */
  ghost predicate OwnKept(s0: Store, s: Store, spine: seq<Addr>, cs: seq<Addr>)
    requires |spine| == |cs| + 1
  {
    && OnlyRotated(s0, s, spine, cs)
    && OwnTotal(s, spine, cs, |cs|) == OwnTotal(s0, spine, cs, |cs|)
    && forall a: Addr :: IsLive(s, a) && a !in spine && a !in cs ==> Own(s, a) == Own(s0, a)
  }

  lemma OwnStarts(s: Store, a: Addr)
    ensures OwnKept(s, s, [a], [])
  {
  }

  /** One more rotation at the end of the spine changes nothing about what the rotated nodes' productions have added. */
  lemma OneMoreRotation(s0: Store, s: Store, rank: seq<nat>, handles: multiset<Ref>, spine: seq<Addr>, cs: seq<Addr>, c: Addr, g: Addr)
    requires |spine| == |cs| + 1 && SpineOk(s, spine, cs) && Pivot(s, rank, handles, spine[|cs|], c, g)
    requires OwnKept(s0, s, spine, cs)
    ensures spine[|cs|] != c && c != g && spine[|cs|] != g
    ensures var u := Rotate(s, spine[|cs|], c, g);
            && OwnKept(s0, u, spine + [g], cs + [c])
            && forall a: Addr :: IsLive(s, a) ==> IsLive(u, a) && u[a].data == s[a].data
  {
    hide Own, Pivot, Rotate, SpineOk;
    var n, t := |cs|, spine[|cs|];
    RotationMovesOwn(s, rank, handles, t, c, g);
    RotatedCells(s, rank, handles, t, c, g);
    PivotLive(s, rank, handles, t, c, g);
    var u := Rotate(s, t, c, g);
    forall j | 0 <= j <= n
      ensures spine[j] != c && spine[j] != g && (j < n ==> spine[j] != t && cs[j] != c && cs[j] != g && cs[j] != t)
    {
      NextCells(s, rank, handles, spine, cs, c, g, j);
    }
    assert c !in spine && g !in spine && c !in cs && g !in cs;
    RotatesOnly(s0, s, u, spine, cs, c, g);
    forall j | 0 <= j < n ensures Own(u, spine[j]) == Own(s, spine[j]) && Own(u, cs[j]) == Own(s, cs[j]) {
      SpineLive(s, spine, cs, j);
    }
    TotalMoves(s, u, spine, cs, t);
    OwnTotalSame(s0, s0, spine, cs, spine + [g], cs + [c], n);
    OwnTotalSame(u, u, spine, cs, spine + [g], cs + [c], n);
  }

  lemma RotatesOnly(s0: Store, s: Store, u: Store, spine: seq<Addr>, cs: seq<Addr>, c: Addr, g: Addr)
    requires OnlyRotated(s0, s, spine, cs) && |spine| == |cs| + 1 && |u| == |s|
    requires forall a: Addr :: a < |s| && a != spine[|cs|] && a != c && a != g ==> u[a] == s[a]
    requires forall a: Addr :: IsLive(s, a) ==> IsLive(u, a) && u[a].data == s[a].data
    ensures OnlyRotated(s0, u, spine + [g], cs + [c])
  {
    assert (spine + [g])[|cs|] == spine[|cs|] && (spine + [g])[|spine|] == g && (cs + [c])[|cs|] == c;
    forall a: Addr | a < |u| && a !in spine + [g] && a !in cs + [c] ensures u[a] == s0[a] {
      assert a !in spine && a !in cs && s[a] == s0[a];
    }
  }

  lemma SpineLive(s: Store, spine: seq<Addr>, cs: seq<Addr>, j: nat)
    requires SpineOk(s, spine, cs) && j < |cs|
    ensures IsLive(s, spine[j]) && IsLive(s, cs[j])
  {
    assert SpinePair(s, spine[j], spine[j + 1], cs[j]);
  }

  lemma TotalMoves(s: Store, u: Store, spine: seq<Addr>, cs: seq<Addr>, t: Addr)
    requires |spine| == |cs| + 1 && spine[|cs|] == t
    requires forall j :: 0 <= j < |cs| ==> Own(u, spine[j]) == Own(s, spine[j]) && Own(u, cs[j]) == Own(s, cs[j])
    ensures OwnTotal(u, spine, cs, |cs|) - Own(u, t) == OwnTotal(s, spine, cs, |cs|) - Own(s, t)
  {
    hide Own;
    var n := |cs|;
    if n > 0 {
      OwnTotalSame(s, u, spine, cs, spine, cs, n - 1);
    }
  }

  // ----- summarising again ---------------------------------------------------------------------

  /** Nothing is left of what the cell's production had added, and its depth is true. */
  ghost predicate UpToDate(s: Store, a: Addr) { Own(s, a) == 0 && DepthTrue(s, a) }

  /** One cell has been summarised again. */
  ghost predicate Resummed(s: Store, u: Store, a: Addr) {
    && IsLive(s, a) && |u| == |s| && IsLive(u, a) && u[a].children == s[a].children && UpToDate(u, a)
    && u[a].data.childCount == s[a].data.childCount
    && forall b: Addr :: b < |s| && b != a ==> u[b] == s[b]
  }

  lemma SummaryForgets(lang: Language, s: Store, rank: seq<nat>, a: Addr)
    requires Linked(s, rank) && IsLive(s, a) && s[a].children != []
    ensures AllValid(s, s[a].children)
    ensures Resummed(s, WithData(s, a, Summarize(lang, s[a].data, RefDatas(s, s[a].children))), a)
  {
    LinkedKids(s, rank, a);
    LinkedAt(s, rank, a);
    SummaryDepth(lang, s, rank, a);
    hide DepthTrue;
    var d, ds := s[a].data, RefDatas(s, s[a].children);
    var u := WithData(s, a, Summarize(lang, d, ds));
    SumPrecedence(lang, ChargesExtent(d.symbol), d.productionId, ds);
    hide Sum;
    forall i | 0 <= i < |s[a].children| ensures ValidRef(u, s[a].children[i]) && RefData(u, s[a].children[i]) == RefData(s, s[a].children[i]) {
    }
    SameSum(s, u, s[a].children);
  }

  /** How deep a cell is said to be depends on what its children cache. */
  lemma SameDepth(s: Store, u: Store, a: Addr)
    requires IsLive(s, a) && IsLive(u, a) && u[a] == s[a]
    requires forall i :: 0 <= i < |s[a].children| ==>
               var r := s[a].children[i];
               ValidRef(u, r) == ValidRef(s, r) && (ValidRef(s, r) ==> RefData(u, r) == RefData(s, r))
    ensures DepthTrue(u, a) == DepthTrue(s, a)
  {
  }

  lemma OthersKeep(s: Store, rank: seq<nat>, u: Store, a: Addr, x: Addr)
    requires Linked(s, rank) && Resummed(s, u, a) && IsLive(s, x) && x != a && Ptr(a) !in s[x].children
    ensures UpToDate(s, x) ==> UpToDate(u, x)
  {
    LinkedKids(s, rank, x);
    hide Own, Linked, DepthTrue;
    forall i | 0 <= i < |s[x].children|
      ensures ValidRef(u, s[x].children[i]) && RefData(u, s[x].children[i]) == RefData(s, s[x].children[i])
    {
      assert s[x].children[i] in s[x].children;
    }
    SameSum(s, u, s[x].children);
    SameOwn(s, u, x);
    SameDepth(s, u, x);
  }

  lemma SameOwn(s: Store, u: Store, x: Addr)
    requires IsLive(s, x) && IsLive(u, x) && u[x] == s[x] && PrecedencesOf(u, s[x].children) == PrecedencesOf(s, s[x].children)
    ensures Own(u, x) == Own(s, x)
  {
  }

  /** From level `k` of the spine down, all cells are up to date. */
  ghost predicate Forgotten(s: Store, spine: seq<Addr>, cs: seq<Addr>, k: nat) {
    && (forall j :: k <= j < |spine| ==> UpToDate(s, spine[j]))
    && forall j :: k <= j < |cs| ==> UpToDate(s, cs[j])
  }

  /** Only cells of the spine have changed, and those not in their children. */
  ghost predicate SameOffSpine(s: Store, u: Store, spine: seq<Addr>, cs: seq<Addr>) {
    && |u| == |s|
    && (forall a: Addr :: a < |s| && a !in spine && a !in cs ==> u[a] == s[a])
    && forall a: Addr :: IsLive(s, a) ==>
         IsLive(u, a) && u[a].children == s[a].children && u[a].data.childCount == s[a].data.childCount
  }

  lemma ResummedOnSpine(s0: Store, s: Store, u: Store, spine: seq<Addr>, cs: seq<Addr>, a: Addr)
    requires SameOffSpine(s0, s, spine, cs) && Resummed(s, u, a) && (a in spine || a in cs)
    ensures SameOffSpine(s0, u, spine, cs)
  {
    hide UpToDate;
  }

  /** A cell of the spine is no child of another cell but the one above it. */
  lemma NotBelow(s: Store, rank: seq<nat>, handles: multiset<Ref>, spine: seq<Addr>, cs: seq<Addr>, k: nat, x: Addr)
    requires Linked(s, rank) && Counted(s, handles, multiset{}) && |spine| == |cs| + 1 && SpineOk(s, spine, cs) && k < |spine|
    requires IsLive(s, spine[|cs|]) && IsLive(s, x) && x in spine[k..] + cs[k..]
    ensures Ptr(spine[k]) !in s[x].children
  {
    hide Linked, Counted, SpineOk;
    var n := |cs|;
    SpineRanks(s, rank, spine, cs, k, n);
    LinkedKids(s, rank, x);
    if x in spine[k..] {
      var j :| 0 <= j < |spine[k..]| && spine[k..][j] == x;
      SpineRanks(s, rank, spine, cs, k, k + j);
    } else {
      var j :| 0 <= j < |cs[k..]| && cs[k..][j] == x;
      SpineRanks(s, rank, spine, cs, k, k + j + 1);
    }
  }

  /** The three cells of level `k` are summarised again, from the bottom up. */
  lemma LevelForgotten(s: Store, s1: Store, s2: Store, s3: Store, rank: seq<nat>, handles: multiset<Ref>,
                       spine: seq<Addr>, cs: seq<Addr>, k: nat)
    requires |spine| == |cs| + 1 && k < |cs| && IsLive(s, spine[|cs|])
    requires Linked(s, rank) && Counted(s, handles, multiset{}) && SpineOk(s, spine, cs)
    requires Linked(s1, rank) && Linked(s2, rank)
    requires Resummed(s, s1, cs[k]) && Resummed(s1, s2, spine[k + 1]) && Resummed(s2, s3, spine[k])
    requires k + 1 < |cs| ==> Forgotten(s, spine, cs, k + 1)
    ensures Forgotten(s3, spine, cs, k)
  {
    hide Linked, Counted, SpineOk, UpToDate;
    SpineSlots(s, rank, handles, spine, cs, k);
    forall j | k <= j < |spine| ensures UpToDate(s3, spine[j]) {
      SpineDistinct(s, rank, handles, spine, cs, j, k);
      SpineRanks(s, rank, spine, cs, j, |cs|);
      assert spine[k..][j - k] == spine[j];
      NotBelow(s, rank, handles, spine, cs, k, spine[j]);
      if j > k + 1 {
        OthersKeep(s, rank, s1, cs[k], spine[j]);
        OthersKeep(s1, rank, s2, spine[k + 1], spine[j]);
      }
      if j > k {
        OthersKeep(s2, rank, s3, spine[k], spine[j]);
      }
    }
    forall j | k <= j < |cs| ensures UpToDate(s3, cs[j]) {
      SpineDistinct(s, rank, handles, spine, cs, k, j);
      SpineDistinct(s, rank, handles, spine, cs, k + 1, j);
      SpineRanks(s, rank, spine, cs, j + 1, j + 1);
      assert cs[k..][j - k] == cs[j];
      NotBelow(s, rank, handles, spine, cs, k, cs[j]);
      if j > k {
        OthersKeep(s, rank, s1, cs[k], cs[j]);
      }
      OthersKeep(s1, rank, s2, spine[k + 1], cs[j]);
      OthersKeep(s2, rank, s3, spine[k], cs[j]);
    }
  }

  // ----- what is left at the top ---------------------------------------------------------------

  /** Lists that differ in their first and last element only. */
  lemma {:induction false} PrecedencesDiffer(ds: seq<Data>, es: seq<Data>)
    requires |ds| == |es| >= 2 && forall i :: 0 < i < |ds| - 1 ==> ds[i] == es[i]
    ensures var n := |ds| - 1;
            Precedences(ds) - Precedences(es)
            == ds[0].DynamicPrecedence() - es[0].DynamicPrecedence() + ds[n].DynamicPrecedence() - es[n].DynamicPrecedence()
  {
    var n := |ds| - 1;
    var middle := ds[1..n];
    assert ds == [ds[0]] + middle + [ds[n]] && es == [es[0]] + middle + [es[n]];
    PrecedencesAppend([ds[0]] + middle, [ds[n]]);
    PrecedencesAppend([es[0]] + middle, [es[n]]);
    PrecedencesAppend([ds[0]], middle);
    PrecedencesAppend([es[0]], middle);
    OnePrecedence(ds[0]);
    OnePrecedence(es[0]);
    OnePrecedence(ds[n]);
    OnePrecedence(es[n]);
  }

  /** How much less dynamic precedence a subtree has than before. */
  ghost function Lost(s: Store, u: Store, r: Ref): int {
    if ValidRef(s, r) && ValidRef(u, r) then RefData(s, r).DynamicPrecedence() - RefData(u, r).DynamicPrecedence() else 0
  }

  lemma KidsLose(s: Store, rank: seq<nat>, u: Store, a: Addr)
    requires Linked(s, rank) && IsLive(s, a) && IsLive(u, a) && u[a].children == s[a].children && |s[a].children| >= 2
    requires u[a].data.childCount == s[a].data.childCount && Own(u, a) == 0
    requires forall i :: 0 <= i < |s[a].children| ==> ValidRef(u, s[a].children[i])
    requires forall i :: 0 < i < |s[a].children| - 1 ==> RefData(u, s[a].children[i]) == RefData(s, s[a].children[i])
    ensures var kids := s[a].children;
            Lost(s, u, Ptr(a)) == Own(s, a) + Lost(s, u, kids[0]) + Lost(s, u, kids[|kids| - 1])
  {
    LinkedKids(s, rank, a);
    var kids := s[a].children;
    PrecedencesDiffer(RefDatas(s, kids), RefDatas(u, kids));
  }

  lemma OffSpineSame(s: Store, rank: seq<nat>, handles: multiset<Ref>, u: Store, spine: seq<Addr>, cs: seq<Addr>, a: Addr, i: nat)
    requires Linked(s, rank) && Counted(s, handles, multiset{}) && |spine| == |cs| + 1 && SpineOk(s, spine, cs)
    requires IsLive(s, spine[|cs|]) && SameOffSpine(s, u, spine, cs) && IsLive(s, a) && i < |s[a].children|
    requires forall j :: 0 <= j < |cs| && a == spine[j] ==> i != 0
    requires forall j :: 0 < j < |spine| && a == spine[j] ==> i != |s[a].children| - 1
    requires a in spine || a in cs
    ensures ValidRef(s, s[a].children[i]) && ValidRef(u, s[a].children[i])
    ensures RefData(u, s[a].children[i]) == RefData(s, s[a].children[i])
  {
    hide Linked, Counted, SpineOk;
    LinkedKids(s, rank, a);
    var r := s[a].children[i];
    if r.Ptr? && r.addr in spine {
      var j :| 0 <= j < |spine| && spine[j] == r.addr;
      if j == 0 {
        TopIsHighest(s, rank, spine, cs, a);
      } else {
        SpineSlots(s, rank, handles, spine, cs, j - 1);
      }
    }
    if r.Ptr? && r.addr in cs {
      var j :| 0 <= j < |cs| && cs[j] == r.addr;
      SpineSlots(s, rank, handles, spine, cs, j);
    }
  }

  lemma TopIsHighest(s: Store, rank: seq<nat>, spine: seq<Addr>, cs: seq<Addr>, a: Addr)
    requires Linked(s, rank) && |spine| == |cs| + 1 && SpineOk(s, spine, cs) && IsLive(s, spine[|cs|]) && IsLive(s, a)
    requires a in spine || a in cs
    ensures |rank| == |s| && spine[0] < |s| && rank[a] <= rank[spine[0]]
  {
    hide Linked, SpineOk;
    SpineRanks(s, rank, spine, cs, 0, |cs|);
    if a in spine {
      var j :| 0 <= j < |spine| && spine[j] == a;
      SpineRanks(s, rank, spine, cs, 0, j);
    } else {
      var j :| 0 <= j < |cs| && cs[j] == a;
      SpineRanks(s, rank, spine, cs, 0, j + 1);
    }
  }

  lemma AreUpToDate(s: Store, u: Store, spine: seq<Addr>, cs: seq<Addr>, j: nat)
    requires SameOffSpine(s, u, spine, cs) && Forgotten(u, spine, cs, 0)
    ensures forall a: Addr :: IsLive(s, a) ==>
              IsLive(u, a) && u[a].children == s[a].children && u[a].data.childCount == s[a].data.childCount
    ensures j < |spine| ==> Own(u, spine[j]) == 0
    ensures j < |cs| ==> Own(u, cs[j]) == 0
  {
    hide Own, DepthTrue;
  }

  /** What the cell at level `j` loses is what the productions of the cells from there down had added. */
  lemma {:induction false} SpineLoses(s: Store, rank: seq<nat>, handles: multiset<Ref>, u: Store,
                                      spine: seq<Addr>, cs: seq<Addr>, j: nat)
    requires Linked(s, rank) && Counted(s, handles, multiset{}) && |spine| == |cs| + 1 && SpineOk(s, spine, cs)
    requires IsLive(s, spine[|cs|]) && SameOffSpine(s, u, spine, cs) && Forgotten(u, spine, cs, 0)
    requires cs != [] && j <= |cs|
    ensures Lost(s, u, Ptr(spine[j]))
         == OwnTotal(s, spine, cs, |cs|) - if j == 0 then 0 else OwnTotal(s, spine, cs, j - 1)
    decreases |cs| - j
  {
    hide Linked, Counted, SpineOk, SameOffSpine, Forgotten, Own, Lost;
    var n, a := |cs|, spine[j];
    AreUpToDate(s, u, spine, cs, j);
    SpineRanks(s, rank, spine, cs, j, n);
    LevelShape(s, rank, handles, spine, cs, j);
    var kids := s[a].children;
    forall i | 0 <= i < |kids|
      ensures ValidRef(s, kids[i]) && ValidRef(u, kids[i])
      ensures 0 < i < |kids| - 1 ==> RefData(u, kids[i]) == RefData(s, kids[i])
    {
      KidStays(s, rank, handles, u, spine, cs, j, i);
    }
    KidsLose(s, rank, u, a);
    KidStays(s, rank, handles, u, spine, cs, j, 0);
    KidStays(s, rank, handles, u, spine, cs, j, |kids| - 1);
    if j < n {
      SpineLoses(s, rank, handles, u, spine, cs, j + 1);
    }
    if j > 0 {
      CsLoses(s, rank, handles, u, spine, cs, j - 1);
    }
  }

  lemma LevelShape(s: Store, rank: seq<nat>, handles: multiset<Ref>, spine: seq<Addr>, cs: seq<Addr>, j: nat)
    requires Linked(s, rank) && Counted(s, handles, multiset{}) && |spine| == |cs| + 1 && SpineOk(s, spine, cs)
    requires cs != [] && j <= |cs|
    ensures IsLive(s, spine[j]) && |s[spine[j]].children| >= 2
    ensures j < |cs| ==> s[spine[j]].children[0] == Ptr(spine[j + 1])
    ensures j > 0 ==> s[spine[j]].children[|s[spine[j]].children| - 1] == Ptr(cs[j - 1])
  {
    hide Linked, Counted, SpineOk;
    SpineSlots(s, rank, handles, spine, cs, if j == 0 then 0 else j - 1);
    if j < |cs| {
      SpineSlots(s, rank, handles, spine, cs, j);
    }
  }

  lemma KidStays(s: Store, rank: seq<nat>, handles: multiset<Ref>, u: Store, spine: seq<Addr>, cs: seq<Addr>, j: nat, i: nat)
    requires Linked(s, rank) && Counted(s, handles, multiset{}) && |spine| == |cs| + 1 && SpineOk(s, spine, cs)
    requires IsLive(s, spine[|cs|]) && SameOffSpine(s, u, spine, cs)
    requires cs != [] && j <= |cs| && IsLive(s, spine[j]) && i < |s[spine[j]].children|
    ensures var r := s[spine[j]].children[i];
            && ValidRef(s, r) && ValidRef(u, r)
            && ((i != 0 || j == |cs|) && (i != |s[spine[j]].children| - 1 || j == 0) ==>
                  Lost(s, u, r) == 0 && RefData(u, r) == RefData(s, r))
  {
    hide Linked, Counted, SpineOk;
    LinkedKids(s, rank, spine[j]);
    var r := s[spine[j]].children[i];
    if (i != 0 || j == |cs|) && (i != |s[spine[j]].children| - 1 || j == 0) {
      SpineDistinct(s, rank, handles, spine, cs, j, 0);
      OffSpineSame(s, rank, handles, u, spine, cs, spine[j], i);
    }
  }

  lemma CsLoses(s: Store, rank: seq<nat>, handles: multiset<Ref>, u: Store, spine: seq<Addr>, cs: seq<Addr>, j: nat)
    requires Linked(s, rank) && Counted(s, handles, multiset{}) && |spine| == |cs| + 1 && SpineOk(s, spine, cs)
    requires IsLive(s, spine[|cs|]) && SameOffSpine(s, u, spine, cs) && Forgotten(u, spine, cs, 0) && j < |cs|
    ensures Lost(s, u, Ptr(cs[j])) == Own(s, cs[j])
  {
    hide Linked, Counted, SpineOk, SameOffSpine, Forgotten, Own;
    var a := cs[j];
    AreUpToDate(s, u, spine, cs, j);
    assert IsLive(s, a) && |s[a].children| >= 2 by { CsShape(s, spine, cs, j); }
    forall i | 0 <= i < |s[a].children|
      ensures ValidRef(s, s[a].children[i]) && ValidRef(u, s[a].children[i])
      ensures RefData(u, s[a].children[i]) == RefData(s, s[a].children[i])
    {
      forall k | 0 <= k < |spine| ensures spine[k] != a {
        SpineDistinct(s, rank, handles, spine, cs, k, j);
      }
      OffSpineSame(s, rank, handles, u, spine, cs, a, i);
    }
    KidsLose(s, rank, u, a);
  }

  lemma CsShape(s: Store, spine: seq<Addr>, cs: seq<Addr>, j: nat)
    requires |spine| == |cs| + 1 && SpineOk(s, spine, cs) && j < |cs|
    ensures IsLive(s, cs[j]) && |s[cs[j]].children| >= 2
  {
    assert SpinePair(s, spine[j], spine[j + 1], cs[j]);
  }

  /** The cell at the top loses what the productions of all rotated cells had added. */
  lemma TopLoses(s: Store, rank: seq<nat>, handles: multiset<Ref>, u: Store, spine: seq<Addr>, cs: seq<Addr>)
    requires Linked(s, rank) && Counted(s, handles, multiset{}) && |spine| == |cs| + 1 && SpineOk(s, spine, cs)
    requires IsLive(s, spine[|cs|]) && SameOffSpine(s, u, spine, cs) && Forgotten(u, spine, cs, 0) && cs != []
    ensures IsLive(s, spine[0]) && IsLive(u, spine[0])
    ensures u[spine[0]].data.dynamicPrecedence == s[spine[0]].data.dynamicPrecedence - OwnTotal(s, spine, cs, |cs|)
  {
    hide Linked, Counted, SpineOk, Own, OwnTotal;
    SpineLoses(s, rank, handles, u, spine, cs, 0);
    LevelShape(s, rank, handles, spine, cs, 0);
    LinkedKids(s, rank, spine[0]);
  }
}
