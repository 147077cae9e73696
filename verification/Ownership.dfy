/** Cells with a single owner, all the way up to one handle, can change without anyone else noticing. */
module Ownership {
  import opened Subtrees
  import opened SubtreePools

  predicate InSet(r: Ref, cells: set<Addr>) { r.Ptr? && r.addr in cells }

  ghost predicate NoKidIn(s: Store, a: Addr, cells: set<Addr>)
    requires IsLive(s, a)
  {
    forall i :: 0 <= i < |s[a].children| ==> !InSet(s[a].children[i], cells)
  }

  /** Cells outside the set do not refer to cells in it. */
  ghost predicate Closed(s: Store, cells: set<Addr>) {
    forall a: Addr :: IsLive(s, a) && a !in cells ==> NoKidIn(s, a, cells)
  }

  /** The cells in the set each have one owner, which is neither a cell outside nor a handle in `keep`. */
  ghost predicate Owned(s: Store, cells: set<Addr>, keep: multiset<Ref>) {
    && (forall a :: a in cells ==> IsLive(s, a) && s[a].refCount == 1 && Ptr(a) !in keep)
    && Closed(s, cells)
  }

  /** Whatever is live in `s` outside the set is in `t` as well, with the same data and children. */
  ghost predicate AgreeOutside(s: Store, t: Store, cells: set<Addr>) {
    forall a: Addr :: IsLive(s, a) && a !in cells ==>
      IsLive(t, a) && t[a].data == s[a].data && t[a].children == s[a].children
  }

  /** References into the rest of the store keep the trees they stand for. */
  lemma {:induction false} UnownedView(s: Store, rank: seq<nat>, t: Store, rank': seq<nat>, cells: set<Addr>, r: Ref)
    requires Linked(s, rank) && Linked(t, rank') && Closed(s, cells) && AgreeOutside(s, t, cells)
    requires ValidRef(s, r) && !InSet(r, cells)
    ensures ValidRef(t, r) && View(t, rank', r) == View(s, rank, r)
    decreases RankOf(rank, r)
  {
    hide Linked;
    if r.Ptr? {
      LinkedAt(s, rank, r.addr);
      assert NoKidIn(s, r.addr, cells);
      forall i | 0 <= i < |s[r.addr].children|
        ensures View(t, rank', s[r.addr].children[i]) == View(s, rank, s[r.addr].children[i])
      {
        UnownedView(s, rank, t, rank', cells, s[r.addr].children[i]);
      }
      assert Views(t, rank', r.addr) == Views(s, rank, r.addr);
    }
  }

  lemma OccursTwice<T>(xs: seq<T>, i: nat, j: nat)
    requires i < j < |xs| && xs[i] == xs[j]
    ensures multiset(xs)[xs[i]] >= 2
  {
    assert xs == xs[..j] + [xs[j]] + xs[j + 1..];
    assert xs[i] in xs[..j];
  }

  lemma TwoParents(s: Store, x: Addr, y: Addr, r: Ref)
    requires IsLive(s, x) && IsLive(s, y) && x != y && r in s[x].children && r in s[y].children
    ensures Edges(s)[r] >= 2
  {
    EdgesUpdate(s, x, Free);
    EdgesUpdate(s[x := Free], y, Free);
    assert r in multiset(s[x].children) && r in multiset(s[y].children);
  }

  lemma ChildIsEdge(s: Store, a: Addr, r: Ref)
    requires IsLive(s, a) && r in s[a].children
    ensures Edges(s)[r] >= 1
  {
    EdgesUpdate(s, a, s[a]);
    assert r in multiset(s[a].children);
  }

  /** A cell counted once that sits in a child slot sits in no other slot and is no handle. */
  lemma SoleSlot(s: Store, handles: multiset<Ref>, x: Addr, i: nat)
    requires Counted(s, handles, multiset{}) && IsLive(s, x) && i < |s[x].children|
    requires var r := s[x].children[i]; r.Ptr? && IsLive(s, r.addr) && s[r.addr].refCount == 1
    ensures s[x].children[i] !in handles
    ensures forall y: Addr, j: nat :: IsLive(s, y) && j < |s[y].children| && s[y].children[j] == s[x].children[i] ==>
              y == x && j == i
  {
    var r := s[x].children[i];
    EdgesUpdate(s, x, s[x]);
    assert r in multiset(s[x].children);
    forall y: Addr, j: nat | IsLive(s, y) && j < |s[y].children| && s[y].children[j] == r ensures y == x && j == i {
      if y != x {
        TwoParents(s, x, y, r);
      } else if j < i {
        OccursTwice(s[x].children, j, i);
      } else if i < j {
        OccursTwice(s[x].children, i, j);
      }
    }
  }

  /** A cell counted once that a handle refers to sits in no child slot. */
  lemma SoleHandle(s: Store, keep: multiset<Ref>, r: Ref)
    requires Counted(s, keep + multiset{r}, multiset{})
    requires r.Ptr? && IsLive(s, r.addr) && s[r.addr].refCount == 1
    ensures r !in keep && forall y: Addr :: IsLive(s, y) ==> r !in s[y].children
  {
    forall y: Addr | IsLive(s, y) ensures r !in s[y].children {
      if r in s[y].children {
        ChildIsEdge(s, y, r);
      }
    }
  }

  function SetKid(s: Store, a: Addr, i: nat, r: Ref): Store
    requires IsLive(s, a) && i < |s[a].children|
  {
    s[a := s[a].(children := s[a].children[i := r])]
  }

  lemma ReplaceOne<T>(xs: seq<T>, i: nat, x: T)
    requires i < |xs|
    ensures multiset(xs[i := x]) + multiset{xs[i]} == multiset(xs) + multiset{x}
  {
    assert xs == xs[..i] + [xs[i]] + xs[i + 1..];
    assert xs[i := x] == xs[..i] + [x] + xs[i + 1..];
  }

  lemma ReplaceInAll<T>(all: multiset<T>, before: multiset<T>, after: multiset<T>, x: T, y: T)
    requires before <= all && after + multiset{x} == before + multiset{y}
    ensures all - before + after + multiset{x} == all + multiset{y}
  {
    forall z ensures (all - before + after + multiset{x})[z] == (all + multiset{y})[z] {
      assert (after + multiset{x})[z] == (before + multiset{y})[z];
    }
  }

  /** Writing one child slot replaces one edge by another. */
  lemma SetKidEdges(s: Store, a: Addr, i: nat, r: Ref)
    requires IsLive(s, a) && i < |s[a].children|
    ensures Edges(SetKid(s, a, i, r)) + multiset{s[a].children[i]} == Edges(s) + multiset{r}
  {
    var kids, t := s[a].children, SetKid(s, a, i, r);
    EdgesUpdate(s, a, t[a]);
    hide Edges;
    ReplaceOne(kids, i, r);
    ReplaceInAll(Edges(s), multiset(kids), multiset(kids[i := r]), kids[i], r);
  }
}
