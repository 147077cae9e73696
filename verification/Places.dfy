/** Places in a tree: paths of child indices, their order, and the leaves before them. */
module Places {
  import opened Subtrees
  import opened Summaries

  predicate HasPath(t: Tree, path: seq<nat>)
    decreases path
  {
    path == [] || (path[0] < |t.children| && HasPath(t.children[path[0]], path[1..]))
  }

  function NodeAt(t: Tree, path: seq<nat>): Tree
    requires HasPath(t, path)
    decreases path
  {
    if path == [] then t else NodeAt(t.children[path[0]], path[1..])
  }

  /** The leaves before the node at `path`. */
  function LeavesBefore(t: Tree, path: seq<nat>): seq<Data>
    requires HasPath(t, path)
    decreases path
  {
    if path == [] then [] else ListLeaves(t.children[..path[0]]) + LeavesBefore(t.children[path[0]], path[1..])
  }

  /** The leaves before the node at `path` and inside it. */
  function LeavesThrough(t: Tree, path: seq<nat>): seq<Data>
    requires HasPath(t, path)
  {
    LeavesBefore(t, path) + Leaves(NodeAt(t, path))
  }

  /** `q` comes after `p` in preorder: below it, or to the right of it. */
  predicate Precedes(p: seq<nat>, q: seq<nat>)
    decreases p
  {
    if p == [] then q != []
    else q != [] && (p[0] < q[0] || (p[0] == q[0] && Precedes(p[1..], q[1..])))
  }

  lemma {:induction false} PathExtends(t: Tree, path: seq<nat>, k: nat)
    requires HasPath(t, path) && k < |NodeAt(t, path).children|
    ensures HasPath(t, path + [k]) && NodeAt(t, path + [k]) == NodeAt(t, path).children[k]
    ensures LeavesBefore(t, path + [k]) == LeavesBefore(t, path) + ListLeaves(NodeAt(t, path).children[..k])
    decreases path
  {
    if path == [] {
      assert [k][1..] == [];
    } else {
      assert (path + [k])[1..] == path[1..] + [k];
      PathExtends(t.children[path[0]], path[1..], k);
    }
  }

  lemma {:induction false} PathShortens(t: Tree, path: seq<nat>)
    requires HasPath(t, path) && path != []
    ensures var n := |path| - 1; HasPath(t, path[..n]) && path[n] < |NodeAt(t, path[..n]).children|
    ensures path == path[..|path| - 1] + [path[|path| - 1]]
    decreases path
  {
    if |path| > 1 {
      PathShortens(t.children[path[0]], path[1..]);
      assert path[1..][..|path| - 2] == path[..|path| - 1][1..];
    }
  }

  lemma ListLeavesMore(ts: seq<Tree>, k: nat)
    requires k < |ts|
    ensures ListLeaves(ts[..k + 1]) == ListLeaves(ts[..k]) + Leaves(ts[k])
  {
    assert ts[..k + 1] == ts[..k] + [ts[k]];
    ListLeavesAppend(ts[..k], [ts[k]]);
    assert [ts[k]][1..] == [];
  }

  lemma LeavesInside(t: Tree)
    ensures t.children != [] ==> Leaves(t) == ListLeaves(t.children)
  {
  }

  /** Past the last child of a node is past the node; past another child is before the next one. */
  lemma PastChild(t: Tree, path: seq<nat>, k: nat)
    requires HasPath(t, path) && k < |NodeAt(t, path).children|
    ensures HasPath(t, path + [k])
    ensures k + 1 == |NodeAt(t, path).children| ==> LeavesThrough(t, path + [k]) == LeavesThrough(t, path)
    ensures k + 1 < |NodeAt(t, path).children| ==>
              HasPath(t, path + [k + 1]) && LeavesThrough(t, path + [k]) == LeavesBefore(t, path + [k + 1])
  {
    LeavesInside(NodeAt(t, path));
    hide HasPath, NodeAt, LeavesBefore, Leaves, ListLeaves;
    var kids := NodeAt(t, path).children;
    PathExtends(t, path, k);
    ListLeavesMore(kids, k);
    if k + 1 < |kids| {
      PathExtends(t, path, k + 1);
    } else {
      assert kids[..k + 1] == kids;
    }
  }

  lemma {:induction false} BelowIsAfter(path: seq<nat>, k: nat)
    ensures Precedes(path, path + [k])
  {
    if path != [] {
      assert (path + [k])[1..] == path[1..] + [k];
      BelowIsAfter(path[1..], k);
    }
  }

  lemma {:induction false} RightIsAfter(path: seq<nat>, n: nat, k: nat)
    requires n < |path| && path[n] < k
    ensures Precedes(path, path[..n] + [k])
  {
    if n > 0 {
      assert (path[..n] + [k])[1..] == path[1..][..n - 1] + [k];
      RightIsAfter(path[1..], n - 1, k);
    }
  }

  lemma {:induction false} PrecedesTransitive(p: seq<nat>, q: seq<nat>, r: seq<nat>)
    ensures (p == q || Precedes(p, q)) && (q == r || Precedes(q, r)) ==> p == r || Precedes(p, r)
    ensures (p == q || Precedes(p, q)) && Precedes(q, r) ==> Precedes(p, r)
    decreases p
  {
    if p != [] && q != [] && r != [] {
      PrecedesTransitive(p[1..], q[1..], r[1..]);
      assert p == q ==> p[1..] == q[1..];
    }
  }
}
