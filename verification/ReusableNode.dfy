/** Walking over an old tree for nodes to reuse, with the offset and the external token before each. */
module ReusableNodes {
  import opened Options
  import opened Lengths
  import opened Subtrees
  import opened Summaries
  import opened Edits
  import opened Places

  // ----- bytes and tokens ----------------------------------------------------------------------

  function BytesOf(leaves: seq<Data>): nat {
    if leaves == [] then 0 else BytesOf(leaves[..|leaves| - 1]) + leaves[|leaves| - 1].Total().bytes
  }

  lemma {:induction false} BytesAppend(xs: seq<Data>, ys: seq<Data>)
    ensures BytesOf(xs + ys) == BytesOf(xs) + BytesOf(ys)
    decreases |ys|
  {
    if ys == [] {
      assert xs + ys == xs;
    } else {
      assert (xs + ys)[..|xs + ys| - 1] == xs + ys[..|ys| - 1];
      BytesAppend(xs, ys[..|ys| - 1]);
    }
  }

  /** A laid out tree is as long as its leaves together. */
  lemma {:induction false} LeavesBytes(t: Tree)
    requires LaidOut(t)
    ensures BytesOf(Leaves(t)) == t.data.Total().bytes
    decreases t, 1
  {
    if t.children == [] {
      assert [t.data][..0] == [];
    } else {
      ListLeavesBytes(t, t.children);
    }
  }

  lemma {:induction false} ListLeavesBytes(t: Tree, ts: seq<Tree>)
    requires forall i :: 0 <= i < |ts| ==> LaidOut(ts[i]) && ts[i] < t
    ensures BytesOf(ListLeaves(ts)) == SumBytes(Datas(ts))
    decreases t, 0, |ts|
  {
    if ts != [] {
      LeavesBytes(ts[0]);
      ListLeavesBytes(t, ts[1..]);
      BytesAppend(Leaves(ts[0]), ListLeaves(ts[1..]));
      assert Datas(ts)[1..] == Datas(ts[1..]);
    }
  }

  /** The last of the leaves that is an external token. */
  function LastExternal(leaves: seq<Data>): Option<Data> {
    if leaves == [] then None
    else if leaves[|leaves| - 1].HasExternalTokens() then Some(leaves[|leaves| - 1])
    else LastExternal(leaves[..|leaves| - 1])
  }

  lemma {:induction false} LastExternalAppend(xs: seq<Data>, ys: seq<Data>)
    ensures LastExternal(xs + ys) == if LastExternal(ys).Some? then LastExternal(ys) else LastExternal(xs)
    decreases |ys|
  {
    if ys == [] {
      assert xs + ys == xs;
    } else {
      assert (xs + ys)[..|xs + ys| - 1] == xs + ys[..|ys| - 1];
      LastExternalAppend(xs, ys[..|ys| - 1]);
    }
  }

  /** Inner nodes have external tokens just when one of their children has. */
  predicate TokensOk(t: Tree) {
    && (t.children != [] ==>
          (t.data.HasExternalTokens() <==> exists i :: 0 <= i < |t.children| && t.children[i].data.HasExternalTokens()))
    && forall i :: 0 <= i < |t.children| ==> TokensOk(t.children[i])
  }

  lemma {:induction false} TokensInside(t: Tree)
    requires TokensOk(t)
    ensures t.data.HasExternalTokens() <==> LastExternal(Leaves(t)).Some?
    decreases t, 1
  {
    if t.children == [] {
      assert [t.data][..0] == [];
    } else {
      TokensInList(t, t.children);
    }
  }

  lemma {:induction false} TokensInList(t: Tree, ts: seq<Tree>)
    requires forall i :: 0 <= i < |ts| ==> TokensOk(ts[i]) && ts[i] < t
    ensures LastExternal(ListLeaves(ts)).Some? <==> exists i :: 0 <= i < |ts| && ts[i].data.HasExternalTokens()
    decreases t, 0, |ts|
  {
    if ts != [] {
      TokensInside(ts[0]);
      TokensInList(t, ts[1..]);
      LastExternalAppend(Leaves(ts[0]), ListLeaves(ts[1..]));
      if exists i :: 0 <= i < |ts| && ts[i].data.HasExternalTokens() {
        var i :| 0 <= i < |ts| && ts[i].data.HasExternalTokens();
        assert i > 0 ==> ts[1..][i - 1] == ts[i];
      }
      if exists i :: 0 <= i < |ts[1..]| && ts[1..][i].data.HasExternalTokens() {
        var i :| 0 <= i < |ts[1..]| && ts[1..][i].data.HasExternalTokens();
        assert ts[i + 1].data.HasExternalTokens();
      }
    }
  }

  /** The last external token of a node is in its last child that has any. */
  lemma TokenInLastChild(t: Tree, i: nat)
    requires TokensOk(t) && i < |t.children| && t.children[i].data.HasExternalTokens()
    requires forall k :: i < k < |t.children| ==> !t.children[k].data.HasExternalTokens()
    ensures LastExternal(Leaves(t)) == LastExternal(Leaves(t.children[i]))
  {
    var kids := t.children;
    assert kids == kids[..i + 1] + kids[i + 1..];
    ListLeavesAppend(kids[..i + 1], kids[i + 1..]);
    ListLeavesMore(kids, i);
    TokensInList(t, kids[i + 1..]);
    TokensInside(kids[i]);
    LastExternalAppend(ListLeaves(kids[..i]), Leaves(kids[i]));
    LastExternalAppend(ListLeaves(kids[..i + 1]), ListLeaves(kids[i + 1..]));
  }

  /** The rightmost external token in a subtree. */
  method LastExternalToken(tree: Tree) returns (token: Option<Data>)
    requires TokensOk(tree)
    ensures token == LastExternal(Leaves(tree))
  {
    TokensInside(tree);
    if !tree.data.HasExternalTokens() { return None; }
    var t := tree;
    while |t.children| > 0
      invariant TokensOk(t) && t.data.HasExternalTokens() && LastExternal(Leaves(t)) == LastExternal(Leaves(tree))
      decreases t
    {
      var i := |t.children| - 1;
      while !t.children[i].data.HasExternalTokens()
        invariant 0 <= i < |t.children|
        invariant forall k :: i < k < |t.children| ==> !t.children[k].data.HasExternalTokens()
        decreases i
      {
        i := i - 1;
      }
      TokenInLastChild(t, i);
      t := t.children[i];
    }
    return Some(t.data);
  }

  // ----- the walk ------------------------------------------------------------------------------

  datatype StackEntry = StackEntry(tree: Tree, childIndex: nat, byteOffset: nat)

  function PathOf(stack: seq<StackEntry>): (path: seq<nat>)
    requires stack != []
    ensures |path| == |stack| - 1 && forall i :: 0 <= i < |path| ==> path[i] == stack[i + 1].childIndex
  {
    seq(|stack| - 1, i requires 0 <= i < |stack| - 1 => stack[i + 1].childIndex)
  }

  /** Each entry is the node at its path, at the offset of the leaves before it. */
  predicate OnPath(root: Tree, stack: seq<StackEntry>) {
    forall n :: 0 < n <= |stack| ==> EntryOk(root, stack, n)
  }

  predicate EntryOk(root: Tree, stack: seq<StackEntry>, n: nat)
    requires 0 < n <= |stack|
  {
    var path := PathOf(stack[..n]);
    && HasPath(root, path) && stack[n - 1].tree == NodeAt(root, path)
    && stack[n - 1].byteOffset == BytesOf(LeavesBefore(root, path))
  }

  lemma PathOfMore(stack: seq<StackEntry>, e: StackEntry)
    requires stack != []
    ensures PathOf(stack + [e]) == PathOf(stack) + [e.childIndex]
  {
  }

  lemma PushOnPath(root: Tree, stack: seq<StackEntry>, e: StackEntry)
    requires stack != [] && OnPath(root, stack)
    requires var path := PathOf(stack) + [e.childIndex];
             HasPath(root, path) && e.tree == NodeAt(root, path) && e.byteOffset == BytesOf(LeavesBefore(root, path))
    ensures OnPath(root, stack + [e])
  {
    PathOfMore(stack, e);
    forall n | 0 < n <= |stack + [e]| ensures EntryOk(root, stack + [e], n) {
      if n <= |stack| {
        assert (stack + [e])[..n] == stack[..n];
        assert EntryOk(root, stack, n);
      } else {
        assert (stack + [e])[..n] == stack + [e];
      }
    }
  }

  lemma PopOnPath(root: Tree, stack: seq<StackEntry>, n: nat)
    requires OnPath(root, stack) && n <= |stack|
    ensures OnPath(root, stack[..n])
  {
    forall k | 0 < k <= n ensures EntryOk(root, stack[..n], k) {
      assert stack[..n][..k] == stack[..k] && EntryOk(root, stack, k);
    }
  }

  lemma TopOnPath(root: Tree, stack: seq<StackEntry>)
    requires stack != [] && OnPath(root, stack)
    ensures HasPath(root, PathOf(stack)) && stack[|stack| - 1].tree == NodeAt(root, PathOf(stack))
    ensures stack[|stack| - 1].byteOffset == BytesOf(LeavesBefore(root, PathOf(stack)))
  {
    assert stack[..|stack|] == stack && EntryOk(root, stack, |stack|);
  }

  lemma {:induction false} OkInside(t: Tree, path: seq<nat>)
    requires HasPath(t, path) && LaidOut(t) && TokensOk(t)
    ensures LaidOut(NodeAt(t, path)) && TokensOk(NodeAt(t, path))
    decreases path
  {
    if path != [] {
      OkInside(t.children[path[0]], path[1..]);
    }
  }

  class ReusableNode {
    var stack: seq<StackEntry>
    var lastExternalToken: Option<Data>
    ghost const root: Tree

    /** The walk is at a node, or over. */
    ghost predicate Valid()
      reads this
    {
      && LaidOut(root) && TokensOk(root) && OnPath(root, stack)
      && (stack != [] ==> HasPath(root, PathOf(stack)))
      && (stack != [] ==> lastExternalToken == LastExternal(LeavesBefore(root, PathOf(stack))))
      && (stack == [] && root.children != [] ==> lastExternalToken == LastExternal(Leaves(root)))
    }

    /** Start at the first child of the root; a root without children is never reused. */
    constructor (tree: Tree)
      requires LaidOut(tree) && TokensOk(tree)
      ensures Valid() && root == tree
      ensures if tree.children == [] then stack == [] else stack != [] && PathOf(stack) == [0]
    {
      stack := [StackEntry(tree, 0, 0)];
      lastExternalToken := None;
      root := tree;
      new;
      assert PathOf(stack[..1]) == [];
      assert EntryOk(root, stack, 1);
      var descended := Descend();
      if !descended {
        stack, lastExternalToken := [], None;
      }
    }

    /** Go to the first child, if there is one. */
    method Descend() returns (descended: bool)
      requires Valid() && stack != []
      modifies this`stack
      ensures Valid() && stack != []
      ensures HasPath(root, old(PathOf(stack)))
      ensures descended == (NodeAt(root, old(PathOf(stack))).children != [])
      ensures if descended then PathOf(stack) == old(PathOf(stack)) + [0] && Precedes(old(PathOf(stack)), PathOf(stack))
              else stack == old(stack)
      ensures LeavesBefore(root, PathOf(stack)) == LeavesBefore(root, old(PathOf(stack)))
      ensures FirstLeaf(NodeAt(root, PathOf(stack))) == FirstLeaf(NodeAt(root, old(PathOf(stack))))
    {
      var last := stack[|stack| - 1];
      ghost var path := PathOf(stack);
      TopOnPath(root, stack);
      if |last.tree.children| > 0 {
        PathExtends(root, path, 0);
        assert LeavesBefore(root, path + [0]) == LeavesBefore(root, path) by {
          assert last.tree.children[..0] == [];
        }
        BelowIsAfter(path, 0);
        var entry := StackEntry(last.tree.children[0], 0, last.byteOffset);
        PushOnPath(root, stack, entry);
        PathOfMore(stack, entry);
        stack := stack + [entry];
        return true;
      } else {
        return false;
      }
    }

    /** Go past the node: to the next one in preorder that is not inside it, if there is one. */
    method Advance()
      requires Valid() && stack != []
      modifies this`stack, this`lastExternalToken
      ensures Valid() && HasPath(root, old(PathOf(stack)))
      ensures stack != [] ==>
        && Precedes(old(PathOf(stack)), PathOf(stack))
        && LeavesBefore(root, PathOf(stack)) == LeavesThrough(root, old(PathOf(stack)))
      ensures stack == [] ==> LeavesThrough(root, old(PathOf(stack))) == Leaves(root)
    {
      hide OnPath, HasPath, LeavesBefore, LeavesThrough, NodeAt, Leaves, Precedes, LaidOut, TokensOk, BytesOf, LastExternal, PathOf;
      var last := stack[|stack| - 1];
      ghost var path := PathOf(stack);
      TopOnPath(root, stack);
      ghost var passed := LeavesThrough(root, path);
      Passing(root, path, last.byteOffset, lastExternalToken);
      var byteOffset := last.byteOffset + last.tree.data.Total().bytes;
      if last.tree.data.HasExternalTokens() {
        lastExternalToken := LastExternalToken(last.tree);
      }
      ghost var whole := stack;
      WholePath(whole);
      while true
        invariant 0 < |stack| <= |whole| && stack == whole[..|stack|] && OnPath(root, stack)
        invariant HasPath(root, PathOf(stack)) && LeavesThrough(root, PathOf(stack)) == passed
        invariant lastExternalToken == LastExternal(passed)
        decreases |stack|
      {
        ghost var before := stack;
        var popped := stack[|stack| - 1];
        var nextIndex := popped.childIndex + 1;
        stack := stack[..|stack| - 1];
        assert stack == whole[..|before| - 1];
        if |stack| == 0 {
          RootThrough(root, before);
          return;
        }
        Popped(root, before, byteOffset);
        var tree := stack[|stack| - 1].tree;
        if |tree.children| > nextIndex {
          RightOf(whole, |before| - 1, nextIndex);
          stack := stack + [StackEntry(tree.children[nextIndex], nextIndex, byteOffset)];
          return;
        }
      }
    }

    /** Go past the first leaf that is not behind, and past no other. */
    method AdvancePastLeaf()
      requires Valid() && stack != []
      modifies this`stack, this`lastExternalToken
      ensures Valid() && HasPath(root, old(PathOf(stack)))
      ensures var passed := LeavesBefore(root, old(PathOf(stack))) + [FirstLeaf(NodeAt(root, old(PathOf(stack))))];
              if stack == [] then passed == Leaves(root)
              else Precedes(old(PathOf(stack)), PathOf(stack)) && LeavesBefore(root, PathOf(stack)) == passed
    {
      ghost var path := PathOf(stack);
      var descended := true;
      while descended
        invariant Valid() && stack != [] && (PathOf(stack) == path || Precedes(path, PathOf(stack)))
        invariant HasPath(root, path) && LeavesBefore(root, PathOf(stack)) == LeavesBefore(root, path)
        invariant FirstLeaf(NodeAt(root, PathOf(stack))) == FirstLeaf(NodeAt(root, path))
        invariant !descended ==> NodeAt(root, PathOf(stack)).children == []
        decreases TreeDepth(root) - |PathOf(stack)|, descended
      {
        ghost var before := PathOf(stack);
        TopOnPath(root, stack);
        DeepEnough(root, before);
        descended := Descend();
        PrecedesTransitive(path, before, PathOf(stack));
      }
      ghost var before := PathOf(stack);
      Advance();
      if stack != [] {
        PrecedesTransitive(path, before, PathOf(stack));
      }
    }
  }

  function FirstLeaf(t: Tree): Data {
    if t.children == [] then t.data else FirstLeaf(t.children[0])
  }

  lemma RootThrough(root: Tree, stack: seq<StackEntry>)
    requires |stack| == 1 && HasPath(root, PathOf(stack))
    ensures LeavesThrough(root, PathOf(stack)) == Leaves(root) && OnPath(root, [])
  {
    assert PathOf(stack) == [];
  }

  /** What has been passed once a node is: its bytes and its last external token are added. */
  lemma Passing(root: Tree, path: seq<nat>, byteOffset: nat, token: Option<Data>)
    requires HasPath(root, path) && LaidOut(root) && TokensOk(root)
    requires byteOffset == BytesOf(LeavesBefore(root, path)) && token == LastExternal(LeavesBefore(root, path))
    ensures var t := NodeAt(root, path);
            && TokensOk(t)
            && byteOffset + t.data.Total().bytes == BytesOf(LeavesThrough(root, path))
            && LastExternal(LeavesThrough(root, path))
               == if t.data.HasExternalTokens() then LastExternal(Leaves(t)) else token
  {
    var t := NodeAt(root, path);
    OkInside(root, path);
    hide LaidOut, TokensOk, LeavesBefore, Leaves, BytesOf, LastExternal;
    LeavesBytes(t);
    BytesAppend(LeavesBefore(root, path), Leaves(t));
    TokensInside(t);
    LastExternalAppend(LeavesBefore(root, path), Leaves(t));
  }

  lemma WholePath(stack: seq<StackEntry>)
    ensures stack[..|stack|] == stack
  {
  }

  lemma PathOfTop(stack: seq<StackEntry>)
    requires |stack| > 1
    ensures var n := |stack| - 1; PathOf(stack) == PathOf(stack[..n]) + [stack[n].childIndex]
  {
    assert stack == stack[..|stack| - 1] + [stack[|stack| - 1]];
    PathOfMore(stack[..|stack| - 1], stack[|stack| - 1]);
  }

  lemma LastStep(t: Tree, path: seq<nat>, k: nat)
    requires HasPath(t, path + [k])
    ensures HasPath(t, path) && k < |NodeAt(t, path).children|
  {
    hide HasPath, NodeAt, LeavesBefore;
    PathShortens(t, path + [k]);
    assert (path + [k])[..|path|] == path;
  }

  /** Going up one level, and to the next child if there is one. */
  lemma Popped(root: Tree, stack: seq<StackEntry>, byteOffset: nat)
    requires |stack| > 1 && OnPath(root, stack) && HasPath(root, PathOf(stack))
    requires byteOffset == BytesOf(LeavesThrough(root, PathOf(stack)))
    ensures var n := |stack| - 1;
            var up, next := stack[..n], stack[n].childIndex + 1;
            && OnPath(root, up) && HasPath(root, PathOf(up))
            && var tree := up[n - 1].tree;
               if |tree.children| > next then
                 var more := up + [StackEntry(tree.children[next], next, byteOffset)];
                 && OnPath(root, more) && HasPath(root, PathOf(more)) && PathOf(more) == PathOf(up) + [next]
                 && LeavesBefore(root, PathOf(more)) == LeavesThrough(root, PathOf(stack))
               else LeavesThrough(root, PathOf(up)) == LeavesThrough(root, PathOf(stack))
  {
    hide OnPath, HasPath, LeavesBefore, LeavesThrough, NodeAt, BytesOf, PathOf;
    var n := |stack| - 1;
    var up, k := stack[..n], stack[n].childIndex;
    PathOfTop(stack);
    PopOnPath(root, stack, n);
    TopOnPath(root, up);
    LastStep(root, PathOf(up), k);
    PastChild(root, PathOf(up), k);
    if |NodeAt(root, PathOf(up)).children| > k + 1 {
      PushedNext(root, up, k + 1, byteOffset);
    }
  }

  lemma PushedNext(root: Tree, up: seq<StackEntry>, next: nat, byteOffset: nat)
    requires up != [] && OnPath(root, up) && HasPath(root, PathOf(up)) && next < |NodeAt(root, PathOf(up)).children|
    requires HasPath(root, PathOf(up) + [next]) && byteOffset == BytesOf(LeavesBefore(root, PathOf(up) + [next]))
    ensures var more := up + [StackEntry(NodeAt(root, PathOf(up)).children[next], next, byteOffset)];
            OnPath(root, more) && PathOf(more) == PathOf(up) + [next]
  {
    hide OnPath, HasPath, LeavesBefore, NodeAt, BytesOf, PathOf;
    var entry := StackEntry(NodeAt(root, PathOf(up)).children[next], next, byteOffset);
    PathExtends(root, PathOf(up), next);
    PushOnPath(root, up, entry);
    PathOfMore(up, entry);
  }

  lemma RightOf(stack: seq<StackEntry>, n: nat, next: nat)
    requires 0 < n < |stack| && stack[n].childIndex < next
    ensures Precedes(PathOf(stack), PathOf(stack[..n]) + [next])
  {
    var path := PathOf(stack);
    RightIsAfter(path, n - 1, next);
    assert path[..n - 1] == PathOf(stack[..n]);
  }

  function TreeDepth(t: Tree): nat
    decreases t, 1
  {
    1 + ListDepth(t, t.children)
  }

  function ListDepth(t: Tree, ts: seq<Tree>): nat
    requires forall i :: 0 <= i < |ts| ==> ts[i] < t
    decreases t, 0, |ts|
  {
    if ts == [] then 0
    else if TreeDepth(ts[|ts| - 1]) > ListDepth(t, ts[..|ts| - 1]) then TreeDepth(ts[|ts| - 1])
    else ListDepth(t, ts[..|ts| - 1])
  }

  lemma {:induction false} ChildDepth(t: Tree, ts: seq<Tree>, i: nat)
    requires (forall k :: 0 <= k < |ts| ==> ts[k] < t) && i < |ts|
    ensures TreeDepth(ts[i]) <= ListDepth(t, ts)
    decreases |ts|
  {
    if i < |ts| - 1 {
      ChildDepth(t, ts[..|ts| - 1], i);
    }
  }

  /** A path is shorter than the tree is deep. */
  lemma {:induction false} DeepEnough(t: Tree, path: seq<nat>)
    requires HasPath(t, path)
    ensures |path| < TreeDepth(t)
    decreases path
  {
    if path != [] {
      DeepEnough(t.children[path[0]], path[1..]);
      ChildDepth(t, t.children, path[0]);
    }
  }
}
