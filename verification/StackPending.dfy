/**
 * Popping a subtree that was pushed as pending, so that it can be broken down into its children: the
 * version that is popped off gives way to the first one that results.
 */
module StackPending {
  import opened Lengths
  import opened Subtrees
  import opened SubtreePools
  import opened Gathering
  import opened StackGraphs
  import opened StackSteps
  import opened StackPaths
  import opened Stacks
  import opened StackPops

  function PopPending(): Callback {
    (links, count, pending) => if count >= 1 then Action(pending, true) else Action(false, false)
  }

  /** Over nothing but extras to a subtree that was pushed as pending, and to just below it. */
  ghost predicate EndsPending(g: Graph, s: Store, n: NodeId, path: seq<nat>, m: NodeId) {
    && Leads(g, n, path, m)
    && var links := LinksOn(g, n, path);
       && links != [] && var last := links[|links| - 1];
       && IsCounted(s, last) && last.subtree.Some? && last.isPending
       && forall i :: 0 <= i < |links| - 1 ==> !IsCounted(s, links[i])
  }

  lemma {:induction false} LinksBegin(g: Graph, n: NodeId, path: seq<nat>, m: NodeId, k: nat)
    requires Leads(g, n, path, m) && k <= |path|
    ensures |LinksOn(g, n, path)| == |path| && LinksOn(g, n, path[..k]) == LinksOn(g, n, path)[..k]
    decreases |path|
  {
    if path != [] {
      LinksBegin(g, g[n].links[path[0]].node, path[1..], m, if k == 0 then 0 else k - 1);
      if k > 0 {
        assert path[..k][1..] == path[1..][..k - 1];
      }
    }
  }

  lemma {:induction false} NoneCounted(s: Store, links: seq<Link>)
    ensures CountOn(s, links) == 0 <==> forall i :: 0 <= i < |links| ==> !IsCounted(s, links[i])
  {
    hide IsCounted;
    if links != [] {
      NoneCounted(s, links[1..]);
      assert forall i :: 0 < i < |links| ==> links[i] == links[1..][i - 1];
    }
  }

  /** Of links of which only the last may count. */
  lemma LastCounts(s: Store, links: seq<Link>)
    requires links != []
    ensures var n := |links| - 1;
            CountOn(s, links[..n]) == 0 ==>
              && (CountOn(s, links) >= 1 <==> IsCounted(s, links[n]))
              && (AllPending(s, links) <==> (IsCounted(s, links[n]) ==> links[n].subtree.Some? && links[n].isPending))
  {
    hide IsCounted;
    var n := |links| - 1;
    LinkJoins(s, links[..n], links[n]);
    NoneCounted(s, links[..n]);
    assert links == links[..n] + [links[n]];
  }

  /** What the callback pops is just that. */
  lemma PendingPaths(g: Graph, s: Store, n: NodeId, path: seq<nat>, m: NodeId)
    ensures Pops(g, s, n, PopPending(), path, m) <==> EndsPending(g, s, n, path, m)
  {
    hide Leads, LinksOn, CountOn, AllPending, IsCounted;
    if Leads(g, n, path, m) {
      var links := LinksOn(g, n, path);
      forall k: nat | k < |path|
        ensures exists x: NodeId :: Leads(g, n, path[..k], x)
        ensures |links| == |path| && LinksOn(g, n, path[..k]) == links[..k]
        ensures CountOn(s, links[..k]) == 0 <==> forall i :: 0 <= i < k ==> !IsCounted(s, links[i])
      {
        var x := PathBegins(g, n, path, m, k);
        LinksBegin(g, n, path, m, k);
        NoneCounted(s, links[..k]);
      }
      LinksBegin(g, n, path, m, |path|);
      if links == [] {
        NoneCounted(s, []);
      } else {
        LastCounts(s, links);
      }
    }
  }

  /** The slice's version is where its path leads. */
  ghost predicate InPlace(g: Graph, n: NodeId, heads: seq<Head>, slice: Slice, path: seq<nat>) {
    slice.version < |heads| && Leads(g, n, path, heads[slice.version].node)
  }

  lemma LeadsToOne(g: Graph, n: NodeId, path: seq<nat>, x: NodeId, y: NodeId)
    requires Leads(g, n, path, x) && Leads(g, n, path, y)
    ensures x == y
  {
    hide Leads;
    assert path[..|path|] == path;
    var z := PathBegins(g, n, path, x, |path|);
  }

  /** When the first new version takes the place of an old one, all versions after it move down. */
  lemma OnlyFirstInPlace(g: Graph, n: NodeId, size: nat, heads: seq<Head>, slices: seq<Slice>, paths: seq<seq<nat>>,
                         version: nat, head: Head, i: nat)
    requires NewVersions(size, |heads|, slices) && Grouped(heads, slices) && version < size && i < |slices| == |paths|
    requires InPlace(g, n, heads, slices[i], paths[i]) && head.node == heads[slices[0].version].node
    requires slices[0].version < |heads|
    ensures var slice := if i == 0 then slices[i].(version := version) else slices[i];
            InPlace(g, n, Without(heads[version := head], slices[0].version), slice, paths[i]) <==> i == 0
  {
    hide Leads;
    var after := Without(heads[version := head], slices[0].version);
    var v := slices[i].version;
    if i > 0 && v < |after| {
      assert after[v] == heads[v + 1] && HasVersion(slices, v + 1);
      var j :| 0 <= j < |slices| && slices[j].version == v + 1;
      assert heads[slices[j].version].node != heads[v].node;
      if InPlace(g, n, after, slices[i], paths[i]) {
        LeadsToOne(g, n, paths[i], heads[v].node, after[v].node);
      }
    }
  }

  ghost predicate IsPendingPath(g: Graph, s: Store, n: NodeId, path: seq<nat>) {
    exists m: NodeId :: EndsPending(g, s, n, path, m)
  }

  /** The slices, by what lies on their paths. */
  ghost predicate PendingSlices(g: Graph, s: Store, n: NodeId, slices: seq<Slice>, paths: seq<seq<nat>>) {
    && |slices| == |paths|
    && forall i :: 0 <= i < |slices| ==>
         IsPendingPath(g, s, n, paths[i]) && slices[i].subtrees == Reverse(TreesOn(LinksOn(g, n, paths[i])))
  }

  ghost predicate AllInPlace(g: Graph, n: NodeId, heads: seq<Head>, slices: seq<Slice>, paths: seq<seq<nat>>) {
    |slices| == |paths| && forall i :: 0 <= i < |slices| ==> InPlace(g, n, heads, slices[i], paths[i])
  }

  lemma PopsLeads(g: Graph, s: Store, n: NodeId, callback: Callback, path: seq<nat>, m: NodeId)
    requires Pops(g, s, n, callback, path, m)
    ensures Leads(g, n, path, m)
  {
    hide Leads;
  }

  lemma SlicesArePending(g: Graph, s: Store, n: NodeId, heads: seq<Head>, slices: seq<Slice>, paths: seq<seq<nat>>)
    requires SlicesOn(g, s, n, PopPending(), heads, slices, paths)
    ensures PendingSlices(g, s, n, slices, paths) && AllInPlace(g, n, heads, slices, paths) && |slices| == |paths|
  {
    hide Pops, Leads, LinksOn, TreesOn, EndsPending;
    forall i | 0 <= i < |slices|
      ensures IsPendingPath(g, s, n, paths[i])
      ensures slices[i].subtrees == Reverse(TreesOn(LinksOn(g, n, paths[i]))) && InPlace(g, n, heads, slices[i], paths[i])
    {
      assert SliceOn(g, s, n, PopPending(), heads, slices[i], paths[i]);
      var m := heads[slices[i].version].node;
      PendingPaths(g, s, n, paths[i], m);
      PopsLeads(g, s, n, PopPending(), paths[i], m);
    }
  }

  lemma AllArePopped(g: Graph, s: Store, n: NodeId, paths: seq<seq<nat>>)
    requires forall q, m :: Pops(g, s, n, PopPending(), q, m) ==> q in paths
    ensures forall q, m :: EndsPending(g, s, n, q, m) ==> q in paths
  {
    hide Pops, EndsPending;
    forall q, m | EndsPending(g, s, n, q, m) ensures q in paths {
      PendingPaths(g, s, n, q, m);
    }
  }

  /** The first of the new versions takes the place of the one that was popped off. */
  method TakePlace(stack: Stack, version: nat, slices: seq<Slice>, ghost g: Graph, ghost n: NodeId, ghost size: nat,
                   ghost paths: seq<seq<nat>>, ghost keep: multiset<Ref>)
    returns (slices': seq<Slice>)
    requires stack.Valid(keep + SliceTrees(slices)) && version < size <= |stack.heads| && slices != []
    requires NewVersions(size, |stack.heads|, slices) && Grouped(stack.heads, slices)
    requires AllInPlace(g, n, stack.heads, slices, paths)
    modifies stack`heads, stack`nodes, stack`nodePool, stack.subtreePool
    ensures stack.Valid(keep + SliceTrees(slices')) && slices' == slices[0 := slices[0].(version := version)]
    ensures forall i :: 0 <= i < |slices'| ==> (InPlace(g, n, stack.heads, slices'[i], paths[i]) <==> i == 0)
    ensures |stack.heads| == |old(stack.heads)| - 1
    ensures forall v :: 0 <= v < size && v != version ==> stack.heads[v] == old(stack.heads)[v]
  {
    hide Leads, SliceTrees, Grouped, NewVersions, InPlace, Shrunk, Trees, HeadNodes, HeadTrees, Settled, KeyOf;
    FirstIsNew(size, |stack.heads|, slices);
    ghost var heads, first := stack.heads, slices[0].version;
    stack.RenumberVersion(slices[0].version, version, keep + SliceTrees(slices));
    SameSliceTrees(slices, version);
    slices' := slices[0 := slices[0].(version := version)];
    ghost var head: Head :| stack.heads == Without(heads[version := head], first) && head.node == heads[first].node;
    forall i | 0 <= i < |slices'| ensures InPlace(g, n, stack.heads, slices'[i], paths[i]) <==> i == 0 {
      OnlyFirstInPlace(g, n, size, heads, slices, paths, version, head, i);
    }
  }

  /**
   * Pop a pending subtree off a version along every path that has one. The version then is where the
   * first of these paths leads. The versions of the other slices are not where their paths lead.
   */
  method PopPendingSubtrees(stack: Stack, version: nat, ghost keep: multiset<Ref>)
    returns (slices: seq<Slice>, ghost paths: seq<seq<nat>>)
    requires stack.Valid(keep) && version < |stack.heads| && IsNode(stack.nodes, stack.heads[version].node)
    modifies stack`heads, stack`nodes, stack`nodePool, stack.subtreePool
    ensures stack.Valid(keep + SliceTrees(slices))
    ensures |slices| == |paths| && forall i, j :: 0 <= i < j < |paths| ==> paths[i] != paths[j]
    ensures PendingSlices(old(stack.nodes), old(stack.subtreePool.store), old(stack.heads)[version].node, slices, paths)
    ensures var g, s, n := old(stack.nodes), old(stack.subtreePool.store), old(stack.heads)[version].node;
            !Crowded(g, s, n, PopPending()) ==> forall q, m :: EndsPending(g, s, n, q, m) ==> q in paths
    ensures if slices == [] then stack.heads == old(stack.heads) else slices[0].version == version
    ensures forall i :: 0 <= i < |slices| ==>
              (InPlace(old(stack.nodes), old(stack.heads)[version].node, stack.heads, slices[i], paths[i]) <==> i == 0)
    ensures |stack.heads| >= |old(stack.heads)|
    ensures forall v :: 0 <= v < |old(stack.heads)| && v != version ==> stack.heads[v] == old(stack.heads)[v]
  {
    hide Undisturbed, Trees, HeadNodes, HeadTrees, SliceTrees, Pops, Leads, LinksOn, TreesOn, Crowded, EndsPending, Grouped, HasVersion,
         SlicesOn, InPlace, PendingSlices, AllInPlace, NewVersions, Settled;
    ghost var g, s, n, size := stack.nodes, stack.subtreePool.store, stack.heads[version].node, |stack.heads|;
    slices, paths := Iterate(stack, version, PopPending(), keep);
    SlicesArePending(g, s, n, stack.heads, slices, paths);
    if !Crowded(g, s, n, PopPending()) {
      AllArePopped(g, s, n, paths);
    }
    if |slices| > 0 {
      FirstIsNew(size, |stack.heads|, slices);
      SamePending(g, s, n, slices, paths, version);
      slices := TakePlace(stack, version, slices, g, n, size, paths, keep);
    } else {
      NoneIsNew(size, |stack.heads|);
      assert stack.heads == old(stack.heads);
    }
  }

  lemma SamePending(g: Graph, s: Store, n: NodeId, slices: seq<Slice>, paths: seq<seq<nat>>, version: nat)
    requires PendingSlices(g, s, n, slices, paths) && slices != []
    ensures PendingSlices(g, s, n, slices[0 := slices[0].(version := version)], paths)
  {
    hide IsPendingPath, LinksOn, TreesOn, Reverse;
  }

  lemma FirstIsNew(n: nat, m: nat, slices: seq<Slice>)
    requires NewVersions(n, m, slices) && slices != []
    ensures n == slices[0].version < m
  {
  }

  lemma NoneIsNew(n: nat, m: nat)
    requires NewVersions(n, m, []) && n <= m
    ensures n == m
  {
    assert n < m ==> HasVersion([], n);
  }

  lemma SameSliceTrees(slices: seq<Slice>, version: nat)
    requires slices != []
    ensures SliceTrees(slices[0 := slices[0].(version := version)]) == SliceTrees(slices)
  {
    hide Gather;
    var more := slices[0 := slices[0].(version := version)];
    GatherAround(slices, 0, SliceTree);
    GatherAround(more, 0, SliceTree);
    assert more[..0] + more[1..] == slices[..0] + slices[1..];
  }

  // ----- two pending subtrees ------------------------------------------------------------------

  /** A node over the base node, with two subtrees that were pushed as pending, of the same size and cost. */
  function TwoWays(s: Store, a: Addr, b: Addr, state: nat): Graph
    requires IsLive(s, a) && IsLive(s, b)
  {
    var total := s[a].data.Total();
    [Node(3, 1, ZERO, [], 0, 0, 0),
     Node(1, state, total, [Link(0, Some(Ptr(a)), true), Link(0, Some(Ptr(b)), true)], s[a].data.ErrorCost(), 1, 0)]
  }

  /** Where two ways of parsing the same text have been merged, both are popped, so one of them is not in place. */
  lemma BothArePending(s: Store, a: Addr, b: Addr, state: nat)
    requires IsLive(s, a) && IsLive(s, b) && !s[a].data.extra && !s[b].data.extra
    requires s[a].data.Total() == s[b].data.Total() && s[a].data.ErrorCost() == s[b].data.ErrorCost()
    ensures var g := TwoWays(s, a, b, state);
            && Exact(g, s) && EndsPending(g, s, 1, [0], 0) && EndsPending(g, s, 1, [1], 0)
            && TreesOn(LinksOn(g, 1, [0])) == [Ptr(a)] && TreesOn(LinksOn(g, 1, [1])) == [Ptr(b)]
  {
    var g := TwoWays(s, a, b, state);
    forall k: nat | k < 2
      ensures Leads(g, 1, [k], 0) && LinksOn(g, 1, [k]) == [g[1].links[k]]
      ensures TreesOn([g[1].links[k]]) == [g[1].links[k].subtree.ref]
    {
      assert [k][1..] == [] && [g[1].links[k]][1..] == [];
      assert LinksOn(g, 0, []) == [];
    }
  }
}
