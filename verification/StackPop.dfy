/**
 * Popping from the parse stack: following all paths down from a version at once, and handing out
 * the subtrees of each path on which the callback says so.
 */
module StackPops {
  import opened Lengths
  import opened Subtrees
  import opened SubtreePools
  import opened Gathering
  import opened Sequences
  import opened StackGraphs
  import opened StackSteps
  import opened StackPaths
  import opened Stacks

  const MAX_ITERATOR_COUNT: nat := 64

  datatype Action = Action(pop: bool, stop: bool)

  /** What a callback decides on: the links of the node, the subtrees counted so far, and whether all are pending. */
  type Callback = (nat, nat, bool) -> Action

  datatype Iterator = Iterator(node: NodeId, subtrees: seq<Ref>, subtreeCount: nat, isPending: bool)

  datatype Slice = Slice(subtrees: seq<Ref>, version: nat)

  function PopCount(goal: nat): Callback {
    (links, count, pending) => if count == goal then Action(true, true) else Action(false, false)
  }

  function PopAll(): Callback { (links, count, pending) => Action(links == 0, false) }

  function Reverse<T>(xs: seq<T>): (ys: seq<T>)
    ensures |ys| == |xs| && forall i :: 0 <= i < |xs| ==> ys[i] == xs[|xs| - 1 - i]
  {
    if xs == [] then [] else [xs[|xs| - 1]] + Reverse(xs[..|xs| - 1])
  }

  lemma {:induction false} ReverseSame<T>(xs: seq<T>)
    ensures multiset(Reverse(xs)) == multiset(xs)
  {
    if xs != [] {
      ReverseSame(xs[..|xs| - 1]);
      assert xs == xs[..|xs| - 1] + [xs[|xs| - 1]];
    }
  }

  // ----- paths and what is found on them -------------------------------------------------------

  predicate IsExtra(s: Store, t: StackTree) { t.Some? && ValidRef(s, t.ref) && RefData(s, t.ref).extra }

  /** An iterator after one more link. */
  function Step(s: Store, w: Iterator, link: Link): Iterator {
    var counts := link.subtree.NullTree? || !IsExtra(s, link.subtree);
    Iterator(link.node,
             if link.subtree.Some? then w.subtrees + [link.subtree.ref] else w.subtrees,
             if counts then w.subtreeCount + 1 else w.subtreeCount,
             w.isPending && (counts ==> link.subtree.Some? && link.isPending))
  }

  datatype Walk = Lost | At(it: Iterator)

  /** Where the links numbered `path` lead from `n`, and what they carry. */
  function WalkTo(g: Graph, s: Store, n: NodeId, path: seq<nat>): Walk
    decreases |path|
  {
    if path == [] then At(Iterator(n, [], 0, true))
    else
      match WalkTo(g, s, n, path[..|path| - 1])
      case Lost => Lost
      case At(w) =>
        var k := path[|path| - 1];
        if IsNode(g, w.node) && k < |g[w.node].links| then At(Step(s, w, g[w.node].links[k])) else Lost
  }

  function LinkCount(g: Graph, n: NodeId): nat { if IsNode(g, n) then |g[n].links| else 0 }

  function ActionAt(g: Graph, callback: Callback, w: Iterator): Action {
    callback(LinkCount(g, w.node), w.subtreeCount, w.isPending)
  }

  /** The paths that the callback lets the iteration take. */
  ghost predicate Taken(g: Graph, s: Store, n: NodeId, callback: Callback, path: seq<nat>) {
    && WalkTo(g, s, n, path).At?
    && forall k :: 0 <= k < |path| && WalkTo(g, s, n, path[..k]).At? ==>
         !ActionAt(g, callback, WalkTo(g, s, n, path[..k]).it).stop
  }

  /** The paths that end in a pop. */
  ghost predicate Popped(g: Graph, s: Store, n: NodeId, callback: Callback, path: seq<nat>) {
    Taken(g, s, n, callback, path) && ActionAt(g, callback, WalkTo(g, s, n, path).it).pop
  }

  lemma WalkExtends(g: Graph, s: Store, n: NodeId, path: seq<nat>, k: nat)
    ensures WalkTo(g, s, n, path + [k]) ==
            match WalkTo(g, s, n, path)
            case Lost => Lost
            case At(w) => if IsNode(g, w.node) && k < |g[w.node].links| then At(Step(s, w, g[w.node].links[k])) else Lost
  {
    assert (path + [k])[..|path|] == path;
  }

  lemma {:induction false} WalkPrefix(g: Graph, s: Store, n: NodeId, path: seq<nat>, k: nat)
    requires WalkTo(g, s, n, path).At? && k <= |path|
    ensures WalkTo(g, s, n, path[..k]).At?
    decreases |path|
  {
    if k < |path| {
      var m := |path| - 1;
      assert path[..m][..k] == path[..k];
      WalkPrefix(g, s, n, path[..m], k);
    } else {
      assert path[..k] == path;
    }
  }

  lemma TakenExtends(g: Graph, s: Store, n: NodeId, callback: Callback, path: seq<nat>, k: nat)
    requires Taken(g, s, n, callback, path) && !ActionAt(g, callback, WalkTo(g, s, n, path).it).stop
    requires k < LinkCount(g, WalkTo(g, s, n, path).it.node)
    ensures Taken(g, s, n, callback, path + [k])
    ensures WalkTo(g, s, n, path + [k]) == At(Step(s, WalkTo(g, s, n, path).it, g[WalkTo(g, s, n, path).it.node].links[k]))
  {
    WalkExtends(g, s, n, path, k);
    var p := path + [k];
    forall j | 0 <= j < |p| && WalkTo(g, s, n, p[..j]).At?
      ensures !ActionAt(g, callback, WalkTo(g, s, n, p[..j]).it).stop
    {
      if j == |path| {
        assert p[..j] == path;
      } else {
        assert p[..j] == path[..j];
      }
    }
  }

  /** Any path taken beyond `path` goes over one of the links there, unless the iteration stops there. */
  lemma TakenBeyond(g: Graph, s: Store, n: NodeId, callback: Callback, path: seq<nat>, q: seq<nat>)
    requires Taken(g, s, n, callback, q) && path < q
    ensures WalkTo(g, s, n, path).At? && !ActionAt(g, callback, WalkTo(g, s, n, path).it).stop
    ensures q[|path|] < LinkCount(g, WalkTo(g, s, n, path).it.node) && path + [q[|path|]] <= q
  {
    var k := |path|;
    assert q[..k] == path && q[..k + 1] == path + [q[k]];
    WalkPrefix(g, s, n, q, k);
    WalkPrefix(g, s, n, q, k + 1);
    WalkExtends(g, s, n, path, q[k]);
  }

  // ----- what is popped, by what lies on the path ----------------------------------------------

  /** What the callback says of a path that leads to `m`. */
  function Answer(g: Graph, s: Store, n: NodeId, callback: Callback, path: seq<nat>, m: NodeId): Action {
    var links := LinksOn(g, n, path);
    callback(LinkCount(g, m), CountOn(s, links), AllPending(s, links))
  }

  /** The callback pops the path, which leads to `m`, and stops at no node before. */
  ghost predicate Pops(g: Graph, s: Store, n: NodeId, callback: Callback, path: seq<nat>, m: NodeId) {
    && Leads(g, n, path, m) && Answer(g, s, n, callback, path, m).pop
    && forall k: nat, x: NodeId :: k < |path| && Leads(g, n, path[..k], x) ==> !Answer(g, s, n, callback, path[..k], x).stop
  }

  /** The slice holds the subtrees on the path from the bottom up, and its version is where the path leads. */
  ghost predicate SliceOn(g: Graph, s: Store, n: NodeId, callback: Callback, heads: seq<Head>, slice: Slice, path: seq<nat>) {
    && slice.version < |heads| && Pops(g, s, n, callback, path, heads[slice.version].node)
    && slice.subtrees == Reverse(TreesOn(LinksOn(g, n, path)))
  }

  ghost predicate SlicesOn(g: Graph, s: Store, n: NodeId, callback: Callback, heads: seq<Head>, slices: seq<Slice>,
                           paths: seq<seq<nat>>)
  {
    |slices| == |paths| && forall i :: 0 <= i < |slices| ==> SliceOn(g, s, n, callback, heads, slices[i], paths[i])
  }

  /** An iterator has collected, counted and kept track of just what lies on its path. */
  lemma {:induction false} WalkFollows(level: Key -> nat, g: Graph, s: Store, n: NodeId, path: seq<nat>)
    requires GraphOk(level, g) && IsNode(g, n)
    ensures WalkTo(g, s, n, path).At? ==>
              var w, links := WalkTo(g, s, n, path).it, LinksOn(g, n, path);
              && Leads(g, n, path, w.node) && IsNode(g, w.node) && w.subtrees == TreesOn(links)
              && w.subtreeCount == CountOn(s, links) && w.isPending == AllPending(s, links)
    ensures forall m: NodeId :: Leads(g, n, path, m) ==> WalkTo(g, s, n, path).At? && WalkTo(g, s, n, path).it.node == m
    decreases |path|
  {
    hide Leads, LinksOn, CountOn, TreesOn, AllPending;
    if path == [] {
      EmptyPath(g, s, n);
    } else {
      var front, k := path[..|path| - 1], path[|path| - 1];
      assert path == front + [k];
      WalkFollows(level, g, s, n, front);
      WalkExtends(g, s, n, front, k);
      if WalkTo(g, s, n, path).At? {
        var w := WalkTo(g, s, n, front).it;
        assert NodeOk(level, g, w.node);
        PathExtends(g, n, front, w.node, k);
        LinkJoins(s, LinksOn(g, n, front), g[w.node].links[k]);
      }
      forall m: NodeId | Leads(g, n, path, m) ensures WalkTo(g, s, n, path).At? && WalkTo(g, s, n, path).it.node == m {
        var x := PathBegins(g, n, path, m, |front|);
        assert path[..|front|] == front;
        var y := PathBegins(g, n, path, m, |path|);
        assert path[..|path|] == path;
      }
    }
  }

  lemma EmptyPath(g: Graph, s: Store, n: NodeId)
    requires IsNode(g, n)
    ensures WalkTo(g, s, n, []) == At(Iterator(n, [], 0, true)) && forall m: NodeId :: Leads(g, n, [], m) <==> m == n
    ensures LinksOn(g, n, []) == [] && TreesOn([]) == [] && CountOn(s, []) == 0 && AllPending(s, [])
  {
  }

  lemma AnswerIs(level: Key -> nat, g: Graph, s: Store, n: NodeId, callback: Callback, path: seq<nat>, m: NodeId)
    requires GraphOk(level, g) && IsNode(g, n)
    ensures Leads(g, n, path, m) <==> WalkTo(g, s, n, path).At? && WalkTo(g, s, n, path).it.node == m
    ensures Leads(g, n, path, m) ==> ActionAt(g, callback, WalkTo(g, s, n, path).it) == Answer(g, s, n, callback, path, m)
  {
    hide WalkTo, Leads, LinksOn, CountOn, AllPending;
    WalkFollows(level, g, s, n, path);
  }

  /** What the iteration pops is what the callback pops by what lies on the path. */
  lemma PoppedIs(level: Key -> nat, g: Graph, s: Store, n: NodeId, callback: Callback, path: seq<nat>, m: NodeId)
    requires GraphOk(level, g) && IsNode(g, n)
    ensures Pops(g, s, n, callback, path, m) <==>
              Popped(g, s, n, callback, path) && WalkTo(g, s, n, path).it.node == m
  {
    hide WalkTo, Leads, LinksOn, Answer, ActionAt;
    AnswerIs(level, g, s, n, callback, path, m);
    forall k: nat, x: NodeId | k < |path|
      ensures Leads(g, n, path[..k], x) <==> WalkTo(g, s, n, path[..k]).At? && WalkTo(g, s, n, path[..k]).it.node == x
      ensures Leads(g, n, path[..k], x) ==>
                ActionAt(g, callback, WalkTo(g, s, n, path[..k]).it) == Answer(g, s, n, callback, path[..k], x)
    {
      AnswerIs(level, g, s, n, callback, path[..k], x);
    }
    if Pops(g, s, n, callback, path, m) {
      forall k | 0 <= k < |path| && WalkTo(g, s, n, path[..k]).At?
        ensures !ActionAt(g, callback, WalkTo(g, s, n, path[..k]).it).stop
      {
        assert Leads(g, n, path[..k], WalkTo(g, s, n, path[..k]).it.node);
      }
    }
  }

  // ----- the state of the iteration ------------------------------------------------------------

  /** The iterators' paths do not lead through each other or to a path that has been popped. */
  ghost predicate Apart(tips: seq<seq<nat>>, paths: seq<seq<nat>>) {
    && (forall i, j :: 0 <= i < |tips| && 0 <= j < |tips| && i != j ==> !(tips[i] <= tips[j]))
    && (forall i, j :: 0 <= i < |tips| && 0 <= j < |paths| ==> !(tips[i] <= paths[j]))
    && forall i, j :: 0 <= i < j < |paths| ==> paths[i] != paths[j]
  }

  /** Every path that ends in a pop has been popped or leads through an iterator. */
  ghost predicate Covered(g: Graph, s: Store, n: NodeId, callback: Callback, tips: seq<seq<nat>>, paths: seq<seq<nat>>) {
    forall q :: Popped(g, s, n, callback, q) ==> q in paths || Through(tips, q)
  }

  ghost predicate Through(tips: seq<seq<nat>>, q: seq<nat>) {
    exists i :: 0 <= i < |tips| && tips[i] <= q
  }

  /** Each iterator is where its path leads. */
  ghost predicate Tracking(g: Graph, s: Store, n: NodeId, callback: Callback, its: seq<Iterator>, tips: seq<seq<nat>>) {
    && |its| == |tips|
    && forall i :: 0 <= i < |its| ==> Taken(g, s, n, callback, tips[i]) && WalkTo(g, s, n, tips[i]) == At(its[i])
  }

  /** Each slice holds what its path carries, from the bottom up, and its version is where the path leads. */
  ghost predicate SliceFor(g: Graph, s: Store, n: NodeId, callback: Callback, heads: seq<Head>, slice: Slice, path: seq<nat>) {
    && Popped(g, s, n, callback, path)
    && slice.subtrees == Reverse(WalkTo(g, s, n, path).it.subtrees)
    && slice.version < |heads| && heads[slice.version].node == WalkTo(g, s, n, path).it.node
  }

  ghost predicate SlicesFor(g: Graph, s: Store, n: NodeId, callback: Callback, heads: seq<Head>, slices: seq<Slice>,
                            paths: seq<seq<nat>>)
  {
    && |slices| == |paths|
    && forall i :: 0 <= i < |slices| ==> SliceFor(g, s, n, callback, heads, slices[i], paths[i])
  }

  /** Slices have the same version just when they end at the same node, and those come together. */
  ghost predicate Grouped(heads: seq<Head>, slices: seq<Slice>) {
    && (forall i :: 0 <= i < |slices| ==> slices[i].version < |heads|)
    && (forall i, j :: 0 <= i < |slices| && 0 <= j < |slices| ==>
          (slices[i].version == slices[j].version <==> heads[slices[i].version].node == heads[slices[j].version].node))
    && forall i, j, k :: 0 <= i <= k <= j < |slices| && slices[i].version == slices[j].version ==>
         slices[k].version == slices[i].version
  }

  /** Where an element of a list was before one was inserted after the `i`th; that one stands with the `i`th. */
  function WasAt(i: nat, k: nat): nat { if k <= i then k else k - 1 }

  lemma InsertedVersion(slices: seq<Slice>, i: nat, slice: Slice, k: nat)
    requires i < |slices| && slice.version == slices[i].version && k <= |slices|
    ensures InsertAt(slices, i + 1, slice)[k].version == slices[WasAt(i, k)].version
  {
  }

  /** The versions of a list are those of another at other indices, in the same order. */
  ghost predicate VersionsWere(slices: seq<Slice>, i: nat, more: seq<Slice>) {
    i < |slices| && |more| == |slices| + 1 && forall k :: 0 <= k < |more| ==> more[k].version == slices[WasAt(i, k)].version
  }

  lemma GroupedBetween(heads: seq<Head>, slices: seq<Slice>, i: nat, more: seq<Slice>, a: nat, k: nat, b: nat)
    requires Grouped(heads, slices) && VersionsWere(slices, i, more) && a <= k <= b < |more|
    requires more[a].version == more[b].version
    ensures more[k].version == more[a].version
  {
    assert WasAt(i, a) <= WasAt(i, k) <= WasAt(i, b) < |slices|;
  }

  lemma GroupedAt(heads: seq<Head>, slices: seq<Slice>, i: nat, more: seq<Slice>, a: nat, b: nat)
    requires Grouped(heads, slices) && VersionsWere(slices, i, more) && a < |more| && b < |more|
    ensures more[a].version < |heads| && more[b].version < |heads|
    ensures more[a].version == more[b].version <==> heads[more[a].version].node == heads[more[b].version].node
  {
    var x, y := slices[WasAt(i, a)], slices[WasAt(i, b)];
    assert x.version == more[a].version && y.version == more[b].version;
  }

  /** A slice goes after the last one that ends at the same node. */
  lemma InsertGrouped(heads: seq<Head>, slices: seq<Slice>, i: nat, slice: Slice)
    requires Grouped(heads, slices) && i < |slices| && slice.version == slices[i].version
    ensures Grouped(heads, InsertAt(slices, i + 1, slice))
  {
    var more := InsertAt(slices, i + 1, slice);
    assert |more| == |slices| + 1;
    assert VersionsWere(slices, i, more) by {
      forall k | 0 <= k < |more| ensures more[k].version == slices[WasAt(i, k)].version {
        InsertedVersion(slices, i, slice, k);
      }
    }
    GroupsStay(heads, slices, i, more);
  }

  lemma GroupsStay(heads: seq<Head>, slices: seq<Slice>, i: nat, more: seq<Slice>)
    requires Grouped(heads, slices) && VersionsWere(slices, i, more)
    ensures Grouped(heads, more)
  {
    hide VersionsWere;
    forall a, b | 0 <= a < |more| && 0 <= b < |more|
      ensures more[a].version < |heads| && more[b].version < |heads|
      ensures more[a].version == more[b].version <==> heads[more[a].version].node == heads[more[b].version].node
    {
      GroupedAt(heads, slices, i, more, a, b);
    }
    forall a, b, k | 0 <= a <= k <= b < |more| && more[a].version == more[b].version
      ensures more[k].version == more[a].version
    {
      GroupedBetween(heads, slices, i, more, a, k, b);
    }
  }

  /** A slice that ends at a node of its own gets a version of its own. */
  lemma AppendGrouped(heads: seq<Head>, slices: seq<Slice>, head: Head, subtrees: seq<Ref>)
    requires Grouped(heads, slices)
    requires forall i :: 0 <= i < |slices| ==> heads[slices[i].version].node != head.node
    ensures Grouped(heads + [head], slices + [Slice(subtrees, |heads|)])
  {
  }

  // ----- one step of the iteration -------------------------------------------------------------

  /** Paths taken from the node, none of which leads through another: as many iterators can be under way at once. */
  ghost predicate Crowd(g: Graph, s: Store, n: NodeId, callback: Callback, tips: seq<seq<nat>>) {
    && (forall i, j :: 0 <= i < |tips| && 0 <= j < |tips| && i != j ==> !(tips[i] <= tips[j]))
    && forall i :: 0 <= i < |tips| ==> Taken(g, s, n, callback, tips[i])
  }

  /** There are more paths than the iteration follows at once. */
  ghost predicate Crowded(g: Graph, s: Store, n: NodeId, callback: Callback) {
    exists tips: seq<seq<nat>> :: |tips| >= MAX_ITERATOR_COUNT && Crowd(g, s, n, callback, tips)
  }

  /** Between two iterators: everything that is to be popped has been or will be, each path once. */
  ghost predicate Iterating(g: Graph, s: Store, n: NodeId, callback: Callback, its: seq<Iterator>, tips: seq<seq<nat>>,
                            paths: seq<seq<nat>>, capped: bool)
  {
    && Tracking(g, s, n, callback, its, tips) && Apart(tips, paths)
    && (if capped then Crowded(g, s, n, callback) else Covered(g, s, n, callback, tips, paths))
  }

  /** The same while iterator `i`, whose path has been popped if it should be, has not moved on. */
  ghost predicate Handling(g: Graph, s: Store, n: NodeId, callback: Callback, its: seq<Iterator>, tips: seq<seq<nat>>,
                           paths: seq<seq<nat>>, capped: bool, i: nat)
  {
    && Tracking(g, s, n, callback, its, tips) && i < |tips|
    && (forall a, b :: 0 <= a < |tips| && 0 <= b < |tips| && a != b ==> !(tips[a] <= tips[b]))
    && (forall a, b :: 0 <= a < |tips| && 0 <= b < |paths| && tips[a] <= paths[b] ==> a == i && paths[b] == tips[i])
    && (forall a, b :: 0 <= a < b < |paths| ==> paths[a] != paths[b])
    && (if capped then Crowded(g, s, n, callback) else Covered(g, s, n, callback, tips, paths))
    && (ActionAt(g, callback, its[i]).pop ==> tips[i] in paths)
  }

  lemma HandlePop(g: Graph, s: Store, n: NodeId, callback: Callback, its: seq<Iterator>, tips: seq<seq<nat>>,
                  paths: seq<seq<nat>>, capped: bool, i: nat, at: nat)
    requires Iterating(g, s, n, callback, its, tips, paths, capped) && i < |its| && at <= |paths|
    ensures Handling(g, s, n, callback, its, tips, InsertAt(paths, at, tips[i]), capped, i)
  {
    hide WalkTo, Taken, Popped, Through, InsertAt, Crowded;
    InsertedMembers(paths, at, tips[i]);
    var more := InsertAt(paths, at, tips[i]);
    forall a, b | 0 <= a < b < |more| ensures more[a] != more[b] {
      if a == at {
        assert more[b] == paths[b - 1] && !(tips[i] <= paths[b - 1]);
      } else if b == at {
        assert more[a] == paths[a] && !(tips[i] <= paths[a]);
      }
    }
  }

  lemma HandleNone(g: Graph, s: Store, n: NodeId, callback: Callback, its: seq<Iterator>, tips: seq<seq<nat>>,
                   paths: seq<seq<nat>>, capped: bool, i: nat)
    requires Iterating(g, s, n, callback, its, tips, paths, capped) && i < |its| && !ActionAt(g, callback, its[i]).pop
    ensures Handling(g, s, n, callback, its, tips, paths, capped, i)
  {
    hide WalkTo, Taken, Popped, Through, Crowded;
  }

  /** An iterator that has to stop is dropped: nothing is to be popped beyond it. */
  lemma HandleStop(g: Graph, s: Store, n: NodeId, callback: Callback, its: seq<Iterator>, tips: seq<seq<nat>>,
                   paths: seq<seq<nat>>, capped: bool, i: nat)
    requires Handling(g, s, n, callback, its, tips, paths, capped, i)
    requires ActionAt(g, callback, its[i]).stop || LinkCount(g, its[i].node) == 0
    ensures Iterating(g, s, n, callback, Erase(its, i), Erase(tips, i), paths, capped)
  {
    hide WalkTo, Taken, Erase, Crowded;
    ErasedMembers(its, i);
    ErasedMembers(tips, i);
    if !capped {
      forall q | Popped(g, s, n, callback, q) ensures q in paths || Through(Erase(tips, i), q) {
        if q !in paths {
          var k :| 0 <= k < |tips| && tips[k] <= q;
          if k == i {
            assert q != tips[i];
            TakenBeyond(g, s, n, callback, tips[i], q);
          } else {
            assert Erase(tips, i)[if k < i then k else k - 1] <= q;
          }
        }
      }
    }
  }

  /** The paths over the links of `tip`'s node: the first in place, the next `m` at the end. */
  function Branched(tips: seq<seq<nat>>, i: nat, m: nat): seq<seq<nat>>
    requires i < |tips|
  {
    tips[i := tips[i] + [0]] + seq(m, k requires 0 <= k < m => tips[i] + [k + 1])
  }

  function BranchedIts(g: Graph, s: Store, its: seq<Iterator>, i: nat, m: nat): seq<Iterator>
    requires i < |its| && m < LinkCount(g, its[i].node)
  {
    its[i := Step(s, its[i], g[its[i].node].links[0])]
    + seq(m, k requires 0 <= k < m => Step(s, its[i], g[its[i].node].links[k + 1]))
  }

  lemma BranchedAt(tips: seq<seq<nat>>, i: nat, m: nat)
    requires i < |tips|
    ensures |Branched(tips, i, m)| == |tips| + m
    ensures forall k :: 0 <= k < |tips| && k != i ==> Branched(tips, i, m)[k] == tips[k]
    ensures Branched(tips, i, m)[i] == tips[i] + [0]
    ensures forall k :: |tips| <= k < |tips| + m ==> Branched(tips, i, m)[k] == tips[i] + [k - |tips| + 1]
  {
  }

  /** From which iterator a branch comes, and over which link. */
  lemma BranchOrigin(tips: seq<seq<nat>>, i: nat, m: nat, k: nat)
    requires i < |tips| && k < |tips| + m
    ensures |Branched(tips, i, m)| == |tips| + m
    ensures if k < |tips| && k != i then Branched(tips, i, m)[k] == tips[k]
            else Branched(tips, i, m)[k] == tips[i] + [if k == i then 0 else k - |tips| + 1]
  {
    BranchedAt(tips, i, m);
  }

  lemma BranchesApart(tips: seq<seq<nat>>, paths: seq<seq<nat>>, i: nat, m: nat)
    requires i < |tips|
    requires forall a, b :: 0 <= a < |tips| && 0 <= b < |tips| && a != b ==> !(tips[a] <= tips[b])
    requires forall a, b :: 0 <= a < |tips| && 0 <= b < |paths| && tips[a] <= paths[b] ==> a == i && paths[b] == tips[i]
    requires forall a, b :: 0 <= a < b < |paths| ==> paths[a] != paths[b]
    ensures Apart(Branched(tips, i, m), paths)
  {
    BranchedAt(tips, i, m);
    hide Branched;
    var more, tip := Branched(tips, i, m), tips[i];
    forall a, b | 0 <= a < |more| && 0 <= b < |more| && a != b ensures !(more[a] <= more[b]) {
      BranchOrigin(tips, i, m, a);
      BranchOrigin(tips, i, m, b);
      if a < |tips| && a != i {
        Comparable(tips[a], tip, more[b]);
      } else if b < |tips| && b != i {
        PrefixThrough(tip, more[a], tips[b]);
      } else {
        assert more[a][|tip|] != more[b][|tip|];
      }
    }
    forall a, b | 0 <= a < |more| && 0 <= b < |paths| ensures !(more[a] <= paths[b]) {
      BranchOrigin(tips, i, m, a);
      PrefixThrough(tip, more[a], paths[b]);
    }
  }

  /** Two prefixes of one path lead one through the other. */
  lemma Comparable(x: seq<nat>, y: seq<nat>, z: seq<nat>)
    ensures x <= z && y <= z ==> x <= y || y <= x
  {
    if x <= z && y <= z {
      if |x| <= |y| {
        assert x == z[..|x|] == y[..|x|];
      } else {
        assert y == z[..|y|] == x[..|y|];
      }
    }
  }

  lemma PrefixThrough(x: seq<nat>, y: seq<nat>, z: seq<nat>)
    ensures x <= y && y <= z ==> x <= z && |y| <= |z|
  {
    if x <= y && y <= z {
      assert x == y[..|x|] == z[..|x|];
    }
  }

  lemma BranchesTracked(g: Graph, s: Store, n: NodeId, callback: Callback, its: seq<Iterator>, tips: seq<seq<nat>>,
                        i: nat, m: nat)
    requires Tracking(g, s, n, callback, its, tips) && i < |tips| && m < LinkCount(g, its[i].node)
    requires !ActionAt(g, callback, its[i]).stop
    ensures Tracking(g, s, n, callback, BranchedIts(g, s, its, i, m), Branched(tips, i, m))
  {
    hide WalkTo, Taken, Branched, Step, ActionAt;
    var its', tips' := BranchedIts(g, s, its, i, m), Branched(tips, i, m);
    BranchOrigin(tips, i, m, i);
    forall k | 0 <= k < |its'| ensures Taken(g, s, n, callback, tips'[k]) && WalkTo(g, s, n, tips'[k]) == At(its'[k]) {
      BranchOrigin(tips, i, m, k);
      if !(k < |tips| && k != i) {
        TakenExtends(g, s, n, callback, tips[i], if k == i then 0 else k - |tips| + 1);
      }
    }
  }

  /** An iterator that goes on is replaced by one for each link, unless there are too many. */
  lemma HandleBranch(g: Graph, s: Store, n: NodeId, callback: Callback, its: seq<Iterator>, tips: seq<seq<nat>>,
                     paths: seq<seq<nat>>, capped: bool, i: nat, m: nat)
    requires Handling(g, s, n, callback, its, tips, paths, capped, i)
    requires !ActionAt(g, callback, its[i]).stop && m < LinkCount(g, its[i].node)
    requires m + 1 < LinkCount(g, its[i].node) ==> |its| + m >= MAX_ITERATOR_COUNT
    ensures Iterating(g, s, n, callback, BranchedIts(g, s, its, i, m), Branched(tips, i, m), paths,
                      capped || m + 1 < LinkCount(g, its[i].node))
  {
    hide WalkTo, Taken, Branched, BranchedIts;
    BranchesApart(tips, paths, i, m);
    BranchesTracked(g, s, n, callback, its, tips, i, m);
    if m + 1 < LinkCount(g, its[i].node) {
      BranchedAt(tips, i, m);
      assert Crowd(g, s, n, callback, Branched(tips, i, m));
    } else if !capped && m + 1 == LinkCount(g, its[i].node) {
      BranchedAt(tips, i, m);
      var more := Branched(tips, i, m);
      forall q | Popped(g, s, n, callback, q) ensures q in paths || Through(more, q) {
        if q !in paths {
          var k :| 0 <= k < |tips| && tips[k] <= q;
          if k == i {
            assert q != tips[i];
            TakenBeyond(g, s, n, callback, tips[i], q);
            var l := q[|tips[i]|];
            assert more[if l == 0 then i else |tips| + l - 1] <= q;
          } else {
            assert more[k] <= q;
          }
        }
      }
    }
  }

  // ----- termination ---------------------------------------------------------------------------

  /** A bound on the iterations that a node of level `l` can still cause. */
  function Weight(l: nat): nat { if l == 0 then 1 else 1 + MAX_LINK_COUNT * Weight(l - 1) }

  lemma {:induction false} WeightGrows(k: nat, l: nat)
    requires k <= l
    ensures 1 <= Weight(k) <= Weight(l)
    decreases l
  {
    if k == l {
      if l > 0 { WeightGrows(l - 1, l - 1); }
    } else {
      WeightGrows(k, l - 1);
    }
  }

  ghost function LoadOf(level: Key -> nat, g: Graph, w: Iterator): nat {
    if IsNode(g, w.node) then Weight(level(KeyOf(g, w.node))) else 1
  }

  ghost function Load(level: Key -> nat, g: Graph, its: seq<Iterator>): nat {
    if its == [] then 0 else Load(level, g, its[..|its| - 1]) + LoadOf(level, g, its[|its| - 1])
  }

  lemma {:induction false} LoadConcat(level: Key -> nat, g: Graph, xs: seq<Iterator>, ys: seq<Iterator>)
    ensures Load(level, g, xs + ys) == Load(level, g, xs) + Load(level, g, ys)
    decreases |ys|
  {
    if ys == [] {
      assert xs + ys == xs;
    } else {
      assert (xs + ys)[..|xs + ys| - 1] == xs + ys[..|ys| - 1];
      LoadConcat(level, g, xs, ys[..|ys| - 1]);
    }
  }

  lemma LoadAround(level: Key -> nat, g: Graph, its: seq<Iterator>, i: nat, w: Iterator)
    requires i < |its|
    ensures Load(level, g, its) == Load(level, g, Erase(its, i)) + LoadOf(level, g, its[i])
    ensures Load(level, g, its[i := w]) == Load(level, g, Erase(its, i)) + LoadOf(level, g, w)
  {
    LoadSplit(level, g, its, i);
    LoadSplit(level, g, its[i := w], i);
    assert its[i := w][..i] == its[..i] && its[i := w][i + 1..] == its[i + 1..];
    LoadConcat(level, g, its[..i], its[i + 1..]);
  }

  lemma LoadSplit(level: Key -> nat, g: Graph, its: seq<Iterator>, i: nat)
    requires i < |its|
    ensures Load(level, g, its) == Load(level, g, its[..i]) + LoadOf(level, g, its[i]) + Load(level, g, its[i + 1..])
  {
    assert its == its[..i + 1] + its[i + 1..];
    assert its[..i + 1][..i] == its[..i];
    LoadConcat(level, g, its[..i + 1], its[i + 1..]);
  }

  lemma {:induction false} LoadBound(level: Key -> nat, g: Graph, its: seq<Iterator>, most: nat)
    requires forall k :: 0 <= k < |its| ==> LoadOf(level, g, its[k]) <= most
    ensures Load(level, g, its) <= |its| * most
  {
    hide LoadOf;
    if its != [] {
      LoadBound(level, g, its[..|its| - 1], most);
      assert |its| * most == (|its| - 1) * most + most;
    }
  }

  lemma NodeWeighs(level: Key -> nat, g: Graph, w: Iterator)
    ensures LoadOf(level, g, w) >= 1
  {
    if IsNode(g, w.node) {
      WeightGrows(level(KeyOf(g, w.node)), level(KeyOf(g, w.node)));
    }
  }

  lemma EraseLightens(level: Key -> nat, g: Graph, its: seq<Iterator>, i: nat)
    requires i < |its|
    ensures Load(level, g, Erase(its, i)) < Load(level, g, its)
  {
    LoadAround(level, g, its, i, its[i]);
    NodeWeighs(level, g, its[i]);
  }

  lemma LowerWeighsLess(level: Key -> nat, g: Graph, s: Store, w: Iterator, k: nat)
    requires GraphOk(level, g) && k < LinkCount(g, w.node)
    ensures level(KeyOf(g, w.node)) > 0 && LinkCount(g, w.node) <= MAX_LINK_COUNT
    ensures LoadOf(level, g, Step(s, w, g[w.node].links[k])) <= Weight(level(KeyOf(g, w.node)) - 1)
  {
    assert NodeOk(level, g, w.node);
    WeightGrows(level(KeyOf(g, g[w.node].links[k].node)), level(KeyOf(g, w.node)) - 1);
  }

  lemma FewTimes(m: nat, most: nat)
    requires m < MAX_LINK_COUNT
    ensures most + m * most < 1 + MAX_LINK_COUNT * most
  {
    assert (MAX_LINK_COUNT - 1 - m) * most >= 0;
  }

  /** All branches together weigh less than the iterator they come from. */
  lemma BranchLightens(level: Key -> nat, g: Graph, s: Store, its: seq<Iterator>, i: nat, m: nat)
    requires GraphOk(level, g) && i < |its| && m < LinkCount(g, its[i].node)
    ensures Load(level, g, BranchedIts(g, s, its, i, m)) < Load(level, g, its)
  {
    hide GraphOk, Step, Load;
    var n := its[i].node;
    LowerWeighsLess(level, g, s, its[i], 0);
    var most := Weight(level(KeyOf(g, n)) - 1);
    var first := Step(s, its[i], g[n].links[0]);
    var rest := seq(m, k requires 0 <= k < m => Step(s, its[i], g[n].links[k + 1]));
    forall k | 0 <= k < m ensures LoadOf(level, g, rest[k]) <= most {
      LowerWeighsLess(level, g, s, its[i], k + 1);
    }
    assert BranchedIts(g, s, its, i, m) == its[i := first] + rest;
    LoadConcat(level, g, its[i := first], rest);
    LoadAround(level, g, its, i, first);
    LoadBound(level, g, rest, most);
    FewTimes(m, most);
  }

  // ----- what the iteration leaves alone -------------------------------------------------------

  /** The graph but for its counts, and the subtrees on it, are as they were. */
  ghost predicate Undisturbed(g: Graph, s: Store, u: Graph, s': Store) {
    && (forall n: NodeId :: IsNode(g, n) <==> IsNode(u, n))
    && (forall n: NodeId :: IsNode(g, n) ==> KeyOf(u, n) == KeyOf(g, n) && u[n].links == g[n].links)
    && SameTrees(s, s', Trees(g))
  }

  lemma StillUndisturbed(g: Graph, s: Store, u: Graph, s': Store, v: Graph, s'': Store)
    requires Undisturbed(g, s, u, s') && Shrunk(u, v) && Grown(u, v) && SameTrees(s', s'', Trees(v))
    ensures Undisturbed(g, s, v, s'')
  {
    hide Trees;
    forall n: NodeId ensures IsNode(u, n) <==> IsNode(v, n) {
    }
    forall r | r in Trees(g) ensures r in Trees(v) {
      TreeHasLink(g, r);
      var n: NodeId, i: nat :| IsNode(g, n) && i < |g[n].links| && g[n].links[i].subtree == Some(r);
      assert v[n].links == g[n].links;
      LinkIsCounted(v, n, i);
    }
  }

  lemma SameStep(g: Graph, s: Store, u: Graph, s': Store, w: Iterator, k: nat)
    requires Undisturbed(g, s, u, s') && k < LinkCount(g, w.node)
    ensures LinkCount(u, w.node) == LinkCount(g, w.node) && u[w.node].links == g[w.node].links
    ensures Step(s', w, g[w.node].links[k]) == Step(s, w, g[w.node].links[k])
  {
    hide Trees;
    LinkIsCounted(g, w.node, k);
  }

  lemma SameCount(g: Graph, s: Store, u: Graph, s': Store, n: NodeId)
    requires Undisturbed(g, s, u, s')
    ensures LinkCount(u, n) == LinkCount(g, n) && (IsNode(u, n) <==> IsNode(g, n))
  {
    hide Trees;
  }

  function IterTree(w: Iterator): multiset<Ref> { multiset(w.subtrees) }

  function SliceTree(slice: Slice): multiset<Ref> { multiset(slice.subtrees) }

  /** The shares of subtrees that iterators hold. */
  ghost function IterTrees(its: seq<Iterator>): multiset<Ref> { Gather(its, IterTree) }

  /** The shares of subtrees that the slices hand out. */
  ghost function SliceTrees(slices: seq<Slice>): multiset<Ref> { Gather(slices, SliceTree) }

  ghost predicate Extended(before: seq<Head>, heads: seq<Head>) {
    |before| <= |heads| && forall i :: 0 <= i < |before| ==> heads[i] == before[i]
  }

  predicate HasVersion(slices: seq<Slice>, v: nat) { exists i :: 0 <= i < |slices| && slices[i].version == v }

  /** The versions from `n` on are those of the slices, of which the first has the first. */
  ghost predicate NewVersions(n: nat, m: nat, slices: seq<Slice>) {
    && (forall i :: 0 <= i < |slices| ==> n <= slices[i].version < m)
    && (forall v: nat :: n <= v < m ==> HasVersion(slices, v))
    && (slices != [] ==> slices[0].version == n)
  }

  // ----- adding a slice ------------------------------------------------------------------------

  lemma SlicesForMore(g: Graph, s: Store, n: NodeId, callback: Callback, heads: seq<Head>, slices: seq<Slice>,
                      paths: seq<seq<nat>>, more: seq<Head>, at: nat, slice: Slice, path: seq<nat>)
    requires SlicesFor(g, s, n, callback, heads, slices, paths) && Extended(heads, more) && at <= |slices|
    requires SliceFor(g, s, n, callback, more, slice, path)
    ensures SlicesFor(g, s, n, callback, more, InsertAt(slices, at, slice), InsertAt(paths, at, path))
  {
    hide WalkTo, Popped, InsertAt;
    InsertedMembers(slices, at, slice);
    InsertedMembers(paths, at, path);
    var slices', paths' := InsertAt(slices, at, slice), InsertAt(paths, at, path);
    forall i | 0 <= i < |slices'| ensures SliceFor(g, s, n, callback, more, slices'[i], paths'[i]) {
      if i < at {
        assert SliceFor(g, s, n, callback, heads, slices[i], paths[i]);
      } else if i > at {
        assert SliceFor(g, s, n, callback, heads, slices[i - 1], paths[i - 1]);
      }
    }
  }

  lemma SliceTreesMore(slices: seq<Slice>, at: nat, slice: Slice)
    requires at <= |slices|
    ensures SliceTrees(InsertAt(slices, at, slice)) == SliceTrees(slices) + multiset(slice.subtrees)
  {
    hide Gather;
    GatherConcat(slices[..at] + [slice], slices[at..], SliceTree);
    GatherAppend(slices[..at], slice, SliceTree);
    GatherConcat(slices[..at], slices[at..], SliceTree);
    assert slices == slices[..at] + slices[at..];
  }

  /** One more slice: after one of the same version, or at the end with the next version. */
  lemma NewVersionsMore(n: nat, m: nat, slices: seq<Slice>, at: nat, slice: Slice, m': nat)
    requires NewVersions(n, m, slices) && at <= |slices| && n <= m && n <= slice.version
    requires if m' == m then at > 0 && slice.version < m else m' == m + 1 && at == |slices| && slice.version == m
    ensures NewVersions(n, m', InsertAt(slices, at, slice))
  {
    hide InsertAt;
    InsertedMembers(slices, at, slice);
    var more := InsertAt(slices, at, slice);
    forall v: nat | n <= v < m' ensures HasVersion(more, v) {
      if v == m {
        assert more[at].version == v;
      } else {
        assert HasVersion(slices, v);
        var i :| 0 <= i < |slices| && slices[i].version == v;
        assert more[if i < at then i else i + 1].version == v;
      }
    }
    assert slices == [] && n < m ==> HasVersion(slices, n);
  }

  /** Add a slice for a path that ends at `node`, next to those that end there, or with a new version. */
  method AddSlice(stack: Stack, originalVersion: nat, node: NodeId, subtrees: seq<Ref>, slices: seq<Slice>,
                  ghost paths: seq<seq<nat>>, ghost path: seq<nat>, ghost g: Graph, ghost s: Store, ghost n: NodeId,
                  ghost callback: Callback, ghost heads0: seq<Head>, ghost held: multiset<Ref>)
    returns (slices': seq<Slice>, ghost at: nat)
    requires stack.Valid(held) && originalVersion < |stack.heads| && IsNode(stack.nodes, node)
    requires Undisturbed(g, s, stack.nodes, stack.subtreePool.store)
    requires SlicesFor(g, s, n, callback, stack.heads, slices, paths) && Grouped(stack.heads, slices)
    requires Extended(heads0, stack.heads) && NewVersions(|heads0|, |stack.heads|, slices)
    requires Popped(g, s, n, callback, path) && WalkTo(g, s, n, path).it.node == node
    requires subtrees == Reverse(WalkTo(g, s, n, path).it.subtrees)
    modifies stack`heads, stack`nodes, stack.subtreePool`store
    ensures stack.Valid(held) && Undisturbed(g, s, stack.nodes, stack.subtreePool.store)
    ensures Extended(old(stack.heads), stack.heads) && Extended(heads0, stack.heads) && NewVersions(|heads0|, |stack.heads|, slices')
    ensures at <= |slices| && SlicesFor(g, s, n, callback, stack.heads, slices', InsertAt(paths, at, path))
    ensures Grouped(stack.heads, slices') && SliceTrees(slices') == SliceTrees(slices) + multiset(subtrees)
  {
    hide Taken, Popped, WalkTo, Undisturbed, Trees, SlicesFor, Grouped, NewVersions, SliceTrees, HeadNodes, HeadTrees, InsertAt;
    ghost var heads, u, s' := stack.heads, stack.nodes, stack.subtreePool.store;
    SliceVersions(g, s, n, callback, heads, slices, paths);
    var i := |slices|;
    while i > 0
      invariant 0 <= i <= |slices|
      invariant forall k :: i <= k < |slices| ==> stack.heads[slices[k].version].node != node
    {
      i := i - 1;
      if stack.heads[slices[i].version].node == node {
        var slice := Slice(subtrees, slices[i].version);
        slices' := InsertAt(slices, i + 1, slice);
        at := i + 1;
        InsertGrouped(heads, slices, i, slice);
        SlicesForMore(g, s, n, callback, heads, slices, paths, heads, at, slice, path);
        SliceTreesMore(slices, at, slice);
        OldVersion(|heads0|, |heads|, slices, i);
        NewVersionsMore(|heads0|, |heads|, slices, at, slice, |heads|);
        return;
      }
    }
    var version := stack.AddVersion(originalVersion, node, held);
    StillUndisturbed(g, s, u, s', stack.nodes, stack.subtreePool.store);
    var slice := Slice(subtrees, version);
    slices' := slices + [slice];
    at := |slices|;
    AppendIsInsert(slices, slice);
    AppendGrouped(heads, slices, stack.heads[version], subtrees);
    SlicesForMore(g, s, n, callback, heads, slices, paths, stack.heads, at, slice, path);
    SliceTreesMore(slices, at, slice);
    NewVersionsMore(|heads0|, |heads|, slices, at, slice, |stack.heads|);
  }

  lemma AppendIsInsert<T>(xs: seq<T>, x: T)
    ensures xs + [x] == InsertAt(xs, |xs|, x)
  {
  }

  lemma OldVersion(n: nat, m: nat, slices: seq<Slice>, i: nat)
    requires NewVersions(n, m, slices) && i < |slices|
    ensures n <= slices[i].version < m
  {
  }

  lemma SliceVersions(g: Graph, s: Store, n: NodeId, callback: Callback, heads: seq<Head>, slices: seq<Slice>, paths: seq<seq<nat>>)
    requires SlicesFor(g, s, n, callback, heads, slices, paths)
    ensures |slices| == |paths| && forall i :: 0 <= i < |slices| ==> slices[i].version < |heads|
  {
    forall i | 0 <= i < |slices| ensures slices[i].version < |heads| {
      assert SliceFor(g, s, n, callback, heads, slices[i], paths[i]);
    }
  }

  // ----- following the links of one iterator ---------------------------------------------------

  lemma StepTrees(s: Store, w: Iterator, link: Link)
    ensures IterTree(Step(s, w, link)) == IterTree(w) + Handles(link.subtree)
  {
  }

  lemma IterTreesAround(its: seq<Iterator>, i: nat, w: Iterator)
    requires i < |its|
    ensures IterTrees(its) == IterTrees(Erase(its, i)) + IterTree(its[i])
    ensures IterTrees(its[i := w]) == IterTrees(Erase(its, i)) + IterTree(w)
  {
    hide Gather;
    assert Erase(its[i := w], i) == Erase(its, i);
    GatherAround(its, i, IterTree);
    GatherAround(its[i := w], i, IterTree);
  }

  lemma IterTreesMore(its: seq<Iterator>, w: Iterator)
    ensures IterTrees(its + [w]) == IterTrees(its) + IterTree(w)
  {
    GatherAppend(its, w, IterTree);
  }

  function Branches(g: Graph, s: Store, w: Iterator, m: nat): (its: seq<Iterator>)
    requires m < LinkCount(g, w.node)
  {
    seq(m, k requires 0 <= k < m => Step(s, w, g[w.node].links[k + 1]))
  }

  lemma OneMoreBranch(g: Graph, s: Store, w: Iterator, m: nat)
    requires m + 1 < LinkCount(g, w.node)
    ensures Branches(g, s, w, m + 1) == Branches(g, s, w, m) + [Step(s, w, g[w.node].links[m + 1])]
    ensures |Branches(g, s, w, m)| == m
  {
  }

  lemma HeldIsValid(s: Store, trees: multiset<Ref>, heads: multiset<Ref>, held: multiset<Ref>, its: seq<Iterator>, i: nat)
    requires forall r :: r in trees + (heads + (held + IterTrees(its))) ==> ValidRef(s, r)
    requires i < |its|
    ensures forall k :: 0 <= k < |its[i].subtrees| ==> ValidRef(s, its[i].subtrees[k])
  {
    hide Gather;
    GatherAround(its, i, IterTree);
    forall k | 0 <= k < |its[i].subtrees| ensures ValidRef(s, its[i].subtrees[k]) {
      assert its[i].subtrees[k] in IterTree(its[i]);
      assert its[i].subtrees[k] in trees + (heads + (held + IterTrees(its)));
    }
  }

  ghost method IteratorIsValid(stack: Stack, its: seq<Iterator>, i: nat, held: multiset<Ref>)
    requires stack.Valid(held + IterTrees(its)) && i < |its|
    ensures forall k :: 0 <= k < |its[i].subtrees| ==> ValidRef(stack.subtreePool.store, its[i].subtrees[k])
  {
    hide Gather, Trees, HeadNodes, HeadTrees;
    stack.TreesAreValid(HeadNodes(stack.heads) + multiset{stack.baseNode}, HeadTrees(stack.heads) + (held + IterTrees(its)));
    HeldIsValid(stack.subtreePool.store, Trees(stack.nodes), HeadTrees(stack.heads), held, its, i);
  }

  ghost method LinkTreeIsValid(stack: Stack, n: NodeId, k: nat, held: multiset<Ref>)
    requires stack.Valid(held) && k < LinkCount(stack.nodes, n)
    ensures TreeOk(stack.subtreePool.store, stack.nodes[n].links[k].subtree)
  {
    hide Gather, Trees, HeadNodes, HeadTrees;
    stack.TreesAreValid(HeadNodes(stack.heads) + multiset{stack.baseNode}, HeadTrees(stack.heads) + held);
    LinkIsCounted(stack.nodes, n, k);
  }

  /** Add an iterator that follows a link, sharing what the given one has collected. */
  method Follow(stack: Stack, its: seq<Iterator>, i: nat, k: nat, ghost g: Graph, ghost s: Store, ghost held: multiset<Ref>)
    returns (next: Iterator)
    requires stack.Valid(held + IterTrees(its)) && i < |its| && Undisturbed(g, s, stack.nodes, stack.subtreePool.store)
    requires k < LinkCount(g, its[i].node)
    modifies stack.subtreePool`store
    ensures next == Step(s, its[i], g[its[i].node].links[k])
    ensures stack.Valid(held + IterTrees(its + [next])) && Undisturbed(g, s, stack.nodes, stack.subtreePool.store)
  {
    hide Undisturbed, Trees, HeadNodes, HeadTrees, IterTrees, Shrunk, Grown, SameTrees, Step;
    ghost var u, s' := stack.nodes, stack.subtreePool.store;
    var current := its[i];
    IteratorIsValid(stack, its, i, held);
    stack.RetainArray(current.subtrees, held + IterTrees(its));
    ShrunkItself(u);
    StillUndisturbed(g, s, u, s', u, stack.subtreePool.store);
    ghost var s1 := stack.subtreePool.store;
    SameCount(g, s, u, s1, current.node);
    SameStep(g, s, u, s1, current, k);
    var link := stack.nodes[current.node].links[k];
    next := Step(stack.subtreePool.store, current, link);
    LinkTreeIsValid(stack, current.node, k, held + IterTrees(its) + multiset(current.subtrees));
    stack.RetainShare(link.subtree, held + IterTrees(its) + multiset(current.subtrees));
    StillUndisturbed(g, s, u, s1, u, stack.subtreePool.store);
    StepTrees(s1, current, link);
    IterTreesMore(its, next);
    assert held + IterTrees(its) + multiset(current.subtrees) + Handles(link.subtree) == held + IterTrees(its + [next]);
  }

  /** Move an iterator over the first link of its node. */
  method FollowFirst(stack: Stack, its: seq<Iterator>, i: nat, ghost g: Graph, ghost s: Store, ghost held: multiset<Ref>)
    returns (its': seq<Iterator>)
    requires stack.Valid(held + IterTrees(its)) && i < |its| && Undisturbed(g, s, stack.nodes, stack.subtreePool.store)
    requires LinkCount(g, its[i].node) > 0
    modifies stack.subtreePool`store
    ensures its' == its[i := Step(s, its[i], g[its[i].node].links[0])]
    ensures stack.Valid(held + IterTrees(its')) && Undisturbed(g, s, stack.nodes, stack.subtreePool.store)
  {
    hide Undisturbed, Trees, HeadNodes, HeadTrees, IterTrees, Shrunk, Grown, SameTrees, Step, Settled;
    var node := its[i].node;
    ghost var s1 := stack.subtreePool.store;
    SameCount(g, s, stack.nodes, s1, node);
    SameStep(g, s, stack.nodes, s1, its[i], 0);
    LinkTreeIsValid(stack, node, 0, held + IterTrees(its));
    var link := stack.nodes[node].links[0];
    stack.RetainShare(link.subtree, held + IterTrees(its));
    ShrunkItself(stack.nodes);
    StillUndisturbed(g, s, stack.nodes, s1, stack.nodes, stack.subtreePool.store);
    var next := Step(stack.subtreePool.store, its[i], link);
    SameStep(g, s, stack.nodes, stack.subtreePool.store, its[i], 0);
    StepTrees(stack.subtreePool.store, its[i], link);
    IterTreesAround(its, i, next);
    its' := its[i := next];
    assert held + IterTrees(its) + Handles(link.subtree) == held + IterTrees(its');
  }

  /** Move an iterator over the first link of its node, and give every other link an iterator while there is room. */
  method Branch(stack: Stack, its: seq<Iterator>, i: nat, ghost g: Graph, ghost s: Store, ghost held: multiset<Ref>)
    returns (its': seq<Iterator>, ghost m: nat)
    requires stack.Valid(held + IterTrees(its)) && i < |its| && Undisturbed(g, s, stack.nodes, stack.subtreePool.store)
    requires LinkCount(g, its[i].node) > 0
    modifies stack.subtreePool`store
    ensures m < LinkCount(g, its[i].node) && its' == BranchedIts(g, s, its, i, m)
    ensures m + 1 < LinkCount(g, its[i].node) ==> |its'| >= MAX_ITERATOR_COUNT
    ensures stack.Valid(held + IterTrees(its')) && Undisturbed(g, s, stack.nodes, stack.subtreePool.store)
  {
    hide Undisturbed, Trees, HeadNodes, HeadTrees, IterTrees, Shrunk, Grown, SameTrees, Step, Branches, Settled;
    var node := its[i].node;
    SameCount(g, s, stack.nodes, stack.subtreePool.store, node);
    var links := stack.nodes[node].links;
    m := 0;
    its' := its;
    NoBranches(g, s, its, i);
    for j := 1 to |links|
      invariant m <= j - 1 && |its'| == |its| + m && |links| == LinkCount(g, node)
      invariant its' == its + Branches(g, s, its[i], m)
      invariant m < j - 1 ==> |its'| >= MAX_ITERATOR_COUNT
      invariant stack.Valid(held + IterTrees(its')) && Undisturbed(g, s, stack.nodes, stack.subtreePool.store)
    {
      if |its'| < MAX_ITERATOR_COUNT {
        var next := Follow(stack, its', i, j, g, s, held);
        OneMoreBranch(g, s, its[i], m);
        its' := its' + [next];
        m := m + 1;
      }
    }
    its' := FollowFirst(stack, its', i, g, s, held);
    BranchesAre(g, s, its, i, m);
  }

  lemma NoBranches(g: Graph, s: Store, its: seq<Iterator>, i: nat)
    requires i < |its| && 0 < LinkCount(g, its[i].node)
    ensures its == its + Branches(g, s, its[i], 0)
  {
  }

  lemma BranchesAre(g: Graph, s: Store, its: seq<Iterator>, i: nat, m: nat)
    requires i < |its| && m < LinkCount(g, its[i].node)
    ensures (its + Branches(g, s, its[i], m))[i := Step(s, its[i], g[its[i].node].links[0])] == BranchedIts(g, s, its, i, m)
  {
  }

  // ----- the iteration -------------------------------------------------------------------------

  /** What holds between any two steps of a pop that began on `g`, `s` and `heads0`. */
  ghost predicate Popping(stack: Stack, g: Graph, s: Store, heads0: seq<Head>, n: NodeId, callback: Callback,
                          its: seq<Iterator>, tips: seq<seq<nat>>, slices: seq<Slice>, paths: seq<seq<nat>>, capped: bool,
                          keep: multiset<Ref>)
    reads stack, stack.subtreePool
  {
    && stack.Valid(keep + SliceTrees(slices) + IterTrees(its))
    && Undisturbed(g, s, stack.nodes, stack.subtreePool.store)
    && Iterating(g, s, n, callback, its, tips, paths, capped)
    && SlicesFor(g, s, n, callback, stack.heads, slices, paths) && Grouped(stack.heads, slices)
    && Extended(heads0, stack.heads) && NewVersions(|heads0|, |stack.heads|, slices)
    && GraphOk(stack.level, g) && IsNode(g, n)
  }

  /** While iterator `i` is handled, `extra` being held for a slice that is not there yet. */
  ghost predicate Popping1(stack: Stack, g: Graph, s: Store, heads0: seq<Head>, n: NodeId, callback: Callback,
                           its: seq<Iterator>, tips: seq<seq<nat>>, slices: seq<Slice>, paths: seq<seq<nat>>, capped: bool,
                           i: nat, held: multiset<Ref>)
    reads stack, stack.subtreePool
  {
    && stack.Valid(held)
    && Undisturbed(g, s, stack.nodes, stack.subtreePool.store)
    && Handling(g, s, n, callback, its, tips, paths, capped, i)
    && SlicesFor(g, s, n, callback, stack.heads, slices, paths) && Grouped(stack.heads, slices)
    && Extended(heads0, stack.heads) && NewVersions(|heads0|, |stack.heads|, slices)
    && GraphOk(stack.level, g) && IsNode(g, n)
  }

  /** Hand out what an iterator has collected if the callback says so: a copy if the iterator goes on. */
  method PopSlice(stack: Stack, version: nat, callback: Callback, its: seq<Iterator>, i: nat, action: Action, shouldStop: bool,
                  slices: seq<Slice>, ghost g: Graph, ghost s: Store, ghost heads0: seq<Head>, ghost n: NodeId,
                  ghost tips: seq<seq<nat>>, ghost paths: seq<seq<nat>>, ghost capped: bool, ghost keep: multiset<Ref>)
    returns (slices': seq<Slice>, ghost paths': seq<seq<nat>>)
    requires Popping(stack, g, s, heads0, n, callback, its, tips, slices, paths, capped, keep)
    requires i < |its| && version < |heads0| && action == ActionAt(g, callback, its[i])
    modifies stack`heads, stack`nodes, stack.subtreePool`store
    ensures Popping1(stack, g, s, heads0, n, callback, its, tips, slices', paths', capped, i,
                     if action.pop && shouldStop then keep + SliceTrees(slices') + IterTrees(Erase(its, i))
                     else keep + SliceTrees(slices') + IterTrees(its))
  {
    hide Undisturbed, Trees, HeadNodes, HeadTrees, IterTrees, SliceTrees, Shrunk, Grown, SameTrees, Iterating, Handling,
         SlicesFor, Grouped, NewVersions, InsertAt, Erase, WalkTo, Taken, GraphOk, Tracking;
    slices', paths' := slices, paths;
    TrackedAt(g, s, n, callback, its, tips, paths, capped, i);
    if !action.pop {
      HandleNone(g, s, n, callback, its, tips, paths, capped, i);
      return;
    }
    var it := its[i];
    WalkIsNode(stack.level, g, s, n, tips[i]);
    SameCount(g, s, stack.nodes, stack.subtreePool.store, it.node);
    IterTreesAround(its, i, it);
    ghost var held := keep + SliceTrees(slices) + IterTrees(its);
    if !shouldStop {
      IteratorIsValid(stack, its, i, keep + SliceTrees(slices));
      ghost var u, s' := stack.nodes, stack.subtreePool.store;
      stack.RetainArray(it.subtrees, held);
      ShrunkItself(u);
      StillUndisturbed(g, s, u, s', u, stack.subtreePool.store);
      held := held + multiset(it.subtrees);
    }
    SlicesSize(g, s, n, callback, stack.heads, slices, paths);
    ghost var at;
    slices', at := AddSlice(stack, version, it.node, Reverse(it.subtrees), slices, paths, tips[i], g, s, n, callback, heads0, held);
    paths' := InsertAt(paths, at, tips[i]);
    HandlePop(g, s, n, callback, its, tips, paths, capped, i, at);
    ReverseSame(it.subtrees);
    SharesMove(keep, SliceTrees(slices), IterTrees(its), IterTrees(Erase(its, i)), multiset(it.subtrees));
  }

  lemma SharesMove<T>(keep: multiset<T>, slices: multiset<T>, all: multiset<T>, rest: multiset<T>, moved: multiset<T>)
    requires all == rest + moved
    ensures keep + slices + all == keep + (slices + moved) + rest
    ensures keep + slices + all + moved == keep + (slices + moved) + all
  {
  }

  lemma {:induction false} WalkIsNode(level: Key -> nat, g: Graph, s: Store, n: NodeId, path: seq<nat>)
    requires GraphOk(level, g) && IsNode(g, n) && WalkTo(g, s, n, path).At?
    ensures IsNode(g, WalkTo(g, s, n, path).it.node)
    decreases |path|
  {
    if path != [] {
      var front := path[..|path| - 1];
      WalkIsNode(level, g, s, n, front);
      assert NodeOk(level, g, WalkTo(g, s, n, front).it.node);
    }
  }

  /** Handle one iterator: pop what it has collected if it is time, then drop it or let it go on. */
  method HandleIterator(stack: Stack, version: nat, callback: Callback, its: seq<Iterator>, i: nat, slices: seq<Slice>,
                        ghost g: Graph, ghost s: Store, ghost heads0: seq<Head>, ghost n: NodeId,
                        ghost tips: seq<seq<nat>>, ghost paths: seq<seq<nat>>, ghost capped: bool, ghost keep: multiset<Ref>)
    returns (its': seq<Iterator>, slices': seq<Slice>, stopped: bool,
             ghost tips': seq<seq<nat>>, ghost paths': seq<seq<nat>>, ghost capped': bool)
    requires Popping(stack, g, s, heads0, n, callback, its, tips, slices, paths, capped, keep)
    requires i < |its| && version < |heads0|
    modifies stack`heads, stack`nodes, stack.subtreePool
    ensures Popping(stack, g, s, heads0, n, callback, its', tips', slices', paths', capped', keep)
    ensures if stopped then |its'| == |its| - 1 else |its'| >= |its|
    ensures Load(stack.level, g, its') < Load(stack.level, g, its)
  {
    hide Undisturbed, Trees, HeadNodes, HeadTrees, IterTrees, SliceTrees, Shrunk, Grown, SameTrees, Iterating, Handling,
         SlicesFor, Grouped, NewVersions, InsertAt, Erase, WalkTo, Taken, Load, GraphOk, Tracking;
    var it := its[i];
    SameCount(g, s, stack.nodes, stack.subtreePool.store, it.node);
    var action := ActionAt(stack.nodes, callback, it);
    var shouldStop := action.stop || LinkCount(stack.nodes, it.node) == 0;
    TrackedAt(g, s, n, callback, its, tips, paths, capped, i);
    slices', paths' := PopSlice(stack, version, callback, its, i, action, shouldStop, slices, g, s, heads0, n, tips, paths, capped, keep);
    ghost var held := keep + SliceTrees(slices');
    stopped := shouldStop;
    if shouldStop {
      ErasedMembers(its, i);
      if !action.pop {
        ghost var u, s' := stack.nodes, stack.subtreePool.store;
        IterTreesAround(its, i, it);
        assert held + IterTrees(its) == held + IterTrees(Erase(its, i)) + multiset(it.subtrees);
        stack.ReleaseArray(it.subtrees, held + IterTrees(Erase(its, i)));
        ShrunkItself(u);
        StillUndisturbed(g, s, u, s', u, stack.subtreePool.store);
      }
      HandleStop(g, s, n, callback, its, tips, paths', capped, i);
      EraseLightens(stack.level, g, its, i);
      its', tips', capped' := Erase(its, i), Erase(tips, i), capped;
    } else {
      ghost var m;
      its', m := Branch(stack, its, i, g, s, held);
      BranchedSize(g, s, its, i, m);
      HandleBranch(g, s, n, callback, its, tips, paths', capped, i, m);
      BranchLightens(stack.level, g, s, its, i, m);
      tips', capped' := Branched(tips, i, m), capped || m + 1 < LinkCount(g, it.node);
    }
  }

  lemma BranchedSize(g: Graph, s: Store, its: seq<Iterator>, i: nat, m: nat)
    requires i < |its| && m < LinkCount(g, its[i].node)
    ensures |BranchedIts(g, s, its, i, m)| == |its| + m
  {
  }

  lemma SlicesSize(g: Graph, s: Store, n: NodeId, callback: Callback, heads: seq<Head>, slices: seq<Slice>, paths: seq<seq<nat>>)
    requires SlicesFor(g, s, n, callback, heads, slices, paths)
    ensures |slices| == |paths|
  {
  }

  lemma TrackedAt(g: Graph, s: Store, n: NodeId, callback: Callback, its: seq<Iterator>, tips: seq<seq<nat>>,
                  paths: seq<seq<nat>>, capped: bool, i: nat)
    requires Iterating(g, s, n, callback, its, tips, paths, capped) && i < |its|
    ensures |tips| == |its| && WalkTo(g, s, n, tips[i]) == At(its[i]) && Taken(g, s, n, callback, tips[i])
  {
    hide WalkTo, Taken, Crowded;
  }

  /**
   * Follow all paths down from a version. On each path that the callback lets the iteration take,
   * what it pops becomes a slice: one for each such path, and for every one of them unless there are
   * more paths than are followed at once.
   */
  method Iterate(stack: Stack, version: nat, callback: Callback, ghost keep: multiset<Ref>)
    returns (slices: seq<Slice>, ghost paths: seq<seq<nat>>)
    requires stack.Valid(keep) && version < |stack.heads| && IsNode(stack.nodes, stack.heads[version].node)
    modifies stack`heads, stack`nodes, stack.subtreePool
    ensures stack.Valid(keep + SliceTrees(slices))
    ensures Undisturbed(old(stack.nodes), old(stack.subtreePool.store), stack.nodes, stack.subtreePool.store)
    ensures Extended(old(stack.heads), stack.heads) && NewVersions(|old(stack.heads)|, |stack.heads|, slices)
    ensures SlicesOn(old(stack.nodes), old(stack.subtreePool.store), old(stack.heads)[version].node, callback,
                     stack.heads, slices, paths)
    ensures forall i, j :: 0 <= i < j < |paths| ==> paths[i] != paths[j]
    ensures !Crowded(old(stack.nodes), old(stack.subtreePool.store), old(stack.heads)[version].node, callback) ==>
              forall q, m :: Pops(old(stack.nodes), old(stack.subtreePool.store), old(stack.heads)[version].node, callback, q, m) ==>
                q in paths
    ensures Grouped(stack.heads, slices)
  {
    hide Undisturbed, Trees, HeadNodes, HeadTrees, IterTrees, SliceTrees, Iterating, SlicesFor, SlicesOn, Grouped, NewVersions, Load,
         GraphOk, Popped, Pops, Crowded;
    ghost var g, s, heads0, n := stack.nodes, stack.subtreePool.store, stack.heads, stack.heads[version].node;
    var its := [Iterator(stack.heads[version].node, [], 0, true)];
    slices, paths := [], [];
    ghost var capped := false;
    ghost var tips: seq<seq<nat>> := [[]];
    StartPopping(stack, version, callback, keep);
    while |its| > 0
      invariant Popping(stack, g, s, heads0, n, callback, its, tips, slices, paths, capped, keep)
      decreases Load(stack.level, g, its)
    {
      var i, size := 0, |its|;
      ghost var load := Load(stack.level, g, its);
      while i < size
        invariant i <= size <= |its| && Load(stack.level, g, its) <= load
        invariant Load(stack.level, g, its) == load ==> i == 0 && size > 0
        invariant Popping(stack, g, s, heads0, n, callback, its, tips, slices, paths, capped, keep)
        decreases Load(stack.level, g, its)
      {
        var stopped;
        its, slices, stopped, tips, paths, capped :=
          HandleIterator(stack, version, callback, its, i, slices, g, s, heads0, n, tips, paths, capped, keep);
        if stopped {
          size := size - 1;
        } else {
          i := i + 1;
        }
      }
    }
    NothingLeft(g, s, n, callback, its, tips, paths, capped, keep, slices);
    SlicesAre(stack.level, g, s, n, callback, stack.heads, slices, paths);
  }

  /** In terms of what lies on the paths. */
  lemma SlicesAre(level: Key -> nat, g: Graph, s: Store, n: NodeId, callback: Callback, heads: seq<Head>, slices: seq<Slice>,
                  paths: seq<seq<nat>>)
    requires GraphOk(level, g) && IsNode(g, n)
    ensures SlicesFor(g, s, n, callback, heads, slices, paths) <==> SlicesOn(g, s, n, callback, heads, slices, paths)
    ensures forall q, m :: Pops(g, s, n, callback, q, m) ==> Popped(g, s, n, callback, q)
  {
    hide GraphOk, Popped, Pops, WalkTo, LinksOn, TreesOn, Reverse;
    forall q, m | Pops(g, s, n, callback, q, m) ensures Popped(g, s, n, callback, q) {
      PoppedIs(level, g, s, n, callback, q, m);
    }
    if |slices| == |paths| {
      forall i | 0 <= i < |slices|
        ensures SliceFor(g, s, n, callback, heads, slices[i], paths[i]) <==> SliceOn(g, s, n, callback, heads, slices[i], paths[i])
      {
        SliceIs(level, g, s, n, callback, heads, slices[i], paths[i]);
      }
    }
  }

  lemma SliceIs(level: Key -> nat, g: Graph, s: Store, n: NodeId, callback: Callback, heads: seq<Head>, slice: Slice, path: seq<nat>)
    requires GraphOk(level, g) && IsNode(g, n)
    ensures SliceFor(g, s, n, callback, heads, slice, path) <==> SliceOn(g, s, n, callback, heads, slice, path)
  {
    hide GraphOk, WalkTo, LinksOn, TreesOn, Reverse, Answer, ActionAt;
    if slice.version < |heads| {
      PoppedIs(level, g, s, n, callback, path, heads[slice.version].node);
      WalkFollows(level, g, s, n, path);
    }
  }

  lemma StartIterating(g: Graph, s: Store, heads: seq<Head>, n: NodeId, callback: Callback, keep: multiset<Ref>)
    requires forall r :: r in Trees(g) ==> ValidRef(s, r)
    ensures var its, tips := [Iterator(n, [], 0, true)], [[]];
            && Undisturbed(g, s, g, s) && Iterating(g, s, n, callback, its, tips, [], false)
            && SlicesFor(g, s, n, callback, heads, [], []) && Grouped(heads, []) && Extended(heads, heads)
            && NewVersions(|heads|, |heads|, []) && keep + SliceTrees([]) + IterTrees(its) == keep
  {
    hide Trees;
    var its, tips: seq<seq<nat>> := [Iterator(n, [], 0, true)], [[]];
    GatherOne(its[0], IterTree);
    forall q | Popped(g, s, n, callback, q) ensures Through(tips, q) {
      assert tips[0] <= q;
    }
  }

  ghost method StartPopping(stack: Stack, version: nat, callback: Callback, keep: multiset<Ref>)
    requires stack.Valid(keep) && version < |stack.heads| && IsNode(stack.nodes, stack.heads[version].node)
    ensures Popping(stack, stack.nodes, stack.subtreePool.store, stack.heads, stack.heads[version].node, callback,
                    [Iterator(stack.heads[version].node, [], 0, true)], [[]], [], [], false, keep)
  {
    hide Trees, HeadNodes, HeadTrees, Undisturbed, Iterating, SlicesFor, Grouped, NewVersions, SliceTrees, IterTrees;
    stack.TreesAreValid(HeadNodes(stack.heads) + multiset{stack.baseNode}, HeadTrees(stack.heads) + keep);
    StartIterating(stack.nodes, stack.subtreePool.store, stack.heads, stack.heads[version].node, callback, keep);
  }

  lemma NothingLeft(g: Graph, s: Store, n: NodeId, callback: Callback, its: seq<Iterator>, tips: seq<seq<nat>>,
                    paths: seq<seq<nat>>, capped: bool, keep: multiset<Ref>, slices: seq<Slice>)
    requires Iterating(g, s, n, callback, its, tips, paths, capped) && its == []
    ensures if capped then Crowded(g, s, n, callback) else forall q :: Popped(g, s, n, callback, q) ==> q in paths
    ensures forall i, j :: 0 <= i < j < |paths| ==> paths[i] != paths[j]
    ensures keep + SliceTrees(slices) + IterTrees(its) == keep + SliceTrees(slices)
  {
    hide Popped, Taken, WalkTo, Crowded;
  }

  // ----- popping a number of subtrees ----------------------------------------------------------

  /** The path holds `goal` counted subtrees, and no beginning of it holds as many. */
  ghost predicate HoldsJust(g: Graph, s: Store, n: NodeId, goal: nat, path: seq<nat>, m: NodeId) {
    && Leads(g, n, path, m) && CountOn(s, LinksOn(g, n, path)) == goal
    && forall k: nat :: k < |path| ==> CountOn(s, LinksOn(g, n, path[..k])) < goal
  }

  /** A longer path counts no less. */
  lemma {:induction false} CountGrows(g: Graph, s: Store, n: NodeId, path: seq<nat>, k: nat)
    requires k <= |path|
    ensures CountOn(s, LinksOn(g, n, path[..k])) <= CountOn(s, LinksOn(g, n, path))
    decreases |path|
  {
    if k == 0 {
      assert path[..k] == [];
    } else if IsNode(g, n) && path[0] < |g[n].links| {
      assert path[..k][1..] == path[1..][..k - 1];
      CountGrows(g, s, g[n].links[path[0]].node, path[1..], k - 1);
    }
  }

  /** Popping `goal` subtrees pops the paths that hold just so many, and no longer ones. */
  lemma PopCountPaths(g: Graph, s: Store, n: NodeId, goal: nat, path: seq<nat>, m: NodeId)
    ensures Pops(g, s, n, PopCount(goal), path, m) <==> HoldsJust(g, s, n, goal, path, m)
  {
    hide Leads, LinksOn, CountOn, AllPending;
    forall k: nat | k < |path|
      ensures CountOn(s, LinksOn(g, n, path[..k])) <= CountOn(s, LinksOn(g, n, path))
    {
      CountGrows(g, s, n, path, k);
    }
    if Leads(g, n, path, m) {
      forall k: nat | k < |path| ensures exists x: NodeId :: Leads(g, n, path[..k], x) {
        var x := PathBegins(g, n, path, m, k);
      }
    }
  }

  /** Pop `count` subtrees off a version along every path. */
  method PopSubtrees(stack: Stack, version: nat, count: nat, ghost keep: multiset<Ref>)
    returns (slices: seq<Slice>, ghost paths: seq<seq<nat>>)
    requires stack.Valid(keep) && version < |stack.heads| && IsNode(stack.nodes, stack.heads[version].node)
    modifies stack`heads, stack`nodes, stack.subtreePool
    ensures stack.Valid(keep + SliceTrees(slices))
    ensures Undisturbed(old(stack.nodes), old(stack.subtreePool.store), stack.nodes, stack.subtreePool.store)
    ensures Extended(old(stack.heads), stack.heads) && NewVersions(|old(stack.heads)|, |stack.heads|, slices)
    ensures Grouped(stack.heads, slices)
    ensures |slices| == |paths| && forall i, j :: 0 <= i < j < |paths| ==> paths[i] != paths[j]
    ensures forall i :: 0 <= i < |slices| ==>
              && slices[i].version < |stack.heads|
              && HoldsJust(old(stack.nodes), old(stack.subtreePool.store), old(stack.heads)[version].node, count,
                           paths[i], stack.heads[slices[i].version].node)
              && slices[i].subtrees == Reverse(TreesOn(LinksOn(old(stack.nodes), old(stack.heads)[version].node, paths[i])))
    ensures !Crowded(old(stack.nodes), old(stack.subtreePool.store), old(stack.heads)[version].node, PopCount(count)) ==>
              forall q, m :: HoldsJust(old(stack.nodes), old(stack.subtreePool.store), old(stack.heads)[version].node, count, q, m) ==>
                q in paths
  {
    hide Undisturbed, Trees, HeadNodes, HeadTrees, SliceTrees, Grouped, NewVersions, Pops, HoldsJust, Crowded;
    ghost var g, s, n := stack.nodes, stack.subtreePool.store, stack.heads[version].node;
    slices, paths := Iterate(stack, version, PopCount(count), keep);
    forall q, m ensures Pops(g, s, n, PopCount(count), q, m) <==> HoldsJust(g, s, n, count, q, m) {
      PopCountPaths(g, s, n, count, q, m);
    }
    forall i | 0 <= i < |slices| ensures SliceOn(g, s, n, PopCount(count), stack.heads, slices[i], paths[i]) {
    }
  }

  /** Popping everything pops the paths that lead to a node without links. */
  lemma PopAllPaths(g: Graph, s: Store, n: NodeId, path: seq<nat>, m: NodeId)
    ensures Pops(g, s, n, PopAll(), path, m) <==> Leads(g, n, path, m) && LinkCount(g, m) == 0
  {
  }

  /** Pop everything off a version, along every path down to the base. */
  method PopAllSubtrees(stack: Stack, version: nat, ghost keep: multiset<Ref>)
    returns (slices: seq<Slice>, ghost paths: seq<seq<nat>>)
    requires stack.Valid(keep) && version < |stack.heads| && IsNode(stack.nodes, stack.heads[version].node)
    modifies stack`heads, stack`nodes, stack.subtreePool
    ensures stack.Valid(keep + SliceTrees(slices))
    ensures Undisturbed(old(stack.nodes), old(stack.subtreePool.store), stack.nodes, stack.subtreePool.store)
    ensures Extended(old(stack.heads), stack.heads) && NewVersions(|old(stack.heads)|, |stack.heads|, slices)
    ensures Grouped(stack.heads, slices)
    ensures |slices| == |paths| && forall i, j :: 0 <= i < j < |paths| ==> paths[i] != paths[j]
    ensures var g, n := old(stack.nodes), old(stack.heads)[version].node;
            forall i :: 0 <= i < |slices| ==>
              && slices[i].version < |stack.heads|
              && Leads(g, n, paths[i], stack.heads[slices[i].version].node) && LinkCount(g, stack.heads[slices[i].version].node) == 0
              && slices[i].subtrees == Reverse(TreesOn(LinksOn(g, n, paths[i])))
    ensures var g, s, n := old(stack.nodes), old(stack.subtreePool.store), old(stack.heads)[version].node;
            !Crowded(g, s, n, PopAll()) ==> forall q, m :: Leads(g, n, q, m) && LinkCount(g, m) == 0 ==> q in paths
  {
    hide Undisturbed, Trees, HeadNodes, HeadTrees, SliceTrees, Grouped, NewVersions, Pops, Leads, LinksOn, TreesOn, Crowded;
    ghost var g, s, n := stack.nodes, stack.subtreePool.store, stack.heads[version].node;
    slices, paths := Iterate(stack, version, PopAll(), keep);
    forall q, m ensures Pops(g, s, n, PopAll(), q, m) <==> Leads(g, n, q, m) && LinkCount(g, m) == 0 {
      PopAllPaths(g, s, n, q, m);
    }
    forall i | 0 <= i < |slices| ensures SliceOn(g, s, n, PopAll(), stack.heads, slices[i], paths[i]) {
    }
  }

  function RefsBytes(s: Store, refs: seq<Ref>): nat {
    if refs == [] then 0 else RefsBytes(s, refs[..|refs| - 1]) + TreeBytes(s, Some(refs[|refs| - 1]))
  }

  function RefsCost(s: Store, refs: seq<Ref>): nat {
    if refs == [] then 0 else RefsCost(s, refs[..|refs| - 1]) + TreeCost(s, Some(refs[|refs| - 1]))
  }

  /** What an iterator has collected covers the stack from its node up. */
  lemma {:induction false} WalkIsExact(g: Graph, s: Store, n: NodeId, path: seq<nat>)
    requires Exact(g, s) && IsNode(g, n) && WalkTo(g, s, n, path).At?
    ensures var w := WalkTo(g, s, n, path).it;
            && IsNode(g, w.node)
            && g[n].position.bytes == g[w.node].position.bytes + RefsBytes(s, w.subtrees)
            && g[n].errorCost == g[w.node].errorCost + RefsCost(s, w.subtrees)
    decreases |path|
  {
    if path != [] {
      var front, k := path[..|path| - 1], path[|path| - 1];
      WalkIsExact(g, s, n, front);
      var w := WalkTo(g, s, n, front).it;
      var link := g[w.node].links[k];
      assert Fits(g, s, w.node, link);
      if link.subtree.Some? {
        assert (w.subtrees + [link.subtree.ref])[..|w.subtrees|] == w.subtrees;
      }
    }
  }

  /** Slices of the same version are alternatives: they cover the same bytes at the same cost. */
  lemma SlicesOfOneVersion(level: Key -> nat, g: Graph, s: Store, n: NodeId, callback: Callback, heads: seq<Head>,
                           slices: seq<Slice>, paths: seq<seq<nat>>, i: nat, j: nat)
    requires Exact(g, s) && GraphOk(level, g) && IsNode(g, n) && SlicesOn(g, s, n, callback, heads, slices, paths)
    requires i < |slices| && j < |slices| && slices[i].version == slices[j].version
    ensures RefsBytes(s, Reverse(slices[i].subtrees)) == RefsBytes(s, Reverse(slices[j].subtrees))
    ensures RefsCost(s, Reverse(slices[i].subtrees)) == RefsCost(s, Reverse(slices[j].subtrees))
  {
    SlicesAre(level, g, s, n, callback, heads, slices, paths);
    hide WalkTo, RefsBytes, RefsCost, GraphOk;
    assert SliceFor(g, s, n, callback, heads, slices[i], paths[i]) && SliceFor(g, s, n, callback, heads, slices[j], paths[j]);
    WalkIsExact(g, s, n, paths[i]);
    WalkIsExact(g, s, n, paths[j]);
    Twice(WalkTo(g, s, n, paths[i]).it.subtrees);
    Twice(WalkTo(g, s, n, paths[j]).it.subtrees);
  }

  lemma Twice<T>(xs: seq<T>)
    ensures Reverse(Reverse(xs)) == xs
  {
  }
}
