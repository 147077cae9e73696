/** The elementary changes of the stack graph, and what each keeps. */
module StackSteps {
  import opened Lengths
  import opened Subtrees
  import opened SubtreePools
  import opened Gathering
  import opened StackGraphs

  lemma SetNode(g: Graph, n: NodeId, x: Node)
    requires n < |g|
    ensures Targets(g[n := x]) + NodeTargets(g[n]) == Targets(g) + NodeTargets(x)
    ensures Trees(g[n := x]) + NodeTrees(g[n]) == Trees(g) + NodeTrees(x)
    ensures NodeTargets(g[n]) <= Targets(g) && NodeTrees(g[n]) <= Trees(g)
  {
    GatherUpdate(g, n, x, NodeTargets);
    GatherUpdate(g, n, x, NodeTrees);
  }

  /** A node that differs in its numbers only. */
  predicate SameLinks(x: Node, y: Node) {
    x.Node? && y.Node? && x.state == y.state && x.position == y.position && x.links == y.links && x.errorCost == y.errorCost
  }

  /** A node may be rewritten as long as its key stays and its links stay, go down and fit. */
  lemma ShapeKeeps(level: Key -> nat, g: Graph, n: NodeId, x: Node, s: Store)
    requires IsNode(g, n) && x.Node? && x.state == g[n].state && x.position == g[n].position && x.errorCost == g[n].errorCost
    requires |g[n].links| <= |x.links| <= MAX_LINK_COUNT
    requires forall i :: 0 <= i < |g[n].links| ==> x.links[i].node == g[n].links[i].node
    requires forall i :: 0 <= i < |x.links| ==>
               Fits(g, s, n, x.links[i]) && level(KeyOf(g, x.links[i].node)) < level(KeyOf(g, n))
    requires GraphOk(level, g) && Exact(g, s)
    ensures GraphOk(level, g[n := x]) && Exact(g[n := x], s) && Grown(g, g[n := x])
  {
    var u := g[n := x];
    forall m: NodeId | IsNode(u, m) ensures NodeOk(level, u, m) {
      assert NodeOk(level, g, m);
    }
    forall m: NodeId, link: Link | IsNode(u, m) && link in u[m].links ensures Fits(u, s, m, link) {
      if m != n {
        assert link in g[m].links && Fits(g, s, m, link);
      }
    }
  }

  lemma LinksFit(level: Key -> nat, g: Graph, n: NodeId, s: Store)
    requires IsNode(g, n) && GraphOk(level, g) && Exact(g, s)
    ensures |g[n].links| <= MAX_LINK_COUNT
    ensures forall i :: 0 <= i < |g[n].links| ==>
              Fits(g, s, n, g[n].links[i]) && level(KeyOf(g, g[n].links[i].node)) < level(KeyOf(g, n))
  {
    assert NodeOk(level, g, n);
  }

  lemma NumbersKeep(level: Key -> nat, g: Graph, n: NodeId, x: Node, s: Store)
    requires IsNode(g, n) && SameLinks(g[n], x) && GraphOk(level, g) && Exact(g, s)
    ensures Targets(g[n := x]) == Targets(g) && Trees(g[n := x]) == Trees(g)
    ensures Grown(g, g[n := x]) && Shrunk(g, g[n := x]) && GraphOk(level, g[n := x]) && Exact(g[n := x], s)
  {
    hide GraphOk, Exact, Grown, Targets, Trees;
    NumbersGather(g, n, x);
    LinksFit(level, g, n, s);
    ShapeKeeps(level, g, n, x, s);
  }

  lemma NumbersGather(g: Graph, n: NodeId, x: Node)
    requires IsNode(g, n) && SameLinks(g[n], x)
    ensures Targets(g[n := x]) == Targets(g) && Trees(g[n := x]) == Trees(g)
  {
    SetNode(g, n, x);
    CancelRight(Targets(g[n := x]), Targets(g), NodeTargets(g[n]));
    CancelRight(Trees(g[n := x]), Trees(g), NodeTrees(g[n]));
  }

  function Raised(x: Node): Node
    requires x.Node?
  {
    x.(refCount := x.refCount + 1)
  }

  lemma RetainCounts(g: Graph, n: NodeId, held: multiset<NodeId>)
    requires IsNode(g, n) && NodesCounted(g, held)
    requires Targets(g[n := Raised(g[n])]) == Targets(g)
    ensures NodesCounted(g[n := Raised(g[n])], held + multiset{n})
  {
    hide Targets;
    var u := g[n := Raised(g[n])];
    forall m: NodeId | IsNode(u, m) ensures u[m].refCount == Targets(u)[m] + (held + multiset{n})[m] && u[m].refCount > 0 {
      assert IsNode(g, m);
    }
  }

  function Lowered(x: Node): Node
    requires x.Node? && x.refCount > 0
  {
    x.(refCount := x.refCount - 1)
  }

  lemma LowerCounts(g: Graph, n: NodeId, held: multiset<NodeId>)
    requires IsNode(g, n) && g[n].refCount > 1 && NodesCounted(g, held + multiset{n})
    requires Targets(g[n := Lowered(g[n])]) == Targets(g)
    ensures NodesCounted(g[n := Lowered(g[n])], held)
  {
    hide Targets;
    var u := g[n := Lowered(g[n])];
    forall m: NodeId | IsNode(u, m) ensures u[m].refCount == Targets(u)[m] + held[m] && u[m].refCount > 0 {
      assert IsNode(g, m);
      assert m != n ==> (held + multiset{n})[m] == held[m];
    }
    forall m | m in held ensures IsNode(u, m) {
      assert m in held + multiset{n};
    }
  }

  /** A node that loses its last reference leaves the references it holds to whoever freed it. */
  lemma FreeKeeps(level: Key -> nat, g: Graph, n: NodeId, held: multiset<NodeId>, s: Store)
    requires IsNode(g, n) && g[n].refCount == 1 && NodesCounted(g, held + multiset{n}) && GraphOk(level, g) && Exact(g, s)
    ensures var u := g[n := FreeNode];
            && NodesCounted(u, held + NodeTargets(g[n])) && GraphOk(level, u) && Exact(u, s) && Shrunk(g, u)
            && Trees(g) == Trees(u) + NodeTrees(g[n])
  {
    hide GraphOk, Exact, NodesCounted, Targets, Trees, NodeTargets, NodeTrees;
    FreeGathers(g, n);
    NobodyRefers(g, n, held);
    FreeShape(level, g, n, s);
    OwnTargets(level, g, n);
    FreeCounts(g, n, held);
  }

  lemma FreeGathers(g: Graph, n: NodeId)
    requires IsNode(g, n)
    ensures Targets(g[n := FreeNode]) + NodeTargets(g[n]) == Targets(g)
    ensures Trees(g) == Trees(g[n := FreeNode]) + NodeTrees(g[n])
  {
    SetNode(g, n, FreeNode);
  }

  lemma NobodyRefers(g: Graph, n: NodeId, held: multiset<NodeId>)
    requires IsNode(g, n) && g[n].refCount == 1 && NodesCounted(g, held + multiset{n})
    ensures n !in held
    ensures forall m: NodeId, i: nat :: IsNode(g, m) && i < |g[m].links| ==> g[m].links[i].node != n
  {
    hide Targets, Trees;
    assert g[n].refCount == Targets(g)[n] + (held + multiset{n})[n];
    forall m: NodeId, i: nat | IsNode(g, m) && i < |g[m].links| ensures g[m].links[i].node != n {
      LinkIsCounted(g, m, i);
    }
  }

  lemma FreeShape(level: Key -> nat, g: Graph, n: NodeId, s: Store)
    requires IsNode(g, n) && GraphOk(level, g) && Exact(g, s)
    requires forall m: NodeId, i: nat :: IsNode(g, m) && i < |g[m].links| ==> g[m].links[i].node != n
    ensures var u := g[n := FreeNode]; GraphOk(level, u) && Exact(u, s) && Shrunk(g, u)
  {
    var u := g[n := FreeNode];
    forall m: NodeId | IsNode(u, m) ensures NodeOk(level, u, m) {
      assert NodeOk(level, g, m);
    }
    forall m: NodeId, link: Link | IsNode(u, m) && link in u[m].links ensures Fits(u, s, m, link) {
      assert link in g[m].links && Fits(g, s, m, link);
      var i :| 0 <= i < |g[m].links| && g[m].links[i] == link;
    }
  }

  lemma OwnTargets(level: Key -> nat, g: Graph, n: NodeId)
    requires IsNode(g, n) && GraphOk(level, g)
    ensures forall m :: m in NodeTargets(g[n]) ==> IsNode(g, m) && m != n
  {
    assert NodeOk(level, g, n);
    forall m | m in NodeTargets(g[n]) ensures IsNode(g, m) && m != n {
      var i := GatheredFrom(g[n].links, m, TargetOf);
    }
  }

  lemma FreeCounts(g: Graph, n: NodeId, held: multiset<NodeId>)
    requires IsNode(g, n) && NodesCounted(g, held + multiset{n}) && n !in held
    requires var u := g[n := FreeNode]; Targets(u) + NodeTargets(g[n]) == Targets(g)
    requires forall m :: m in NodeTargets(g[n]) ==> IsNode(g, m) && m != n
    ensures NodesCounted(g[n := FreeNode], held + NodeTargets(g[n]))
  {
    hide NodeTargets, Targets;
    var u := g[n := FreeNode];
    forall m: NodeId | IsNode(u, m)
      ensures u[m].refCount == Targets(u)[m] + (held + NodeTargets(g[n]))[m] && u[m].refCount > 0
    {
      assert IsNode(g, m);
      assert Targets(g)[m] == Targets(u)[m] + NodeTargets(g[n])[m];
    }
    forall m | m in held + NodeTargets(g[n]) ensures IsNode(u, m) {
      assert m in held ==> m in held + multiset{n};
    }
  }

  /** A link with the given numbers of its node recomputed. */
  function LinkAdded(g: Graph, n: NodeId, link: Link, nodeCount: nat, dynamicPrecedence: int): Graph
    requires IsNode(g, n) && IsNode(g, link.node)
  {
    var u := g[link.node := Raised(g[link.node])];
    u[n := u[n].(links := u[n].links + [link], nodeCount := nodeCount, dynamicPrecedence := dynamicPrecedence)]
  }

  lemma AddKeeps(level: Key -> nat, g: Graph, n: NodeId, link: Link, nodeCount: nat, dynamicPrecedence: int,
                 held: multiset<NodeId>, s: Store)
    requires IsNode(g, n) && IsNode(g, link.node) && level(KeyOf(g, link.node)) < level(KeyOf(g, n))
    requires NodesCounted(g, held) && GraphOk(level, g) && Exact(g, s) && |g[n].links| < MAX_LINK_COUNT
    requires Fits(g, s, n, link)
    ensures var u := LinkAdded(g, n, link, nodeCount, dynamicPrecedence);
            && NodesCounted(u, held) && GraphOk(level, u) && Exact(u, s) && Grown(g, u)
            && Trees(u) == Trees(g) + Handles(link.subtree)
            && u[n].links == g[n].links + [link]
            && forall m: NodeId :: m < |g| && g[m].FreeNode? ==> m < |u| && u[m].FreeNode?
  {
    hide NodeTargets, NodeTrees, Targets, Trees, GraphOk, NodesCounted, Exact;
    var t := link.node;
    var v := g[t := Raised(g[t])];
    NumbersKeep(level, g, t, Raised(g[t]), s);
    RetainCounts(g, t, held);
    AppendKeeps(level, v, n, link, nodeCount, dynamicPrecedence, held, s);
    GrownTransitive(g, v, LinkAdded(g, n, link, nodeCount, dynamicPrecedence));
  }

  lemma AppendKeeps(level: Key -> nat, g: Graph, n: NodeId, link: Link, nodeCount: nat, dynamicPrecedence: int,
                    held: multiset<NodeId>, s: Store)
    requires IsNode(g, n) && IsNode(g, link.node) && level(KeyOf(g, link.node)) < level(KeyOf(g, n))
    requires NodesCounted(g, held + multiset{link.node}) && GraphOk(level, g) && Exact(g, s)
    requires |g[n].links| < MAX_LINK_COUNT && Fits(g, s, n, link)
    ensures var u := g[n := g[n].(links := g[n].links + [link], nodeCount := nodeCount, dynamicPrecedence := dynamicPrecedence)];
            && NodesCounted(u, held) && GraphOk(level, u) && Exact(u, s) && Grown(g, u)
            && Trees(u) == Trees(g) + Handles(link.subtree)
  {
    hide GraphOk, Exact, Grown, Targets, Trees;
    var x := g[n].(links := g[n].links + [link], nodeCount := nodeCount, dynamicPrecedence := dynamicPrecedence);
    AppendGathers(g, n, link, x);
    LinksFit(level, g, n, s);
    ShapeKeeps(level, g, n, x, s);
    MoveToTargets(g, g[n := x], held, link.node);
  }

  lemma AppendGathers(g: Graph, n: NodeId, link: Link, x: Node)
    requires IsNode(g, n) && x.Node? && x.links == g[n].links + [link]
    ensures Targets(g[n := x]) == Targets(g) + multiset{link.node}
    ensures Trees(g[n := x]) == Trees(g) + Handles(link.subtree)
  {
    SetNode(g, n, x);
    GatherAppend(g[n].links, link, TargetOf);
    GatherAppend(g[n].links, link, TreeOf);
    assert NodeTargets(x) == NodeTargets(g[n]) + multiset{link.node} && NodeTrees(x) == NodeTrees(g[n]) + Handles(link.subtree);
    CancelMiddle(Targets(g[n := x]), Targets(g), NodeTargets(g[n]), multiset{link.node});
    CancelMiddle(Trees(g[n := x]), Trees(g), NodeTrees(g[n]), Handles(link.subtree));
  }

  /** A handle that becomes a link is counted as before. */
  lemma MoveToTargets(g: Graph, u: Graph, held: multiset<NodeId>, t: NodeId)
    requires NodesCounted(g, held + multiset{t}) && Targets(u) == Targets(g) + multiset{t} && |u| == |g|
    requires forall m: NodeId :: m < |g| ==> u[m].Node? == g[m].Node? && (g[m].Node? ==> u[m].refCount == g[m].refCount)
    ensures NodesCounted(u, held)
  {
    hide Targets;
    forall m: NodeId | IsNode(u, m) ensures u[m].refCount == Targets(u)[m] + held[m] && u[m].refCount > 0 {
      assert IsNode(g, m) && g[m].refCount == Targets(g)[m] + (held + multiset{t})[m];
    }
    forall m | m in held ensures IsNode(u, m) {
      assert m in held + multiset{t};
    }
  }

  lemma CancelMiddle<T>(after: multiset<T>, before: multiset<T>, part: multiset<T>, more: multiset<T>)
    requires after + part == before + (part + more)
    ensures after == before + more
  {
    forall x ensures after[x] == (before + more)[x] {
      assert (after + part)[x] == (before + (part + more))[x];
    }
  }

  function TreeReplaced(x: Node, i: nat, t: StackTree, dynamicPrecedence: int): Node
    requires x.Node? && i < |x.links|
  {
    x.(links := x.links[i := x.links[i].(subtree := t)], dynamicPrecedence := dynamicPrecedence)
  }

  /** Another subtree on a link, between the same nodes. */
  lemma ReplaceKeeps(level: Key -> nat, g: Graph, n: NodeId, i: nat, t: StackTree, dynamicPrecedence: int,
                     held: multiset<NodeId>, s: Store)
    requires IsNode(g, n) && i < |g[n].links| && Fits(g, s, n, g[n].links[i].(subtree := t))
    requires NodesCounted(g, held) && GraphOk(level, g) && Exact(g, s)
    ensures var u := g[n := TreeReplaced(g[n], i, t, dynamicPrecedence)];
            && NodesCounted(u, held) && GraphOk(level, u) && Exact(u, s) && Grown(g, u)
            && Trees(u) + Handles(g[n].links[i].subtree) == Trees(g) + Handles(t)
  {
    hide GraphOk, Exact, Grown, Targets, Trees;
    var x := TreeReplaced(g[n], i, t, dynamicPrecedence);
    ReplaceGathers(g, n, i, t, dynamicPrecedence);
    LinksFit(level, g, n, s);
    ShapeKeeps(level, g, n, x, s);
    SameCounted(g, g[n := x], held);
  }

  lemma SameCounted(g: Graph, u: Graph, held: multiset<NodeId>)
    requires NodesCounted(g, held) && Targets(u) == Targets(g) && |u| == |g|
    requires forall m: NodeId :: m < |g| ==> u[m].Node? == g[m].Node? && (g[m].Node? ==> u[m].refCount == g[m].refCount)
    ensures NodesCounted(u, held)
  {
    hide Targets;
    forall m: NodeId | IsNode(u, m) ensures u[m].refCount == Targets(u)[m] + held[m] && u[m].refCount > 0 {
      assert IsNode(g, m);
    }
  }

  lemma ReplaceGathers(g: Graph, n: NodeId, i: nat, t: StackTree, dynamicPrecedence: int)
    requires IsNode(g, n) && i < |g[n].links|
    ensures var u := g[n := TreeReplaced(g[n], i, t, dynamicPrecedence)];
            && Targets(u) == Targets(g)
            && Trees(u) + Handles(g[n].links[i].subtree) == Trees(g) + Handles(t)
  {
    var x := TreeReplaced(g[n], i, t, dynamicPrecedence);
    var u, l := g[n := x], g[n].links[i].(subtree := t);
    SetNode(g, n, x);
    GatherUpdate(g[n].links, i, l, TargetOf);
    GatherUpdate(g[n].links, i, l, TreeOf);
    assert NodeTargets(x) == NodeTargets(g[n]) by {
      CancelRight(NodeTargets(x), NodeTargets(g[n]), multiset{l.node});
    }
    CancelRight(Targets(u), Targets(g), NodeTargets(g[n]));
    Exchange(Trees(u), Trees(g), NodeTrees(x), NodeTrees(g[n]), Handles(g[n].links[i].subtree), Handles(t));
  }

  lemma Exchange<T>(after: multiset<T>, before: multiset<T>, new_: multiset<T>, old_: multiset<T>, out: multiset<T>, in_: multiset<T>)
    requires after + old_ == before + new_ && new_ + out == old_ + in_
    ensures after + out == before + in_
  {
    forall x ensures (after + out)[x] == (before + in_)[x] {
      assert (after + old_)[x] == (before + new_)[x] && (new_ + out)[x] == (old_ + in_)[x];
    }
  }

  // ----- new nodes -----------------------------------------------------------------------------

  /** A node put at an address that is free or just past the end. */
  ghost predicate NewAt(g: Graph, u: Graph, a: NodeId, x: Node) {
    && x.Node? && !IsNode(g, a)
    && if a == |g| then u == g + [x] else a < |g| && u == g[a := x]
  }

  lemma NewGathers(g: Graph, u: Graph, a: NodeId, x: Node)
    requires NewAt(g, u, a, x)
    ensures Targets(u) == Targets(g) + NodeTargets(x) && Trees(u) == Trees(g) + NodeTrees(x)
  {
    if a == |g| {
      GatherAppend(g, x, NodeTargets);
      GatherAppend(g, x, NodeTrees);
    } else {
      SetNode(g, a, x);
    }
  }

  /** No link leads to a free address. */
  lemma FreeIsNoTarget(level: Key -> nat, g: Graph, a: NodeId)
    requires GraphOk(level, g) && !IsNode(g, a)
    ensures a !in Targets(g)
  {
    hide Targets;
    forall m | m in Targets(g) ensures m != a {
      var n, i := CountedLink(g, m);
      assert NodeOk(level, g, n);
    }
  }

  /** The node that a push creates takes over the caller's share of the node below it. */
  lemma PushKeeps(level: Key -> nat, g: Graph, u: Graph, a: NodeId, x: Node, link: Link, held: multiset<NodeId>, s: Store)
    requires NewAt(g, u, a, x) && x.refCount == 1 && x.links == [link] && IsNode(g, link.node)
    requires NodesCounted(g, held + multiset{link.node}) && GraphOk(level, g) && Exact(g, s)
    requires x.position.bytes == g[link.node].position.bytes + TreeBytes(s, link.subtree)
    requires x.errorCost == g[link.node].errorCost + TreeCost(s, link.subtree)
    requires level(KeyOf(g, link.node)) < level(Key(x.state, x.position.bytes, x.errorCost))
    ensures NodesCounted(u, held + multiset{a}) && GraphOk(level, u) && Exact(u, s) && Grown(g, u)
    ensures Trees(u) == Trees(g) + Handles(link.subtree)
  {
    hide GraphOk, Exact, Targets, Trees, NodeTargets, NodeTrees;
    NewGathers(g, u, a, x);
    LinkGathers(x, link);
    FreeIsNoTarget(level, g, a);
    PushShape(level, g, u, a, x, link, s);
    PushCounts(g, u, a, x, held, link.node);
  }

  lemma LinkGathers(x: Node, link: Link)
    requires x.Node? && x.links == [link]
    ensures NodeTargets(x) == multiset{link.node} && NodeTrees(x) == Handles(link.subtree)
  {
    GatherOne(link, TargetOf);
    GatherOne(link, TreeOf);
  }

  lemma PushShape(level: Key -> nat, g: Graph, u: Graph, a: NodeId, x: Node, link: Link, s: Store)
    requires NewAt(g, u, a, x) && x.links == [link] && IsNode(g, link.node) && GraphOk(level, g) && Exact(g, s)
    requires x.position.bytes == g[link.node].position.bytes + TreeBytes(s, link.subtree)
    requires x.errorCost == g[link.node].errorCost + TreeCost(s, link.subtree)
    requires level(KeyOf(g, link.node)) < level(Key(x.state, x.position.bytes, x.errorCost))
    ensures GraphOk(level, u) && Exact(u, s) && Grown(g, u)
  {
    assert Grown(g, u) by {
      forall n: NodeId | IsNode(g, n) ensures IsNode(u, n) && u[n] == g[n] {
      }
    }
    forall m: NodeId | IsNode(u, m) ensures NodeOk(level, u, m) {
      if m != a {
        assert NodeOk(level, g, m);
      }
    }
    forall m: NodeId, l: Link | IsNode(u, m) && l in u[m].links ensures Fits(u, s, m, l) {
      if m != a {
        assert l in g[m].links && Fits(g, s, m, l);
      }
    }
  }

  lemma PushCounts(g: Graph, u: Graph, a: NodeId, x: Node, held: multiset<NodeId>, t: NodeId)
    requires NewAt(g, u, a, x) && x.refCount == 1 && a !in Targets(g)
    requires NodesCounted(g, held + multiset{t}) && Targets(u) == Targets(g) + multiset{t} && t != a
    ensures NodesCounted(u, held + multiset{a})
  {
    hide Targets;
    assert a !in held + multiset{t};
    forall m: NodeId | IsNode(u, m) ensures u[m].refCount == Targets(u)[m] + (held + multiset{a})[m] && u[m].refCount > 0 {
      if m != a {
        assert IsNode(g, m) && g[m].refCount == Targets(g)[m] + (held + multiset{t})[m];
      }
    }
    forall m | m in held + multiset{a} ensures IsNode(u, m) {
      assert m != a ==> m in held + multiset{t};
    }
  }

  // ----- when the subtrees' memory changes ------------------------------------------------------

  ghost predicate SameTrees(s: Store, s': Store, refs: multiset<Ref>) {
    forall r :: r in refs ==> ValidRef(s, r) && ValidRef(s', r) && RefData(s', r) == RefData(s, r)
  }

  lemma ExactInMemory(g: Graph, s: Store, s': Store)
    requires Exact(g, s) && SameTrees(s, s', Trees(g))
    ensures Exact(g, s')
  {
    hide Trees;
    forall n: NodeId, link: Link | IsNode(g, n) && link in g[n].links ensures Fits(g, s', n, link) {
      var i :| 0 <= i < |g[n].links| && g[n].links[i] == link;
      LinkIsCounted(g, n, i);
      assert Fits(g, s, n, link);
    }
  }
}
