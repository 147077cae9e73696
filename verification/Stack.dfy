/**
 * The parse stack: several versions of a parse over one graph of shared nodes. Pushing, merging,
 * copying, renumbering and removing versions keep every link exact and every count right.
 */
module Stacks {
  import opened Lengths
  import opened Subtrees
  import opened SubtreePools
  import opened Gathering
  import opened StackGraphs
  import opened StackSteps
  import opened StackHistories
  import opened StackGrowth
  import opened StackReach

  datatype Status = Active | Paused | Halted

  datatype SummaryEntry = SummaryEntry(position: Length, depth: nat, state: nat)

  datatype Summary = NoSummary | Recorded(entries: seq<SummaryEntry>)

  datatype Head = Head(
    node: NodeId, summary: Summary, nodeCountAtLastError: nat,
    lastExternalToken: StackTree, lookaheadWhenPaused: StackTree, status: Status)

  function HeadNode(h: Head): multiset<NodeId> { multiset{h.node} }

  function HeadTree(h: Head): multiset<Ref> { Handles(h.lastExternalToken) + Handles(h.lookaheadWhenPaused) }

  ghost function HeadNodes(heads: seq<Head>): multiset<NodeId> { Gather(heads, HeadNode) }

  ghost function HeadTrees(heads: seq<Head>): multiset<Ref> { Gather(heads, HeadTree) }

  /** Only a version that is not active may hold on to a lookahead. */
  predicate Settled(heads: seq<Head>) {
    forall i :: 0 <= i < |heads| && heads[i].status.Active? ==> heads[i].lookaheadWhenPaused.NullTree?
  }

  /** Nodes that go onto the free list are ones that were in use. */
  ghost predicate PooledFrom(g: Graph, before: seq<NodeId>, after: seq<NodeId>) {
    forall n :: n in after ==> n in before || IsNode(g, n)
  }

  lemma GatherNext<C, T>(xs: seq<C>, i: nat, f: C -> multiset<T>)
    requires i < |xs|
    ensures Gather(xs[..i + 1], f) == Gather(xs[..i], f) + f(xs[i])
  {
    assert xs[..i + 1] == xs[..i] + [xs[i]];
    GatherAppend(xs[..i], xs[i], f);
  }

  lemma HeldIsNode(g: Graph, held: multiset<NodeId>, n: NodeId)
    requires NodesCounted(g, held + multiset{n})
    ensures IsNode(g, n) && g[n].refCount > 0
  {
    assert n in held + multiset{n};
  }

  lemma PoolStays(g: Graph, n: NodeId, x: Node, nodePool: seq<NodeId>)
    requires NodePoolOk(g, nodePool) && IsNode(g, n)
    ensures NodePoolOk(g[n := x], nodePool) && n !in nodePool
  {
  }

  lemma SameTreesThrough(s: Store, t: Store, u: Store, refs: multiset<Ref>, fewer: multiset<Ref>)
    requires SameTrees(s, t, refs) && SameTrees(t, u, fewer) && fewer <= refs
    ensures SameTrees(s, u, fewer)
  {
  }

  class Stack {
    const subtreePool: SubtreePool
    const scannerState: StackTree -> nat
    ghost const level: Key -> nat
    var heads: seq<Head>
    var nodes: Graph
    var nodePool: seq<NodeId>
    var baseNode: NodeId

    /** The graph is in order, with exact links and counts, given the handles on nodes and subtrees. */
    ghost predicate Sound(heldNodes: multiset<NodeId>, heldTrees: multiset<Ref>)
      reads this`nodes, this`nodePool, subtreePool
    {
      && GraphOk(level, nodes) && NodesCounted(nodes, heldNodes) && NodePoolOk(nodes, nodePool)
      && subtreePool.Valid(Trees(nodes) + heldTrees) && Exact(nodes, subtreePool.store)
    }

    ghost predicate Valid(keep: multiset<Ref>)
      reads this, subtreePool
    {
      Settled(heads) && Sound(HeadNodes(heads) + multiset{baseNode}, HeadTrees(heads) + keep)
    }

    /** The subtrees as they are in memory now. */
    function Now(): Memory
      reads subtreePool
    {
      Memory(subtreePool.store, scannerState)
    }

    /** A stack with one version, on the base node. */
    constructor (subtreePool: SubtreePool, scannerState: StackTree -> nat, ghost level: Key -> nat,
                 ghost keep: multiset<Ref>)
      requires subtreePool.Valid(keep)
      ensures this.subtreePool == subtreePool && this.scannerState == scannerState && this.level == level
      ensures Valid(keep) && |heads| == 1 && heads[0].node == baseNode && KeyOf(nodes, baseNode) == Key(1, 0, 0)
      ensures nodes[baseNode].links == []
    {
      this.subtreePool, this.scannerState, this.level := subtreePool, scannerState, level;
      nodes, nodePool, baseNode := [Node(2, 1, ZERO, [], 0, 0, 0)], [], 0;
      heads := [Head(0, NoSummary, 0, NullTree, NullTree, Active)];
      new;
      FirstNode(nodes[0], heads[0], subtreePool.store);
      assert Trees(nodes) + (HeadTrees(heads) + keep) == keep;
    }

    method RetainTree(t: StackTree, ghost held: multiset<Ref>)
      requires subtreePool.Valid(held) && TreeOk(subtreePool.store, t)
      modifies subtreePool`store
      ensures subtreePool.Valid(held + Handles(t)) && SameTrees(old(subtreePool.store), subtreePool.store, held + Handles(t))
    {
      hide Linked, FreeListOk, Edges, NoneDead;
      ghost var s := subtreePool.store;
      if t.Some? {
        subtreePool.Retain(t.ref, held);
      }
      assert held + multiset{} == held;
      RaisedSame(s, subtreePool.store, t, held);
    }

    method ReleaseTree(t: StackTree, ghost keep: multiset<Ref>)
      requires subtreePool.Valid(keep + Handles(t))
      modifies subtreePool
      ensures subtreePool.Valid(keep) && SameTrees(old(subtreePool.store), subtreePool.store, keep)
    {
      hide Linked, FreeListOk, Edges, Reachable;
      ghost var s := subtreePool.store;
      if t.Some? {
        HandleCounts(s, keep, t.ref);
        subtreePool.Release(t.ref, keep);
      } else {
        assert keep + multiset{} == keep;
      }
      RemainingSame(s, subtreePool.store, keep);
    }

    /** Give up a link of a dead node: its subtree and its node. */
    method ReleaseLink(link: Link, ghost heldNodes: multiset<NodeId>, ghost heldTrees: multiset<Ref>, ghost top: nat)
      requires Sound(heldNodes + multiset{link.node}, heldTrees + Handles(link.subtree))
      requires IsNode(nodes, link.node) && level(KeyOf(nodes, link.node)) < top
      modifies this`nodes, this`nodePool, subtreePool
      ensures Sound(heldNodes, heldTrees) && Shrunk(old(nodes), nodes) && |nodes| == |old(nodes)|
      ensures SameTrees(old(subtreePool.store), subtreePool.store, Trees(nodes) + heldTrees)
      ensures PooledFrom(old(nodes), old(nodePool), nodePool)
      decreases top, 0
    {
      hide GraphOk, NodesCounted, NodePoolOk, Exact, Trees, Targets, Shrunk, SameTrees, PooledFrom, Counted, NoneDead, Linked, FreeListOk;
      ghost var g, s := nodes, subtreePool.store;
      ReleaseLinkTree(link.subtree, heldNodes + multiset{link.node}, heldTrees);
      ghost var s1 := subtreePool.store;
      ReleaseNode(link.node, heldNodes, heldTrees, level(KeyOf(nodes, link.node)));
      ShrunkTrees(g, nodes);
      TreesThrough(s, s, s1, subtreePool.store, Trees(g), Trees(nodes), heldTrees);
    }

    /**
     * Give up the references that a dead node holds, except for its first predecessor, and put the
     * node on the free list.
     */
    method ReleaseLinks(node: NodeId, links: seq<Link>, ghost heldNodes: multiset<NodeId>, ghost heldTrees: multiset<Ref>,
                        ghost top: nat)
      requires Sound(NodesLeft(links, |links|, heldNodes), TreesLeft(links, |links|, heldTrees))
      requires node < |nodes| && nodes[node].FreeNode? && node !in nodePool
      requires forall k :: 0 <= k < |links| ==> IsNode(nodes, links[k].node) && level(KeyOf(nodes, links[k].node)) < top
      modifies this`nodes, this`nodePool, subtreePool
      ensures Sound(heldNodes + if links == [] then multiset{} else multiset{links[0].node}, heldTrees)
      ensures Shrunk(old(nodes), nodes) && |nodes| == |old(nodes)|
      ensures SameTrees(old(subtreePool.store), subtreePool.store, Trees(nodes) + heldTrees)
      ensures PooledFrom(old(nodes), old(nodePool) + [node], nodePool)
      decreases top, 1
    {
      hide GraphOk, NodesCounted, NodePoolOk, Exact, Trees, Targets, Shrunk, SameTrees, PooledFrom, Counted, NoneDead,
           Linked, FreeListOk, TargetOf, TreeOf, Sound, NodesLeft, TreesLeft, Handles;
      ghost var g0, s0, p0 := nodes, subtreePool.store, nodePool;
      var i := |links|;
      TreesAreValid(NodesLeft(links, |links|, heldNodes), TreesLeft(links, |links|, heldTrees));
      Unchanged(g0, s0, p0, Trees(nodes) + TreesLeft(links, |links|, heldTrees));
      while i > 1
        invariant 0 <= i <= |links| && (i == 0 ==> links == [])
        invariant Sound(NodesLeft(links, i, heldNodes), TreesLeft(links, i, heldTrees))
        invariant Shrunk(g0, nodes) && |nodes| == |g0| && PooledFrom(g0, p0, nodePool)
        invariant SameTrees(s0, subtreePool.store, Trees(nodes) + TreesLeft(links, i, heldTrees))
      {
        i := i - 1;
        ghost var g, s, p := nodes, subtreePool.store, nodePool;
        ghost var hn, ht := NodesLeft(links, i, heldNodes), TreesLeft(links, i, heldTrees);
        LinkHeld(links, i, heldNodes, heldTrees);
        HeldNode(links[i].node, hn, TreesLeft(links, i + 1, heldTrees));
        ShrunkKey(g0, nodes, links[i].node);
        ReleaseLink(links[i], hn, ht, top);
        LinkReleased(g0, g, nodes, p0, p, nodePool, s0, s, subtreePool.store, ht, Handles(links[i].subtree));
      }
      if i > 0 {
        LinkHeld(links, 0, heldNodes, heldTrees);
        NoLinkHeld(links, heldNodes, heldTrees);
        ghost var s := subtreePool.store;
        ReleaseLinkTree(links[0].subtree, heldNodes + multiset{links[0].node}, heldTrees);
        LinkReleased(g0, nodes, nodes, p0, nodePool, nodePool, s0, s, subtreePool.store, heldTrees, Handles(links[0].subtree));
      } else {
        NoLinkHeld(links, heldNodes, heldTrees);
        assert heldNodes + multiset{} == heldNodes;
      }
      Recycle(node, g0, p0, heldNodes + if links == [] then multiset{} else multiset{links[0].node}, heldTrees);
    }

    /** Put a dead node on the free list while there is room. */
    method Recycle(node: NodeId, ghost g0: Graph, ghost p0: seq<NodeId>, ghost heldNodes: multiset<NodeId>,
                   ghost heldTrees: multiset<Ref>)
      requires Sound(heldNodes, heldTrees) && PooledFrom(g0, p0, nodePool) && Shrunk(g0, nodes) && |g0| == |nodes|
      requires node < |nodes| && g0[node].FreeNode? && node !in p0
      modifies this`nodePool
      ensures Sound(heldNodes, heldTrees) && PooledFrom(g0, p0 + [node], nodePool)
    {
      hide GraphOk, NodesCounted, NodePoolOk, Exact, Trees, Targets, Shrunk, PooledFrom, Counted, NoneDead, Linked, FreeListOk;
      PoolGrows(g0, nodes, p0, nodePool, node);
      if |nodePool| < MAX_NODE_POOL_SIZE {
        nodePool := nodePool + [node];
      }
    }

    ghost method HeldNode(n: NodeId, heldNodes: multiset<NodeId>, heldTrees: multiset<Ref>)
      requires Sound(heldNodes + multiset{n}, heldTrees)
      ensures IsNode(nodes, n)
    {
      hide Targets, Trees, Linked, Counted, NoneDead;
      HeldIsNode(nodes, heldNodes, n);
    }

    ghost method TreesAreValid(heldNodes: multiset<NodeId>, heldTrees: multiset<Ref>)
      requires Sound(heldNodes, heldTrees)
      ensures forall r :: r in Trees(nodes) + heldTrees ==> ValidRef(subtreePool.store, r)
    {
      hide Trees, Linked, Edges;
    }

    /** Give up the subtree of a link. */
    method ReleaseLinkTree(t: StackTree, ghost heldNodes: multiset<NodeId>, ghost heldTrees: multiset<Ref>)
      requires Sound(heldNodes, heldTrees + Handles(t))
      modifies subtreePool
      ensures Sound(heldNodes, heldTrees)
      ensures SameTrees(old(subtreePool.store), subtreePool.store, Trees(nodes) + heldTrees)
    {
      hide GraphOk, NodesCounted, NodePoolOk, Exact, Trees, SameTrees, Linked, Counted, NoneDead, FreeListOk;
      assert Trees(nodes) + (heldTrees + Handles(t)) == Trees(nodes) + heldTrees + Handles(t);
      ghost var s := subtreePool.store;
      ReleaseTree(t, Trees(nodes) + heldTrees);
      FewerTrees(s, subtreePool.store, Trees(nodes), heldTrees);
      ExactInMemory(nodes, s, subtreePool.store);
    }

    ghost method PoolFacts(refs: multiset<Ref>)
      requires subtreePool.Valid(refs)
      ensures forall r :: r in refs ==> ValidRef(subtreePool.store, r)
    {
      hide Linked, Edges;
    }

    /** Give up a reference to a node: it and what only it kept alive are freed, subtrees included. */
    method ReleaseNode(n: NodeId, ghost heldNodes: multiset<NodeId>, ghost heldTrees: multiset<Ref>, ghost top: nat)
      requires Sound(heldNodes + multiset{n}, heldTrees) && IsNode(nodes, n) && level(KeyOf(nodes, n)) <= top
      modifies this`nodes, this`nodePool, subtreePool
      ensures Sound(heldNodes, heldTrees) && Shrunk(old(nodes), nodes) && |nodes| == |old(nodes)|
      ensures SameTrees(old(subtreePool.store), subtreePool.store, Trees(nodes) + heldTrees)
      ensures PooledFrom(old(nodes), old(nodePool), nodePool)
      decreases top, 2
    {
      hide GraphOk, NodesCounted, NodePoolOk, Exact, Trees, Targets, Shrunk, SameTrees, PooledFrom, NodeTargets, NodeTrees,
           Counted, NoneDead, Linked, FreeListOk;
      ghost var g0, s0, p0 := nodes, subtreePool.store, nodePool;
      PoolFacts(Trees(nodes) + heldTrees);
      Unchanged(g0, s0, p0, Trees(g0) + heldTrees);
      var node := n;
      while true
        invariant Sound(heldNodes + multiset{node}, heldTrees) && Shrunk(g0, nodes) && |nodes| == |g0| && IsNode(nodes, node)
        invariant SameTrees(s0, subtreePool.store, Trees(nodes) + heldTrees) && PooledFrom(g0, p0, nodePool)
        invariant level(KeyOf(nodes, node)) <= top
        decreases level(KeyOf(nodes, node))
      {
        ghost var g, s, p := nodes, subtreePool.store, nodePool;
        HeldIsNode(g, heldNodes, node);
        if nodes[node].refCount > 1 {
          LowerKeeps(level, g, node, heldNodes, nodePool, s);
          nodes := nodes[node := Lowered(nodes[node])];
          ShrunkTransitive(g0, g, nodes);
          return;
        }
        var links := nodes[node].links;
        FreeReady(level, g, node, heldNodes, heldTrees, nodePool, s);
        nodes := nodes[node := FreeNode];
        ghost var u := nodes;
        ReleaseLinks(node, links, heldNodes, heldTrees, level(KeyOf(g, node)));
        NodeReleased(g0, g, u, nodes, p0, p, nodePool, node, s0, s, subtreePool.store, heldTrees);
        if links == [] {
          assert heldNodes + multiset{} == heldNodes;
          return;
        }
        HeldIsNode(nodes, heldNodes, links[0].node);
        ShrunkKey(g, nodes, links[0].node);
        node := links[0].node;
      }
    }

    /** One more version on a node, which shares the node and the last external token. */
    method AddShare(h: Head, ghost heldNodes: multiset<NodeId>, ghost heldTrees: multiset<Ref>)
      requires Sound(heldNodes, heldTrees) && IsNode(nodes, h.node)
      requires TreeOk(subtreePool.store, h.lastExternalToken)
      modifies this`nodes, subtreePool`store
      ensures Sound(heldNodes + multiset{h.node}, heldTrees + Handles(h.lastExternalToken))
      ensures SameTrees(old(subtreePool.store), subtreePool.store, Trees(nodes))
      ensures Shrunk(old(nodes), nodes) && Grown(old(nodes), nodes)
    {
      hide GraphOk, NodesCounted, NodePoolOk, Exact, Trees, Targets, Shrunk, Grown, Linked, Counted, NoneDead, FreeListOk, SameTrees;
      ghost var g, s := nodes, subtreePool.store;
      NumbersKeep(level, g, h.node, Raised(g[h.node]), s);
      RetainCounts(g, h.node, heldNodes);
      PoolStays(g, h.node, Raised(g[h.node]), nodePool);
      nodes := nodes[h.node := Raised(nodes[h.node])];
      RetainTree(h.lastExternalToken, Trees(nodes) + heldTrees);
      assert Trees(nodes) + heldTrees + Handles(h.lastExternalToken) == Trees(nodes) + (heldTrees + Handles(h.lastExternalToken));
      FewerTrees(s, subtreePool.store, Trees(nodes), heldTrees + Handles(h.lastExternalToken));
      ExactInMemory(nodes, s, subtreePool.store);
    }

    // ----- links -----------------------------------------------------------------------------

    ghost method LinkFacts(n: NodeId, i: nat, heldNodes: multiset<NodeId>, heldTrees: multiset<Ref>)
      requires Sound(heldNodes, heldTrees) && IsNode(nodes, n) && i < |nodes[n].links|
      ensures |nodes[n].links| <= MAX_LINK_COUNT && TreeOk(subtreePool.store, nodes[n].links[i].subtree)
      ensures Fits(nodes, subtreePool.store, n, nodes[n].links[i])
      ensures level(KeyOf(nodes, nodes[n].links[i].node)) < level(KeyOf(nodes, n))
    {
      hide Trees, Targets, Linked, Edges;
      TreesAreValid(heldNodes, heldTrees);
      LinkIsCounted(nodes, n, i);
      LinksFit(level, nodes, n, subtreePool.store);
    }

    /** Prefer another subtree on a link. */
    method ReplaceTree(self: NodeId, i: nat, t: StackTree, dynamicPrecedence: int,
                       ghost heldNodes: multiset<NodeId>, ghost heldTrees: multiset<Ref>)
      requires Sound(heldNodes, heldTrees) && IsNode(nodes, self) && i < |nodes[self].links|
      requires TreeOk(subtreePool.store, t) && Fits(nodes, subtreePool.store, self, nodes[self].links[i].(subtree := t))
      modifies this`nodes, subtreePool
      ensures Sound(heldNodes, heldTrees) && nodes == old(nodes)[self := TreeReplaced(old(nodes)[self], i, t, dynamicPrecedence)]
      ensures Grown(old(nodes), nodes) && OnlyLinks(old(nodes), nodes, {})
      ensures SameTrees(old(subtreePool.store), subtreePool.store, Trees(nodes))
    {
      hide GraphOk, NodesCounted, NodePoolOk, Exact, Trees, Targets, SameTrees, Grown, Linked, Counted, NoneDead, FreeListOk,
           OnlyLinks;
      ghost var g, s := nodes, subtreePool.store;
      LinksStay(g, g[self := TreeReplaced(g[self], i, t, dynamicPrecedence)], self);
      var before := nodes[self].links[i].subtree;
      ReplaceKeeps(level, g, self, i, t, dynamicPrecedence, heldNodes, s);
      PoolStays(g, self, TreeReplaced(g[self], i, t, dynamicPrecedence), nodePool);
      RetainTree(t, Trees(g) + heldTrees);
      ghost var s1 := subtreePool.store;
      nodes := nodes[self := TreeReplaced(nodes[self], i, t, dynamicPrecedence)];
      assert Trees(g) + heldTrees + Handles(t) == Trees(nodes) + heldTrees + Handles(before) by {
        SwapHeld(Trees(nodes), Trees(g), Handles(before), Handles(t), heldTrees);
      }
      ReleaseTree(before, Trees(nodes) + heldTrees);
      SameTreesThrough(s, s1, subtreePool.store, Trees(g) + heldTrees + Handles(t), Trees(nodes) + heldTrees);
      FewerTrees(s, subtreePool.store, Trees(nodes), heldTrees);
      ExactInMemory(nodes, s, subtreePool.store);
    }

    /** One more link, with its own share of its node and its subtree. */
    method PushLink(self: NodeId, link: Link, ghost heldNodes: multiset<NodeId>, ghost heldTrees: multiset<Ref>)
      requires Sound(heldNodes, heldTrees) && IsNode(nodes, self) && |nodes[self].links| < MAX_LINK_COUNT
      requires TreeOk(subtreePool.store, link.subtree) && Fits(nodes, subtreePool.store, self, link)
      requires level(KeyOf(nodes, link.node)) < level(KeyOf(nodes, self))
      modifies this`nodes, subtreePool
      ensures Sound(heldNodes, heldTrees) && Grown(old(nodes), nodes)
      ensures nodes == old(nodes)[link.node := Raised(old(nodes)[link.node])]
                                 [self := old(WithLink(nodes, subtreePool.store, self, link))]
      ensures IsNode(nodes, self) && nodes[self].links == old(nodes)[self].links + [link] && MoreAt(old(nodes), nodes, self)
      ensures forall n: NodeId :: IsNode(old(nodes), n) ==> IsNode(nodes, n) && old(nodes)[n].links <= nodes[n].links
      ensures SameTrees(old(subtreePool.store), subtreePool.store, Trees(nodes))
    {
      hide GraphOk, NodesCounted, NodePoolOk, Exact, Trees, Targets, SameTrees, Grown, Linked, Counted, NoneDead, FreeListOk, MoreAt;
      ghost var g, s := nodes, subtreePool.store;
      var nodeCount := nodes[link.node].nodeCount + TreeNodeCount(subtreePool.store, link.subtree);
      var dynamicPrecedence := nodes[link.node].dynamicPrecedence + TreePrecedence(subtreePool.store, link.subtree);
      if nodeCount < nodes[self].nodeCount { nodeCount := nodes[self].nodeCount; }
      if dynamicPrecedence < nodes[self].dynamicPrecedence { dynamicPrecedence := nodes[self].dynamicPrecedence; }
      AddKeeps(level, g, self, link, nodeCount, dynamicPrecedence, heldNodes, s);
      PoolKeeps(g, LinkAdded(g, self, link, nodeCount, dynamicPrecedence), nodePool);
      nodes := nodes[link.node := Raised(nodes[link.node])];
      nodes := nodes[self := nodes[self].(links := nodes[self].links + [link], nodeCount := nodeCount,
                                          dynamicPrecedence := dynamicPrecedence)];
      AddedAt(g, self, link, nodeCount, dynamicPrecedence);
      RetainTree(link.subtree, Trees(g) + heldTrees);
      assert Trees(g) + heldTrees + Handles(link.subtree) == Trees(nodes) + heldTrees;
      FewerTrees(s, subtreePool.store, Trees(nodes), heldTrees);
      ExactInMemory(nodes, s, subtreePool.store);
    }

    method SetPrecedence(self: NodeId, dynamicPrecedence: int, ghost heldNodes: multiset<NodeId>, ghost heldTrees: multiset<Ref>)
      requires Sound(heldNodes, heldTrees) && IsNode(nodes, self)
      modifies this`nodes
      ensures Sound(heldNodes, heldTrees) && nodes == old(nodes)[self := old(nodes)[self].(dynamicPrecedence := dynamicPrecedence)]
      ensures Grown(old(nodes), nodes) && OnlyLinks(old(nodes), nodes, {})
    {
      hide GraphOk, NodesCounted, NodePoolOk, Exact, Trees, Targets, Grown, Linked, Counted, NoneDead, FreeListOk, OnlyLinks;
      LinksStay(nodes, nodes[self := nodes[self].(dynamicPrecedence := dynamicPrecedence)], self);
      NumbersKeep(level, nodes, self, nodes[self].(dynamicPrecedence := dynamicPrecedence), subtreePool.store);
      PoolStays(nodes, self, nodes[self].(dynamicPrecedence := dynamicPrecedence), nodePool);
      SameCounted(nodes, nodes[self := nodes[self].(dynamicPrecedence := dynamicPrecedence)], heldNodes);
      nodes := nodes[self := nodes[self].(dynamicPrecedence := dynamicPrecedence)];
    }

    /**
     * Add a link to a node. A link that says the same as an old one is merged into it: the subtree of
     * higher precedence is kept, or the nodes they lead to are merged. Any other link is kept exactly if
     * there is room for it. Nothing that could be read over the link is lost unless some node has run
     * out of room for links.
     */
    method AddLink(self: NodeId, link: Link, ghost heldNodes: multiset<NodeId>, ghost heldTrees: multiset<Ref>)
      requires Sound(heldNodes, heldTrees) && IsNode(nodes, self) && TreeOk(subtreePool.store, link.subtree)
      requires Fits(nodes, subtreePool.store, self, link) && level(KeyOf(nodes, link.node)) < level(KeyOf(nodes, self))
      modifies this`nodes, subtreePool
      ensures Sound(heldNodes, heldTrees) && GrownIn(old(nodes), old(Now()), nodes, Now())
      ensures !FullBelow(nodes, self) ==> ReadsAllOver(old(nodes), old(Now()), link, nodes, Now(), self)
      ensures IsNode(old(nodes), link.node) && self < |nodes| && KeptBeside(level, old(nodes), nodes, self)
      ensures old(Unmatched(nodes, Now(), self, link)) ==>
                if |old(nodes)[self].links| < MAX_LINK_COUNT
                then nodes[self] == old(WithLink(nodes, subtreePool.store, self, link))
                else nodes == old(nodes)
      ensures old(Unmatched(nodes, Now(), self, link)) ==>
                (ReadsAllOver(old(nodes), old(Now()), link, nodes, Now(), self) <==> |old(nodes)[self].links| < MAX_LINK_COUNT)
      ensures forall i: nat :: old(FirstMatch(nodes, Now(), self, i, link)) ==>
                if old(nodes)[self].links[i].node == link.node
                then nodes == old(nodes)[self := old(WithPreferred(nodes, subtreePool.store, self, i, link))]
                else nodes[self] == WithMerged(old(nodes), subtreePool.store, self, link)
      ensures OnlyLinks(old(nodes), nodes, {(old(KeyOf(nodes, self)), old(KeyOf(nodes, link.node)))})
      decreases level(KeyOf(nodes, self)), 0
    {
      hide GraphOk, NodesCounted, NodePoolOk, Exact, Trees, Targets, Grown, GrownIn, Linked, Counted, NoneDead, FreeListOk,
           Sound, Equivalent, LabelOf, ReadsAllOver, FullBelow, OnlyLinks, MoreAt, SameTrees, KeptBeside, Matches, Unmatched, FirstMatch,
           WithLink, TreePrecedence, TreeReplaced;
      ghost var g, m, extra := nodes, Now(), {(KeyOf(nodes, self), KeyOf(nodes, link.node))};
      OnlyOld(g);
      OnlyMore(g, g, {}, extra);
      if link.node == self { return; }
      var i := 0;
      while i < |nodes[self].links|
        invariant nodes == g && subtreePool.store == m.store && Sound(heldNodes, heldTrees)
        invariant forall k: nat :: k < i && k < |g[self].links| ==> !Matches(g, m, self, k, link)
      {
        var existing := nodes[self].links[i];
        LinkFacts(self, i, heldNodes, heldTrees);
        EquivalentMatches(g, m, self, i, link);
        if Equivalent(Now(), existing.subtree, link.subtree) {
          if existing.node == link.node {
            OnlyMatch(level, g, m, self, i, link);
            if TreePrecedence(subtreePool.store, link.subtree) > TreePrecedence(subtreePool.store, existing.subtree) {
              var precedence := nodes[link.node].dynamicPrecedence + TreePrecedence(subtreePool.store, link.subtree);
              ReplaceTree(self, i, link.subtree, precedence, heldNodes, heldTrees);
              Preferred(g, m, nodes, Now(), self, i, link, precedence);
              BesideOne(level, g, g, self, nodes[self]);
            } else {
              GrownInItself(g, m);
            }
            ReadsThrough(g, m, nodes, Now(), self, i, link);
            OnlyMore(g, nodes, {}, extra);
            return;
          }
          if KeyOf(nodes, existing.node) == KeyOf(nodes, link.node) {
            OnlyMatch(level, g, m, self, i, link);
            MergeInto(existing.node, link.node, heldNodes, heldTrees);
            MergedKeys(g, m, nodes, Now(), self, i, link);
            BesideHigher(level, g, nodes, existing.node, self, link.node);
            var precedence := nodes[link.node].dynamicPrecedence + TreePrecedence(subtreePool.store, link.subtree);
            if precedence > nodes[self].dynamicPrecedence {
              ghost var u := nodes;
              SetPrecedence(self, precedence, heldNodes, heldTrees);
              SameLinksIn(u, nodes, Now());
              BesideOne(level, g, u, self, nodes[self]);
              GrowsOn(g, m, u, Now(), nodes, Now(), existing.node, link.node);
              OnlyKept(g, u, nodes, {});
            }
            MergedBelow(g, m, nodes, Now(), self, i, link);
            OnlyMore(g, nodes, {}, extra);
            return;
          }
        }
        i := i + 1;
      }
      NoMatch(level, g, m, self, link);
      if |nodes[self].links| == MAX_LINK_COUNT {
        GrownInItself(g, m);
        FullNode(nodes, self);
        UnreadOver(g, m, self, link);
        return;
      }
      RoomLeft(self, heldNodes, heldTrees);
      PushLink(self, link, heldNodes, heldTrees);
      LinksFirst(g, m, nodes, Now());
      BesideLink(level, g, self, link.node, old(WithLink(nodes, subtreePool.store, self, link)));
      LinkStored(nodes, m, Now(), self, |g[self].links|);
      ReadsThrough(g, m, nodes, Now(), self, |g[self].links|, link);
      NewLink(g, nodes, self, link);
      OnlyMore(g, nodes, {(KeyOf(g, self), KeyOf(g, link.node))}, extra);
    }

    ghost method RoomLeft(self: NodeId, heldNodes: multiset<NodeId>, heldTrees: multiset<Ref>)
      requires Sound(heldNodes, heldTrees) && IsNode(nodes, self)
      ensures |nodes[self].links| <= MAX_LINK_COUNT
    {
      LinksFit(level, nodes, self, subtreePool.store);
    }

    /** Give a node all the links of another with the same key. */
    method MergeInto(self: NodeId, other: NodeId, ghost heldNodes: multiset<NodeId>, ghost heldTrees: multiset<Ref>)
      requires Sound(heldNodes, heldTrees) && IsNode(nodes, self) && IsNode(nodes, other)
      requires KeyOf(nodes, self) == KeyOf(nodes, other)
      modifies this`nodes, subtreePool
      ensures Sound(heldNodes, heldTrees) && GrownIn(old(nodes), old(Now()), nodes, Now())
      ensures !FullBelow(nodes, self) ==> ReadsAll(old(nodes), old(Now()), other, nodes, Now(), self)
      ensures OnlyLinks(old(nodes), nodes, {}) && KeptBeside(level, old(nodes), nodes, self)
      decreases level(KeyOf(nodes, self)), 1
    {
      hide GraphOk, NodesCounted, NodePoolOk, Exact, Trees, Targets, Grown, GrownIn, Linked, Counted, NoneDead, FreeListOk,
           Sound, LabelOf, ReadsAllOver, FullBelow, ReadsAll, OnlyLinks, KeyLinked, Unmatched, FirstMatch, KeptBeside, WithLink,
           WithPreferred, WithMerged;
      ghost var g, m := nodes, Now();
      GrownInItself(g, m);
      OnlyOld(g);
      BesideItself(level, g, self);
      var j := 0;
      while j < |nodes[other].links|
        invariant Sound(heldNodes, heldTrees) && GrownIn(g, m, nodes, Now()) && IsNode(nodes, self) && IsNode(nodes, other)
        invariant KeyOf(nodes, self) == KeyOf(nodes, other) == KeyOf(g, self)
        invariant |g[other].links| <= |nodes[other].links|
        invariant OnlyLinks(g, nodes, {}) && KeptBeside(level, g, nodes, self)
        invariant !FullBelow(nodes, self) ==> forall k :: 0 <= k < j && k < |g[other].links| ==>
                    ReadsAllOver(g, m, g[other].links[k], nodes, Now(), self)
        decreases MAX_LINK_COUNT - j
      {
        ghost var u, m1 := nodes, Now();
        LinkFacts(other, j, heldNodes, heldTrees);
        OldLink(u, other, j);
        AddLink(self, nodes[other].links[j], heldNodes, heldTrees);
        MergedOne(g, m, u, m1, nodes, Now(), self, other, j);
        OnlyThrough(g, u, nodes, {(KeyOf(u, self), KeyOf(u, u[other].links[j].node))});
        BesideThrough(level, g, u, nodes, self);
        j := j + 1;
      }
      if !FullBelow(nodes, self) {
        AllMerged(g, m, nodes, Now(), self, other);
      }
    }

    // ----- versions ----------------------------------------------------------------------------

    /** Memory for a node: from the free list if it has any. */
    method NewNode(x: Node) returns (a: NodeId)
      requires NodePoolOk(nodes, nodePool) && x.Node?
      modifies this`nodes, this`nodePool
      ensures NewAt(old(nodes), nodes, a, x) && NodePoolOk(nodes, nodePool)
    {
      if |nodePool| > 0 {
        a := nodePool[|nodePool| - 1];
        nodePool := nodePool[..|nodePool| - 1];
        nodes := nodes[a := x];
      } else {
        a := |nodes|;
        nodes := nodes + [x];
      }
    }

    /** A node over an existing one, which adds up what the way to it amounts to. */
    method NewNodeOver(link: Link, state: nat) returns (n: NodeId)
      requires NodePoolOk(nodes, nodePool) && IsNode(nodes, link.node) && TreeOk(subtreePool.store, link.subtree)
      modifies this`nodes, this`nodePool
      ensures NewAt(old(nodes), nodes, n, NodeOver(old(nodes), subtreePool.store, link, state)) && NodePoolOk(nodes, nodePool)
    {
      var p := nodes[link.node];
      var position, errorCost := p.position, p.errorCost;
      var nodeCount, dynamicPrecedence := p.nodeCount, p.dynamicPrecedence;
      if link.subtree.Some? {
        var d := RefData(subtreePool.store, link.subtree.ref);
        errorCost := errorCost + d.ErrorCost();
        position := Add(position, d.Total());
        nodeCount := nodeCount + TreeNodeCount(subtreePool.store, link.subtree);
        dynamicPrecedence := dynamicPrecedence + d.DynamicPrecedence();
      }
      n := NewNode(Node(1, state, position, [link], errorCost, nodeCount, dynamicPrecedence));
    }

    /** Push a subtree, which the stack takes over, or a discontinuity onto a version. */
    method Push(version: nat, subtree: StackTree, pending: bool, state: nat, ghost keep: multiset<Ref>)
      requires Valid(keep + Handles(subtree)) && version < |heads| && IsNode(nodes, heads[version].node)
      requires var below := KeyOf(nodes, heads[version].node);
        level(below) < level(Key(state, below.bytes + TreeBytes(subtreePool.store, subtree),
                                 below.cost + TreeCost(subtreePool.store, subtree)))
      modifies this`heads, this`nodes, this`nodePool
      ensures Valid(keep) && Grown(old(nodes), nodes)
      ensures |heads| == |old(heads)| && heads == old(heads)[version := heads[version]]
      ensures var h, before := heads[version], old(heads)[version];
        && !IsNode(old(nodes), h.node) && IsNode(nodes, h.node)
        && nodes[h.node] == NodeOver(old(nodes), subtreePool.store, Link(before.node, subtree, pending), state)
        && h == before.(node := h.node, nodeCountAtLastError :=
                          if subtree.NullTree? then nodes[h.node].nodeCount else before.nodeCountAtLastError)
      ensures var x, before := nodes[heads[version].node], old(heads)[version].node;
        && x.links == [Link(before, subtree, pending)] && x.state == state
        && x.position == AddTree(old(nodes)[before].position, subtreePool.store, subtree)
        && x.nodeCount == old(nodes)[before].nodeCount + TreeNodeCount(subtreePool.store, subtree)
        && x.dynamicPrecedence == old(nodes)[before].dynamicPrecedence + TreePrecedence(subtreePool.store, subtree)
    {
      hide GraphOk, NodesCounted, NodePoolOk, Exact, Trees, Targets, Grown, Linked, Counted, NoneDead, FreeListOk, Gather,
           HeadNodes, HeadTrees, Settled, NodeOver, TreeBytes, TreeCost, NewAt, AddTree, TreeNodeCount, TreePrecedence;
      ghost var g, s := nodes, subtreePool.store;
      var link := Link(heads[version].node, subtree, pending);
      TreesAreValid(HeadNodes(heads) + multiset{baseNode}, HeadTrees(heads) + (keep + Handles(subtree)));
      GivenIsOk(s, Trees(nodes), HeadTrees(heads), keep, subtree);
      ghost var x := NodeOver(g, s, link, state);
      var n := NewNodeOver(link, state);
      NewIsThere(g, nodes, n, x);
      OverFits(g, s, link, state);
      ghost var others := HeadNodes(Without(heads, version)) + multiset{baseNode};
      var head := heads[version].(node := n, nodeCountAtLastError :=
                                    if subtree.NullTree? then nodes[n].nodeCount else heads[version].nodeCountAtLastError);
      HeadMoves(heads, version, head, baseNode);
      StaysSettled(heads, version, head);
      PushKeeps(level, g, nodes, n, x, link, others, s);
      heads := heads[version := head];
      HandMoves(Trees(g), HeadTrees(heads), keep, Handles(subtree), Trees(nodes));
    }

    /** Give up what a version holds. */
    method DeleteHead(h: Head, ghost heldNodes: multiset<NodeId>, ghost heldTrees: multiset<Ref>)
      requires Sound(heldNodes + multiset{h.node}, heldTrees + HeadTree(h))
      modifies this`nodes, this`nodePool, subtreePool
      ensures Sound(heldNodes, heldTrees) && Shrunk(old(nodes), nodes)
      ensures SameTrees(old(subtreePool.store), subtreePool.store, Trees(nodes))
    {
      hide GraphOk, NodesCounted, NodePoolOk, Exact, Trees, Targets, Shrunk, Linked, Counted, NoneDead, FreeListOk, Sound, SameTrees;
      ghost var g, s := nodes, subtreePool.store;
      var token, lookahead := Handles(h.lastExternalToken), Handles(h.lookaheadWhenPaused);
      assert heldTrees + HeadTree(h) == heldTrees + lookahead + token;
      ReleaseLinkTree(h.lastExternalToken, heldNodes + multiset{h.node}, heldTrees + lookahead);
      ghost var s1 := subtreePool.store;
      ReleaseLinkTree(h.lookaheadWhenPaused, heldNodes + multiset{h.node}, heldTrees);
      ghost var s2 := subtreePool.store;
      HeldNode(h.node, heldNodes, heldTrees);
      ReleaseNode(h.node, heldNodes, heldTrees, level(KeyOf(nodes, h.node)));
      ShrunkTrees(g, nodes);
      FewTreesThrough(s, s1, s2, subtreePool.store, Trees(g), heldTrees + lookahead, heldTrees, Trees(nodes));
    }

    method RemoveVersion(version: nat, ghost keep: multiset<Ref>)
      requires Valid(keep) && version < |heads|
      modifies this`heads, this`nodes, this`nodePool, subtreePool
      ensures Valid(keep) && heads == Without(old(heads), version) && Shrunk(old(nodes), nodes)
      ensures SameTrees(old(subtreePool.store), subtreePool.store, Trees(nodes))
      ensures forall n: NodeId :: IsNode(nodes, n) <==> Reached(old(nodes), HeadNodes(heads) + multiset{baseNode}, n)
    {
      hide GraphOk, NodesCounted, NodePoolOk, Exact, Trees, Targets, Shrunk, Linked, Counted, NoneDead, FreeListOk, Sound, Gather;
      TakeHead(heads, version, heads[version], baseNode, keep);
      DeleteHead(heads[version], HeadNodes(Without(heads, version)) + multiset{baseNode},
                 HeadTrees(Without(heads, version)) + keep);
      heads := heads[..version] + heads[version + 1..];
      Freed(old(nodes), keep);
    }

    /** Let version `v1` take the place of version `v2`. */
    method RenumberVersion(v1: nat, v2: nat, ghost keep: multiset<Ref>)
      requires Valid(keep) && (v1 == v2 || v2 < v1 < |heads|)
      modifies this`heads, this`nodes, this`nodePool, subtreePool
      ensures Valid(keep) && Shrunk(old(nodes), nodes)
      ensures forall n: NodeId :: IsNode(nodes, n) <==> Reached(old(nodes), HeadNodes(heads) + multiset{baseNode}, n)
      ensures if v1 == v2 then heads == old(heads)
              else
                var source, target := old(heads)[v1], old(heads)[v2];
                heads == Without(old(heads)[v2 := if target.summary.Recorded? && source.summary.NoSummary?
                                                   then source.(summary := target.summary) else source], v1)
    {
      hide GraphOk, NodesCounted, NodePoolOk, Exact, Trees, Targets, Shrunk, Linked, Counted, NoneDead, FreeListOk, Sound,
           HeadNodes, HeadTrees, HeadTree, Reached;
      ShrunkItself(nodes);
      if v1 == v2 {
        Freed(nodes, keep);
        return;
      }
      var source, target := heads[v1], heads[v2];
      if target.summary.Recorded? && source.summary.NoSummary? {
        source := source.(summary := target.summary);
        target := target.(summary := NoSummary);
      }
      SameHeld(heads[v1], source);
      SameHeld(heads[v2], target);
      Renumbered(heads, v1, v2, source);
      TakeHead(heads, v2, target, baseNode, keep);
      DeleteHead(target, HeadNodes(Without(heads, v2)) + multiset{baseNode}, HeadTrees(Without(heads, v2)) + keep);
      heads := heads[v2 := source];
      heads := heads[..v1] + heads[v1 + 1..];
      Freed(old(nodes), keep);
    }

    method SwapVersions(v1: nat, v2: nat, ghost keep: multiset<Ref>)
      requires Valid(keep) && v1 < |heads| && v2 < |heads|
      modifies this`heads
      ensures Valid(keep) && heads == old(heads)[v1 := old(heads)[v2]][v2 := old(heads)[v1]]
    {
      hide Sound, Gather;
      Swapped(heads, v1, v2);
      var temporary := heads[v1];
      heads := heads[v1 := heads[v2]];
      heads := heads[v2 := temporary];
    }

    /**
     * A second version where one is. It takes its own share of the node and of the last external
     * token, but not of the lookahead of a paused version: the counts stay exact exactly when there
     * is no counted lookahead, and so whenever the version is active.
     */
    method CopyVersion(version: nat, ghost keep: multiset<Ref>) returns (copy: nat)
      requires Valid(keep) && version < |heads|
      modifies this`heads, this`nodes, subtreePool`store
      ensures Valid(keep) <==> !CountsReferences(old(heads)[version].lookaheadWhenPaused)
      ensures old(heads)[version].status.Active? ==> Valid(keep)
      ensures Shrunk(old(nodes), nodes) && Grown(old(nodes), nodes)
      ensures copy == |old(heads)| && heads == old(heads) + [old(heads)[version].(summary := NoSummary)]
    {
      hide GraphOk, NodesCounted, NodePoolOk, Exact, Trees, Targets, Shrunk, Linked, Counted, NoneDead, FreeListOk, Sound, Gather,
           CountsReferences;
      var head := heads[version].(summary := NoSummary);
      copy := |heads|;
      OneMoreHead(heads, head, baseNode, keep);
      TreesAreValid(HeadNodes(heads) + multiset{baseNode}, HeadTrees(heads) + keep);
      TokenIsOk(subtreePool.store, heads, version, Trees(nodes), keep);
      HeadIsNode(version, keep);
      AddShare(head, HeadNodes(heads) + multiset{baseNode}, HeadTrees(heads) + keep);
      TreesAreValid(HeadNodes(heads) + multiset{baseNode} + multiset{head.node}, HeadTrees(heads) + keep + Handles(head.lastExternalToken));
      TokenIsOk(subtreePool.store, heads, version, Trees(nodes), keep + Handles(head.lastExternalToken));
      ghost var counted := HeadTrees(heads) + keep + Handles(head.lastExternalToken);
      heads := heads + [head];
      OneMoreHandle(HeadNodes(heads) + multiset{baseNode}, counted, head.lookaheadWhenPaused);
    }

    ghost method OneMoreHandle(heldNodes: multiset<NodeId>, heldTrees: multiset<Ref>, t: StackTree)
      requires Sound(heldNodes, heldTrees) && TreeOk(subtreePool.store, t)
      ensures Sound(heldNodes, heldTrees + Handles(t)) <==> !CountsReferences(t)
    {
      hide GraphOk, NodesCounted, NodePoolOk, Exact, Trees, Linked, Counted, NoneDead, FreeListOk;
      MoreHandles(subtreePool.store, Trees(nodes) + heldTrees, t);
      assert Trees(nodes) + (heldTrees + Handles(t)) == Trees(nodes) + heldTrees + Handles(t);
    }

    predicate CanMerge(v1: nat, v2: nat)
      requires v1 < |heads| && v2 < |heads| && IsNode(nodes, heads[v1].node) && IsNode(nodes, heads[v2].node)
      reads this`heads, this`nodes
      ensures var h1, h2, x1, x2 := heads[v1], heads[v2], nodes[heads[v1].node], nodes[heads[v2].node];
              CanMerge(v1, v2) <==>
                && h1.status == h2.status == Active
                && x1.state == x2.state && x1.position.bytes == x2.position.bytes && x1.errorCost == x2.errorCost
                && scannerState(h1.lastExternalToken) == scannerState(h2.lastExternalToken)
      ensures CanMerge(v1, v2) ==> KeyOf(nodes, heads[v1].node) == KeyOf(nodes, heads[v2].node)
    {
      && heads[v1].status.Active? && heads[v2].status.Active?
      && KeyOf(nodes, heads[v1].node) == KeyOf(nodes, heads[v2].node)
      && scannerState(heads[v1].lastExternalToken) == scannerState(heads[v2].lastExternalToken)
    }

    ghost method HeadIsNode(version: nat, keep: multiset<Ref>)
      requires Valid(keep) && version < |heads|
      ensures IsNode(nodes, heads[version].node)
    {
      hide Sound, HeadNodes, HeadTrees;
      TakeHead(heads, version, heads[version], baseNode, keep);
      HeldNode(heads[version].node, HeadNodes(Without(heads, version)) + multiset{baseNode}, HeadTrees(heads) + keep);
    }

    /**
     * Merge version `v2` into version `v1` if they may be merged. Unless some node of the merged
     * graph has run out of room for links, `v1` then shows every history that `v2` showed.
     */
    method Merge(v1: nat, v2: nat, ghost keep: multiset<Ref>) returns (merged: bool, ghost grown: Graph)
      requires Valid(keep) && v1 < |heads| && v2 < |heads| && v1 != v2
      requires IsNode(nodes, heads[v1].node) && IsNode(nodes, heads[v2].node)
      modifies this`heads, this`nodes, this`nodePool, subtreePool
      ensures Valid(keep) && Grown(old(nodes), grown) && Shrunk(grown, nodes)
      ensures var h1, h2, x1, x2 := old(heads)[v1], old(heads)[v2], old(nodes[heads[v1].node]), old(nodes[heads[v2].node]);
              merged <==>
                && h1.status == h2.status == Active
                && x1.state == x2.state && x1.position.bytes == x2.position.bytes && x1.errorCost == x2.errorCost
                && scannerState(h1.lastExternalToken) == scannerState(h2.lastExternalToken)
      ensures !merged ==> heads == old(heads) && nodes == old(nodes)
      ensures merged ==>
        var h := old(heads)[v1];
        && IsNode(grown, h.node)
        && heads == Without(old(heads)[v1 := if grown[h.node].state == ERROR_STATE
                                             then h.(nodeCountAtLastError := grown[h.node].nodeCount) else h], v2)
        && (!FullBelow(nodes, h.node) ==> ReadsAll(old(nodes), old(Now()), old(heads)[v2].node, nodes, Now(), h.node))
        && ReadsAll(old(nodes), old(Now()), h.node, nodes, Now(), h.node)
      ensures OnlyLinks(old(nodes), nodes, {})
    {
      hide Sound, HeadNodes, HeadTrees, Grown, GrownIn, Shrunk, FullBelow, ReadsAll, GraphOk, OnlyLinks, SameTrees, KeptBeside,
           Settled, CanMerge;
      OnlyOld(nodes);
      GrownItself(nodes);
      ghost var g, m := nodes, Now();
      ShrunkItself(nodes);
      grown := nodes;
      merged := CanMerge(v1, v2);
      if !merged { return; }
      var n := heads[v1].node;
      MergeInto(n, heads[v2].node, HeadNodes(heads) + multiset{baseNode}, HeadTrees(heads) + keep);
      grown := nodes;
      ghost var m1 := Now();
      GrownAlready(g, m, grown, m1);
      HeadIsNode(v1, keep);
      var head := heads[v1];
      if nodes[head.node].state == ERROR_STATE {
        head := head.(nodeCountAtLastError := nodes[head.node].nodeCount);
      }
      SameShares(heads, v1, head);
      StaysSettled(heads, v1, head);
      heads := heads[v1 := head];
      ghost var all := heads;
      RemoveVersion(v2, keep);
      HeadIsNode(if v1 < v2 then v1 else v1 - 1, keep);
      GraphIsOk(keep);
      AfterMerging(level, g, m, grown, m1, nodes, Now(), old(heads)[v2].node, n);
    }

    ghost method Freed(g: Graph, keep: multiset<Ref>)
      requires Valid(keep) && Shrunk(g, nodes)
      ensures forall n: NodeId :: IsNode(nodes, n) <==> Reached(g, HeadNodes(heads) + multiset{baseNode}, n)
    {
      hide HeadNodes, HeadTrees, GraphOk, Shrunk, NodesCounted, NodePoolOk, Exact, Linked, Counted, NoneDead, FreeListOk;
      FreedExactly(level, g, nodes, HeadNodes(heads) + multiset{baseNode});
    }

    ghost method GraphIsOk(keep: multiset<Ref>)
      requires Valid(keep)
      ensures GraphOk(level, nodes)
    {
      hide HeadNodes, HeadTrees;
    }

    /** Back to one version on the base node. */
    method Clear(ghost keep: multiset<Ref>)
      requires Valid(keep)
      modifies this`heads, this`nodes, this`nodePool, subtreePool
      ensures Valid(keep) && heads == [Head(baseNode, NoSummary, 0, NullTree, NullTree, Active)]
      ensures Shrunk(old(nodes), nodes)
      ensures forall n: NodeId :: IsNode(nodes, n) <==> Reached(old(nodes), HeadNodes(heads) + multiset{baseNode}, n)
    {
      hide Sound, Gather, Shrunk, HeadTree, Handles;
      ghost var g := nodes;
      var head := Head(baseNode, NoSummary, 0, NullTree, NullTree, Active);
      BaseIsNode(keep);
      AddShare(head, HeadNodes(heads) + multiset{baseNode}, HeadTrees(heads) + keep);
      AllHeads(heads, baseNode, head, keep);
      ghost var u := nodes;
      DeleteHeads(HeadNodes([head]) + multiset{baseNode}, HeadTrees([head]) + keep);
      ShrunkTransitive(g, u, nodes);
      heads := [head];
      Freed(g, keep);
    }

    /** Delete all versions. */
    method DeleteHeads(ghost heldNodes: multiset<NodeId>, ghost heldTrees: multiset<Ref>)
      requires Sound(heldNodes + HeadNodes(heads), heldTrees + HeadTrees(heads))
      modifies this`heads, this`nodes, this`nodePool, subtreePool
      ensures Sound(heldNodes, heldTrees) && heads == [] && Shrunk(old(nodes), nodes)
    {
      hide Sound, Gather, Shrunk, HeadTree;
      ghost var g := nodes;
      ShrunkItself(nodes);
      for i := 0 to |heads|
        invariant heads == old(heads)
        invariant Sound(heldNodes + HeadNodes(heads[i..]), heldTrees + HeadTrees(heads[i..])) && Shrunk(g, nodes)
      {
        ghost var rest, u := heads[i + 1..], nodes;
        FirstHead(heads, i, heldNodes, heldTrees);
        DeleteHead(heads[i], heldNodes + HeadNodes(rest), heldTrees + HeadTrees(rest));
        ShrunkTransitive(g, u, nodes);
      }
      NoHeads(heads, heldNodes, heldTrees);
      heads := [];
    }

    /** Free the whole stack: no node is left, and the subtrees it held are given up. */
    method Delete(ghost keep: multiset<Ref>)
      requires Valid(keep)
      modifies this`heads, this`nodes, this`nodePool, subtreePool
      ensures subtreePool.Valid(keep) && heads == [] && forall n: NodeId :: !IsNode(nodes, n)
    {
      hide Sound, Gather, Shrunk, HeadTree;
      ghost var held := HeadNodes(heads);
      assert HeadNodes(heads) + multiset{baseNode} == multiset{} + HeadNodes(heads) + multiset{baseNode};
      assert HeadTrees(heads) + keep == keep + HeadTrees(heads);
      BaseIsNode(keep);
      ReleaseNode(baseNode, multiset{} + HeadNodes(heads), keep + HeadTrees(heads), level(KeyOf(nodes, baseNode)));
      DeleteHeads(multiset{}, keep);
      Emptied(keep);
    }

    ghost method BaseIsNode(keep: multiset<Ref>)
      requires Valid(keep)
      ensures IsNode(nodes, baseNode)
    {
      HeldNode(baseNode, HeadNodes(heads), HeadTrees(heads) + keep);
    }

    ghost method Emptied(keep: multiset<Ref>)
      requires Sound(multiset{}, keep)
      ensures subtreePool.Valid(keep) && forall n: NodeId :: !IsNode(nodes, n)
    {
      NothingHeldNothingLives(level, nodes);
      EmptyGraph(nodes);
      assert Trees(nodes) + keep == keep;
    }

    /** Another version on a node, with the last external token of an existing one. */
    method AddVersion(originalVersion: nat, node: NodeId, ghost keep: multiset<Ref>) returns (version: nat)
      requires Valid(keep) && originalVersion < |heads| && IsNode(nodes, node)
      modifies this`heads, this`nodes, subtreePool`store
      ensures Valid(keep) && Shrunk(old(nodes), nodes) && Grown(old(nodes), nodes)
      ensures SameTrees(old(subtreePool.store), subtreePool.store, Trees(nodes))
      ensures version == |old(heads)|
      ensures var original := old(heads)[originalVersion];
        heads == old(heads) + [Head(node, NoSummary, original.nodeCountAtLastError, original.lastExternalToken, NullTree, Active)]
    {
      hide GraphOk, NodesCounted, NodePoolOk, Exact, Trees, Targets, Shrunk, Linked, Counted, NoneDead, FreeListOk, Sound, Gather;
      var original := heads[originalVersion];
      var head := Head(node, NoSummary, original.nodeCountAtLastError, original.lastExternalToken, NullTree, Active);
      OneMoreHead(heads, head, baseNode, keep);
      TreesAreValid(HeadNodes(heads) + multiset{baseNode}, HeadTrees(heads) + keep);
      TokenIsOk(subtreePool.store, heads, originalVersion, Trees(nodes), keep);
      AddShare(head, HeadNodes(heads) + multiset{baseNode}, HeadTrees(heads) + keep);
      version := |heads|;
      heads := heads + [head];
    }

    /** Take a share of every subtree in an array. */
    method RetainArray(refs: seq<Ref>, ghost keep: multiset<Ref>)
      requires Valid(keep) && forall i :: 0 <= i < |refs| ==> ValidRef(subtreePool.store, refs[i])
      modifies subtreePool`store
      ensures Valid(keep + multiset(refs)) && SameTrees(old(subtreePool.store), subtreePool.store, Trees(nodes))
    {
      hide GraphOk, NodesCounted, NodePoolOk, Exact, Trees, Targets, SameTrees, Linked, Counted, NoneDead, FreeListOk, Sound, Gather,
           HeadNodes, HeadTrees;
      ghost var s := subtreePool.store;
      NodeTreesSame(keep);
      assert keep + multiset(refs[..0]) == keep;
      for i := 0 to |refs|
        invariant Valid(keep + multiset(refs[..i])) && SameTrees(s, subtreePool.store, Trees(nodes))
        invariant forall k :: 0 <= k < |refs| ==> ValidRef(subtreePool.store, refs[k])
      {
        ghost var s1 := subtreePool.store;
        RetainShare(Some(refs[i]), keep + multiset(refs[..i]));
        SameTreesThrough(s, s1, subtreePool.store, Trees(nodes), Trees(nodes));
        assert refs[..i + 1] == refs[..i] + [refs[i]];
        assert keep + multiset(refs[..i + 1]) == keep + multiset(refs[..i]) + multiset{refs[i]};
      }
      assert refs[..|refs|] == refs;
    }

    ghost method NodeTreesSame(keep: multiset<Ref>)
      requires Valid(keep)
      ensures SameTrees(subtreePool.store, subtreePool.store, Trees(nodes))
    {
      hide Trees, HeadNodes, HeadTrees;
      TreesAreValid(HeadNodes(heads) + multiset{baseNode}, HeadTrees(heads) + keep);
    }

    /** Take a share of a subtree for the caller. */
    method RetainShare(t: StackTree, ghost keep: multiset<Ref>)
      requires Valid(keep) && TreeOk(subtreePool.store, t)
      modifies subtreePool`store
      ensures Valid(keep + Handles(t)) && SameTrees(old(subtreePool.store), subtreePool.store, Trees(nodes))
      ensures forall r :: ValidRef(old(subtreePool.store), r) ==> ValidRef(subtreePool.store, r)
    {
      hide GraphOk, NodesCounted, NodePoolOk, Exact, Trees, Targets, SameTrees, Linked, Counted, NoneDead, FreeListOk,
           HeadNodes, HeadTrees;
      ghost var s := subtreePool.store;
      if t.Some? {
        subtreePool.Retain(t.ref, Trees(nodes) + (HeadTrees(heads) + keep));
      }
      StillValid(s, subtreePool.store, t);
      ShareTaken(s, Trees(nodes), HeadTrees(heads), keep, t, subtreePool.store);
      ExactInMemory(nodes, s, subtreePool.store);
    }

    /** Give up every subtree in an array. */
    method ReleaseArray(refs: seq<Ref>, ghost keep: multiset<Ref>)
      requires Valid(keep + multiset(refs))
      modifies subtreePool
      ensures Valid(keep) && SameTrees(old(subtreePool.store), subtreePool.store, Trees(nodes))
    {
      hide GraphOk, NodesCounted, NodePoolOk, Exact, Trees, Targets, SameTrees, Linked, Counted, NoneDead, FreeListOk, Sound, Gather,
           HeadNodes, HeadTrees;
      ghost var s := subtreePool.store;
      NodeTreesSame(keep + multiset(refs));
      assert refs[0..] == refs;
      for i := 0 to |refs|
        invariant Valid(keep + multiset(refs[i..])) && SameTrees(s, subtreePool.store, Trees(nodes))
      {
        ghost var s1, held := subtreePool.store, HeadTrees(heads) + (keep + multiset(refs[i + 1..]));
        assert refs[i..] == [refs[i]] + refs[i + 1..];
        assert HeadTrees(heads) + (keep + multiset(refs[i..])) == held + multiset{refs[i]};
        ReleaseLinkTree(Some(refs[i]), HeadNodes(heads) + multiset{baseNode}, held);
        FewerTrees(s1, subtreePool.store, Trees(nodes), held);
        SameTreesThrough(s, s1, subtreePool.store, Trees(nodes), Trees(nodes));
      }
      assert keep + multiset(refs[|refs|..]) == keep;
    }

    method Halt(version: nat, ghost keep: multiset<Ref>)
      requires Valid(keep) && version < |heads|
      modifies this`heads
      ensures Valid(keep) && heads == old(heads)[version := old(heads)[version].(status := Halted)]
    {
      hide Sound, Gather;
      SameShares(heads, version, heads[version].(status := Halted));
      heads := heads[version := heads[version].(status := Halted)];
    }

    /** Stop a version for now; it takes the lookahead over from the caller. */
    method Pause(version: nat, lookahead: StackTree, ghost keep: multiset<Ref>)
      requires Valid(keep + Handles(lookahead)) && version < |heads| && heads[version].lookaheadWhenPaused.NullTree?
      requires IsNode(nodes, heads[version].node)
      modifies this`heads
      ensures Valid(keep)
      ensures heads == old(heads)[version := old(heads)[version].(
                status := Paused, lookaheadWhenPaused := lookahead,
                nodeCountAtLastError := nodes[old(heads)[version].node].nodeCount)]
    {
      hide Sound, Gather;
      var head := heads[version].(status := Paused, lookaheadWhenPaused := lookahead,
                                  nodeCountAtLastError := nodes[heads[version].node].nodeCount);
      HeadsAround(heads, version, head);
      assert HeadTrees(heads) + (keep + Handles(lookahead)) == HeadTrees(heads[version := head]) + keep;
      heads := heads[version := head];
    }

    /** Go on with a version; the caller takes its lookahead over. */
    method Resume(version: nat, ghost keep: multiset<Ref>) returns (lookahead: StackTree)
      requires Valid(keep) && version < |heads| && heads[version].status.Paused?
      modifies this`heads
      ensures lookahead == old(heads)[version].lookaheadWhenPaused && Valid(keep + Handles(lookahead))
      ensures heads == old(heads)[version := old(heads)[version].(status := Active, lookaheadWhenPaused := NullTree)]
    {
      hide Sound, Gather;
      lookahead := heads[version].lookaheadWhenPaused;
      var head := heads[version].(status := Active, lookaheadWhenPaused := NullTree);
      HeadsAround(heads, version, head);
      assert HeadTrees(heads) + keep == HeadTrees(heads[version := head]) + (keep + Handles(lookahead));
      heads := heads[version := head];
    }

    method SetLastExternalToken(version: nat, token: StackTree, ghost keep: multiset<Ref>)
      requires Valid(keep) && version < |heads| && TreeOk(subtreePool.store, token)
      modifies this`heads, subtreePool
      ensures Valid(keep) && heads == old(heads)[version := old(heads)[version].(lastExternalToken := token)]
      ensures nodes == old(nodes)
    {
      hide GraphOk, NodesCounted, NodePoolOk, Exact, Trees, Targets, SameTrees, Linked, Counted, NoneDead, FreeListOk, Gather,
           HeadNodes, HeadTrees, Settled;
      ghost var s := subtreePool.store;
      var before := heads[version].lastExternalToken;
      var head := heads[version].(lastExternalToken := token);
      HeadsAround(heads, version, head);
      StaysSettled(heads, version, head);
      ghost var held := HeadTrees(heads[version := head]) + keep;
      RetainTree(token, Trees(nodes) + (HeadTrees(heads) + keep));
      ghost var s1 := subtreePool.store;
      assert Trees(nodes) + (HeadTrees(heads) + keep) + Handles(token) == Trees(nodes) + held + Handles(before);
      ReleaseTree(before, Trees(nodes) + held);
      SameTreesThrough(s, s1, subtreePool.store, Trees(nodes) + held + Handles(before), Trees(nodes) + held);
      FewerTrees(s, subtreePool.store, Trees(nodes), held);
      ExactInMemory(nodes, s, subtreePool.store);
      heads := heads[version := head];
    }
  }

  lemma StaysSettled(heads: seq<Head>, v: nat, h: Head)
    requires v < |heads| && Settled(heads)
    requires h.lookaheadWhenPaused == heads[v].lookaheadWhenPaused && h.status == heads[v].status
    ensures Settled(heads[v := h])
  {
  }

  lemma OneMoreHead(heads: seq<Head>, h: Head, base: NodeId, keep: multiset<Ref>)
    ensures HeadNodes(heads + [h]) + multiset{base} == HeadNodes(heads) + multiset{base} + multiset{h.node}
    ensures HeadTrees(heads + [h]) + keep
         == HeadTrees(heads) + keep + Handles(h.lastExternalToken) + Handles(h.lookaheadWhenPaused)
    ensures h.lookaheadWhenPaused.NullTree? ==>
              HeadTrees(heads + [h]) + keep == HeadTrees(heads) + keep + Handles(h.lastExternalToken)
  {
    GatherAppend(heads, h, HeadNode);
    GatherAppend(heads, h, HeadTree);
    hide Gather;
  }

  /** A cell with a one-byte token. */
  function ALeaf(): Cell {
    Live(1, Data(false, 1, 1, ZERO, Length(1, Point(0, 1)), 0, 0, true, true, false, false, false, false, false,
                 0, 0, 0, 0, 0, 0, 0, 0, 0), [])
  }

  /** A paused version with a counted lookahead cannot be copied: two would share one count. */
  lemma ACopiedLookahead()
    ensures var s, paused := [ALeaf()], Head(0, NoSummary, 0, NullTree, Some(Ptr(0)), Paused);
            Settled([paused]) && Counted(s, HeadTrees([paused]), multiset{}) && !Counted(s, HeadTrees([paused, paused]), multiset{})
  {
    var paused := Head(0, NoSummary, 0, NullTree, Some(Ptr(0)), Paused);
    GatherOne(paused, HeadTree);
    GatherAppend([paused], paused, HeadTree);
    assert [paused] + [paused] == [paused, paused];
    assert HeadTree(paused) == multiset{Ptr(0)};
    assert EdgesBelow([], 0) == multiset{};
    EdgesAppend([], ALeaf());
    assert [] + [ALeaf()] == [ALeaf()];
  }

  lemma SameShares(heads: seq<Head>, v: nat, h: Head)
    requires v < |heads| && HeadNode(h) == HeadNode(heads[v]) && HeadTree(h) == HeadTree(heads[v])
    ensures HeadNodes(heads[v := h]) == HeadNodes(heads) && HeadTrees(heads[v := h]) == HeadTrees(heads)
  {
    hide Gather;
    HeadsAround(heads, v, h);
  }

  /** What could be read at `n'` can be read at `n` once the graph has grown and shrunk again. */
  lemma ReadsAfter(level: Key -> nat, g: Graph, m: Memory, grown: Graph, m1: Memory, u: Graph, m2: Memory, n': NodeId, n: NodeId)
    requires GrownIn(g, m, grown, m1) && Shrunk(grown, u) && SameTrees(m1.store, m2.store, Trees(u))
    requires m1.scannerState == m2.scannerState && GraphOk(level, u) && IsNode(u, n)
    ensures n' == n ==> ReadsAll(g, m, n, u, m2, n)
    ensures ReadsAll(g, m, n', grown, m1, n) ==> ReadsAll(g, m, n', u, m2, n)
  {
    hide GrownIn, Shrunk, GraphOk, SameTrees, Reads;
    forall ks ensures Reads(grown, m1, n, ks) <==> Reads(u, m2, n, ks) {
      ShrunkReads(level, grown, m1, u, m2, n, ks);
    }
    forall ks ensures Reads(g, m, n, ks) ==> Reads(grown, m1, n, ks) {
      GrownReads(g, m, grown, m1, n, ks);
    }
  }

  lemma AfterMerging(level: Key -> nat, g: Graph, m: Memory, grown: Graph, m1: Memory, u: Graph, m2: Memory, n': NodeId, n: NodeId)
    requires GrownIn(g, m, grown, m1) && Shrunk(grown, u) && SameTrees(m1.store, m2.store, Trees(u))
    requires m1.scannerState == m2.scannerState && GraphOk(level, u) && IsNode(u, n) && OnlyLinks(g, grown, {})
    requires !FullBelow(grown, n) ==> ReadsAll(g, m, n', grown, m1, n)
    ensures ReadsAll(g, m, n, u, m2, n) && (!FullBelow(u, n) ==> ReadsAll(g, m, n', u, m2, n))
    ensures OnlyLinks(g, u, {})
  {
    hide GrownIn, Shrunk, GraphOk, SameTrees, Trees, ReadsAll, FullBelow, OnlyLinks;
    ReadsAfter(level, g, m, grown, m1, u, m2, n, n);
    ReadsAfter(level, g, m, grown, m1, u, m2, n', n);
    ShrunkFull(level, grown, u, n);
    ShrunkLinks(grown, u);
    OnlyKept(g, grown, u, {});
  }

  lemma GrownAlready(g: Graph, m: Memory, u: Graph, m': Memory)
    requires GrownIn(g, m, u, m')
    ensures Grown(g, u)
  {
  }

  /** Subtrees that stay in use while more and more others are given up. */
  lemma FewTreesThrough(s: Store, s1: Store, s2: Store, s3: Store, trees: multiset<Ref>, a: multiset<Ref>, b: multiset<Ref>,
                        few: multiset<Ref>)
    requires SameTrees(s, s1, trees + a) && SameTrees(s1, s2, trees + b) && SameTrees(s2, s3, few + b)
    requires forall r :: r in few ==> r in trees
    ensures SameTrees(s, s3, few)
  {
  }

  lemma AllHeads(heads: seq<Head>, base: NodeId, h: Head, keep: multiset<Ref>)
    ensures HeadNodes(heads) + multiset{base} + multiset{h.node} == HeadNodes([h]) + multiset{base} + HeadNodes(heads)
    ensures HeadTrees(heads) + keep + Handles(h.lastExternalToken) + Handles(h.lookaheadWhenPaused)
         == HeadTrees([h]) + keep + HeadTrees(heads)
    ensures h.lookaheadWhenPaused.NullTree? ==>
              HeadTrees(heads) + keep + Handles(h.lastExternalToken) == HeadTrees([h]) + keep + HeadTrees(heads)
  {
    GatherOne(h, HeadNode);
    GatherOne(h, HeadTree);
  }

  lemma FirstHead(heads: seq<Head>, i: nat, heldNodes: multiset<NodeId>, heldTrees: multiset<Ref>)
    requires i < |heads|
    ensures heldNodes + HeadNodes(heads[i..]) == heldNodes + HeadNodes(heads[i + 1..]) + multiset{heads[i].node}
    ensures heldTrees + HeadTrees(heads[i..]) == heldTrees + HeadTrees(heads[i + 1..]) + HeadTree(heads[i])
  {
    var rest := heads[i + 1..];
    assert heads[i..] == [heads[i]] + rest;
    GatherConcat([heads[i]], rest, HeadNode);
    GatherConcat([heads[i]], rest, HeadTree);
    GatherOne(heads[i], HeadNode);
    GatherOne(heads[i], HeadTree);
  }

  lemma NoHeads(heads: seq<Head>, heldNodes: multiset<NodeId>, heldTrees: multiset<Ref>)
    ensures heldNodes + HeadNodes(heads[|heads|..]) == heldNodes && heldTrees + HeadTrees(heads[|heads|..]) == heldTrees
  {
  }

  function Without(heads: seq<Head>, v: nat): seq<Head>
    requires v < |heads|
  {
    heads[..v] + heads[v + 1..]
  }

  lemma GrownItself(g: Graph)
    ensures Grown(g, g)
  {
  }

  /** A link like the given one shows all that could be read over that one. */
  lemma ReadsThrough(g: Graph, m: Memory, u: Graph, m': Memory, n: NodeId, i: nat, link: Link)
    requires GrownIn(g, m, u, m') && IsNode(u, n) && i < |u[n].links| && u[n].links[i].node == link.node
    requires LabelOf(m', u[n].links[i].subtree) == LabelOf(m, link.subtree)
    ensures ReadsAllOver(g, m, link, u, m', n)
  {
    hide GrownIn, LabelOf;
    forall ks | ReadsOver(g, m, link, ks) ensures ReadsBelow(u, m', n, ks) {
      GrownReads(g, m, u, m', link.node, ks);
      assert Reads(g, m, link.node, ks);
      assert ReadsOver(u, m', u[n].links[i], ks);
    }
  }

  lemma LinkStored(u: Graph, m: Memory, m': Memory, n: NodeId, i: nat)
    requires IsNode(u, n) && i < |u[n].links| && SameTrees(m.store, m'.store, Trees(u)) && m'.scannerState == m.scannerState
    ensures LabelOf(m', u[n].links[i].subtree) == LabelOf(m, u[n].links[i].subtree)
  {
    hide Trees, SameTrees, LabelOf;
    LinkIsCounted(u, n, i);
    SameLabel(m, m', u[n].links[i].subtree, Trees(u));
  }

  /** A subtree of higher precedence has taken the place of an interchangeable one. */
  lemma Preferred(g: Graph, m: Memory, u: Graph, m': Memory, n: NodeId, i: nat, link: Link, precedence: int)
    requires IsNode(g, n) && i < |g[n].links| && u == g[n := TreeReplaced(g[n], i, link.subtree, precedence)] && Grown(g, u)
    requires SameTrees(m.store, m'.store, Trees(u)) && m'.scannerState == m.scannerState
    requires LabelOf(m, g[n].links[i].subtree) == LabelOf(m, link.subtree)
    requires TreePrecedence(m.store, link.subtree) > TreePrecedence(m.store, g[n].links[i].subtree)
    ensures GrownIn(g, m, u, m') && IsNode(u, n) && i < |u[n].links| && u[n].links[i].node == g[n].links[i].node
    ensures LabelOf(m', u[n].links[i].subtree) == LabelOf(m, link.subtree)
  {
    hide Trees, SameTrees, LabelOf, Grown, TreePrecedence;
    OneReplaced(g, m, u, m', n, i);
    LinkStored(u, m, m', n, i);
  }

  /** Link number `i` matches the given one exactly if their subtrees are interchangeable and the nodes can be merged. */
  lemma EquivalentMatches(g: Graph, m: Memory, n: NodeId, i: nat, link: Link)
    requires IsNode(g, n) && i < |g[n].links| && Fits(g, m.store, n, g[n].links[i]) && Fits(g, m.store, n, link)
    requires TreeOk(m.store, g[n].links[i].subtree) && TreeOk(m.store, link.subtree)
    ensures var existing := g[n].links[i];
            && IsNode(g, existing.node) && IsNode(g, link.node)
            && (Matches(g, m, n, i, link)
                <==> Equivalent(m, existing.subtree, link.subtree) && KeyOf(g, existing.node) == KeyOf(g, link.node))
            && (Matches(g, m, n, i, link) ==> LabelOf(m, existing.subtree) == LabelOf(m, link.subtree))
  {
    hide Equivalent, LabelOf, TreeCost;
    var existing := g[n].links[i];
    if KeyOf(g, existing.node) == KeyOf(g, link.node) {
      SameCost(g, m.store, n, existing, link);
      EquivalentIsSameLabel(m, existing.subtree, link.subtree);
    }
  }

  /** The first link to match decides what becomes of the node. */
  lemma OnlyMatch(level: Key -> nat, g: Graph, m: Memory, n: NodeId, i: nat, link: Link)
    requires IsNode(g, n) && i < |g[n].links| && Matches(g, m, n, i, link)
    requires forall k: nat :: k < i && k < |g[n].links| ==> !Matches(g, m, n, k, link)
    ensures !Unmatched(g, m, n, link) && forall k: nat :: FirstMatch(g, m, n, k, link) ==> k == i
    ensures KeptBeside(level, g, g, n)
  {
    hide Matches;
    TheFirstMatch(g, m, n, i, link);
  }

  lemma NoMatch(level: Key -> nat, g: Graph, m: Memory, n: NodeId, link: Link)
    requires IsNode(g, n) && forall k: nat :: k < |g[n].links| ==> !Matches(g, m, n, k, link)
    ensures forall k: nat :: !FirstMatch(g, m, n, k, link)
    ensures KeptBeside(level, g, g, n)
  {
    hide Matches;
    NoFirstMatch(g, m, n, link);
  }

  /** A link that matches nothing takes what could be read over it with it. */
  lemma UnreadOver(g: Graph, m: Memory, n: NodeId, link: Link)
    requires IsNode(g, n) && IsNode(g, link.node)
    ensures Unmatched(g, m, n, link) ==> !ReadsAllOver(g, m, link, g, m, n)
  {
    hide LabelOf, ReadsOver, ReadsBelow, Unmatched;
    if Unmatched(g, m, n, link) {
      UnmatchedIsUnread(g, m, n, link);
    }
  }

  lemma BesideHigher(level: Key -> nat, g: Graph, u: Graph, low: NodeId, n: NodeId, other: NodeId)
    requires IsNode(g, low) && IsNode(g, n) && level(KeyOf(g, low)) < level(KeyOf(g, n)) && KeptBeside(level, g, u, low)
    requires IsNode(g, other) && KeyOf(g, other) == KeyOf(g, low) && other != low
    ensures n < |u| && u[n] == g[n] && other < |u| && u[other] == g[other]
    ensures KeptBeside(level, g, u, n)
  {
  }

  lemma BesideOne(level: Key -> nat, g: Graph, u: Graph, n: NodeId, x: Node)
    requires IsNode(g, n) && n < |u| && KeptBeside(level, g, u, n)
    ensures KeptBeside(level, g, u[n := x], n)
  {
  }

  lemma BesideLink(level: Key -> nat, g: Graph, n: NodeId, below: NodeId, x: Node)
    requires IsNode(g, n) && IsNode(g, below) && level(KeyOf(g, below)) < level(KeyOf(g, n))
    ensures KeptBeside(level, g, g[below := Raised(g[below])][n := x], n)
  {
  }

  lemma BesideThrough(level: Key -> nat, g: Graph, u: Graph, v: Graph, n: NodeId)
    requires IsNode(g, n) && IsNode(u, n) && KeyOf(u, n) == KeyOf(g, n)
    requires KeptBeside(level, g, u, n) && KeptBeside(level, u, v, n)
    ensures KeptBeside(level, g, v, n)
  {
  }

  lemma BesideItself(level: Key -> nat, g: Graph, n: NodeId)
    requires IsNode(g, n)
    ensures KeptBeside(level, g, g, n)
  {
  }

  lemma SameLinksIn(g: Graph, u: Graph, m: Memory)
    requires Grown(g, u) && forall n: NodeId :: IsNode(g, n) ==> IsNode(u, n) && u[n].links == g[n].links
    ensures GrownIn(g, m, u, m)
  {
    hide LabelOf, TreePrecedence;
  }

  lemma LinksStay(g: Graph, u: Graph, n: NodeId)
    requires IsNode(g, n) && |u| == |g| && (forall m: NodeId :: m < |g| && m != n ==> u[m] == g[m])
    requires IsNode(u, n) && KeyOf(u, n) == KeyOf(g, n) && |u[n].links| == |g[n].links|
    requires forall i :: 0 <= i < |g[n].links| ==> u[n].links[i].node == g[n].links[i].node
    ensures OnlyLinks(g, u, {})
  {
    hide OnlyLinks;
    OneMoreLink(g, u, n, KeyOf(g, n), KeyOf(g, n));
  }

  lemma AddedAt(g: Graph, n: NodeId, link: Link, nodeCount: nat, dynamicPrecedence: int)
    requires IsNode(g, n) && IsNode(g, link.node)
    ensures MoreAt(g, LinkAdded(g, n, link, nodeCount, dynamicPrecedence), n)
  {
  }

  lemma NewLink(g: Graph, u: Graph, n: NodeId, link: Link)
    requires MoreAt(g, u, n) && Grown(g, u) && IsNode(g, n) && IsNode(u, n) && IsNode(g, link.node)
    requires u[n].links == g[n].links + [link]
    ensures OnlyLinks(g, u, {(KeyOf(g, n), KeyOf(g, link.node))})
  {
    hide OnlyLinks;
    assert HasLink(u, n, |g[n].links|, KeyOf(g, n), KeyOf(g, link.node));
    OneMoreLink(g, u, n, KeyOf(g, n), KeyOf(g, link.node));
  }

  lemma OldLink(g: Graph, n: NodeId, i: nat)
    requires IsNode(g, n) && i < |g[n].links| && IsNode(g, g[n].links[i].node)
    ensures KeyLinked(g, KeyOf(g, n), KeyOf(g, g[n].links[i].node))
  {
    assert HasLink(g, n, i, KeyOf(g, n), KeyOf(g, g[n].links[i].node));
  }

  lemma MergedKeys(g: Graph, m: Memory, u: Graph, m': Memory, n: NodeId, i: nat, link: Link)
    requires GrownIn(g, m, u, m') && IsNode(g, n) && i < |g[n].links| && IsNode(g, link.node)
    ensures IsNode(u, n) && i < |u[n].links| && u[n].links[i].node == g[n].links[i].node && IsNode(u, link.node)
    ensures LabelOf(m', u[n].links[i].subtree) == LabelOf(m, g[n].links[i].subtree)
  {
    hide LabelOf;
    assert LinkKept(m, g[n].links[i], m', u[n].links[i]);
  }

  lemma GrowsOn(g: Graph, m: Memory, u: Graph, m1: Memory, v: Graph, m2: Memory, n: NodeId, n': NodeId)
    requires GrownIn(g, m, u, m1) && GrownIn(u, m1, v, m2)
    ensures GrownIn(g, m, v, m2) && (!FullBelow(v, n) ==> !FullBelow(u, n))
    ensures ReadsAll(g, m, n', u, m1, n) ==> ReadsAll(g, m, n', v, m2, n)
  {
    GrownInTransitive(g, m, u, m1, v, m2);
    GrownAlready(u, m1, v, m2);
    hide GrownIn, Grown, FullBelow, Reads;
    GrownFull(u, v, n);
    if ReadsAll(g, m, n', u, m1, n) {
      forall ks | Reads(g, m, n', ks) ensures Reads(v, m2, n, ks) {
        GrownReads(u, m1, v, m2, n, ks);
      }
    }
  }

  lemma MergedBelow(g: Graph, m: Memory, u: Graph, m': Memory, n: NodeId, i: nat, link: Link)
    requires IsNode(u, n) && i < |u[n].links| && LabelOf(m', u[n].links[i].subtree) == LabelOf(m, link.subtree)
    ensures ReadsAll(g, m, link.node, u, m', u[n].links[i].node) ==> ReadsAllOver(g, m, link, u, m', n)
    ensures !FullBelow(u, n) ==> !FullBelow(u, u[n].links[i].node)
  {
    hide FullBelow, LabelOf;
    if FullBelow(u, u[n].links[i].node) {
      FullThrough(u, n, i);
    }
    if ReadsAll(g, m, link.node, u, m', u[n].links[i].node) {
      forall ks | ReadsOver(g, m, link, ks) ensures ReadsBelow(u, m', n, ks) {
        assert Reads(g, m, link.node, ks);
        assert ReadsOver(u, m', u[n].links[i], ks);
      }
    }
  }

  /** One more link of `other` has been added to `self`. */
  lemma MergedOne(g: Graph, m: Memory, u: Graph, m1: Memory, v: Graph, m2: Memory, self: NodeId, other: NodeId, j: nat)
    requires GrownIn(g, m, u, m1) && GrownIn(u, m1, v, m2)
    requires IsNode(g, self) && IsNode(g, other) && IsNode(u, other) && j < |u[other].links|
    requires !FullBelow(v, self) ==> ReadsAllOver(u, m1, u[other].links[j], v, m2, self)
    requires !FullBelow(u, self) ==> forall k :: 0 <= k < j && k < |g[other].links| ==>
               ReadsAllOver(g, m, g[other].links[k], u, m1, self)
    ensures GrownIn(g, m, v, m2) && IsNode(v, self) && IsNode(v, other)
    ensures KeyOf(v, self) == KeyOf(g, self) && KeyOf(v, other) == KeyOf(g, other) && |g[other].links| <= |v[other].links|
    ensures !FullBelow(v, self) ==> forall k :: 0 <= k < j + 1 && k < |g[other].links| ==>
              ReadsAllOver(g, m, g[other].links[k], v, m2, self)
  {
    GrowsOn(g, m, u, m1, v, m2, self, other);
    GrownNode(g, m, v, m2, self);
    GrownNode(g, m, v, m2, other);
    hide GrownIn, FullBelow, ReadsOver, ReadsBelow;
    if !FullBelow(v, self) {
      forall k | 0 <= k < j + 1 && k < |g[other].links| ensures ReadsAllOver(g, m, g[other].links[k], v, m2, self) {
        forall ks | ReadsOver(g, m, g[other].links[k], ks) ensures ReadsBelow(v, m2, self, ks) {
          if k == j {
            KeptLink(g, m, u, m1, other, k);
            GrownOver(g, m, u, m1, g[other].links[k], u[other].links[k], ks);
          } else {
            assert ReadsBelow(u, m1, self, ks);
            GrownReads(u, m1, v, m2, self, ks);
          }
        }
      }
    }
  }

  lemma GrownNode(g: Graph, m: Memory, u: Graph, m': Memory, n: NodeId)
    requires GrownIn(g, m, u, m') && IsNode(g, n)
    ensures IsNode(u, n) && KeyOf(u, n) == KeyOf(g, n) && |g[n].links| <= |u[n].links|
  {
  }

  lemma KeptLink(g: Graph, m: Memory, u: Graph, m': Memory, n: NodeId, i: nat)
    requires GrownIn(g, m, u, m') && IsNode(g, n) && i < |g[n].links|
    ensures IsNode(u, n) && i < |u[n].links| && LinkKept(m, g[n].links[i], m', u[n].links[i])
  {
    hide LabelOf;
  }

  lemma AllMerged(g: Graph, m: Memory, u: Graph, m': Memory, self: NodeId, other: NodeId)
    requires IsNode(g, other) && IsNode(u, self) && KeyOf(u, self) == KeyOf(g, other)
    requires forall k :: 0 <= k < |g[other].links| ==> ReadsAllOver(g, m, g[other].links[k], u, m', self)
    ensures ReadsAll(g, m, other, u, m', self)
  {
    hide LabelOf;
    forall ks | Reads(g, m, other, ks) ensures Reads(u, m', self, ks) {
      if |ks| > 1 {
        assert ReadsBelow(g, m, other, ks[1..]);
        var k :| 0 <= k < |g[other].links| && ReadsOver(g, m, g[other].links[k], ks[1..]);
        assert ReadsAllOver(g, m, g[other].links[k], u, m', self);
      }
    }
  }

  lemma HeadsAround(heads: seq<Head>, v: nat, h: Head)
    requires v < |heads|
    ensures HeadNodes(heads) == HeadNodes(Without(heads, v)) + multiset{heads[v].node}
    ensures HeadTrees(heads) == HeadTrees(Without(heads, v)) + HeadTree(heads[v])
    ensures HeadNodes(heads[v := h]) == HeadNodes(Without(heads, v)) + multiset{h.node}
    ensures HeadTrees(heads[v := h]) == HeadTrees(Without(heads, v)) + HeadTree(h)
  {
    hide Gather;
    assert Without(heads[v := h], v) == Without(heads, v);
    GatherAround(heads, v, HeadNode);
    GatherAround(heads, v, HeadTree);
    GatherAround(heads[v := h], v, HeadNode);
    GatherAround(heads[v := h], v, HeadTree);
  }

  /** What one version holds and what the others, the base and the callers hold. */
  lemma TakeHead(heads: seq<Head>, v: nat, h: Head, base: NodeId, keep: multiset<Ref>)
    requires v < |heads| && HeadNode(h) == HeadNode(heads[v]) && HeadTree(h) == HeadTree(heads[v])
    ensures HeadNodes(heads) + multiset{base} == HeadNodes(Without(heads, v)) + multiset{base} + multiset{h.node}
    ensures HeadTrees(heads) + keep == HeadTrees(Without(heads, v)) + keep + HeadTree(h)
  {
    hide Gather, HeadTree;
    HeadsAround(heads, v, heads[v]);
  }

  lemma SameHeld(h: Head, k: Head)
    requires h.(summary := NoSummary) == k.(summary := NoSummary)
    ensures HeadNode(h) == HeadNode(k) && HeadTree(h) == HeadTree(k)
  {
    assert h.node == h.(summary := NoSummary).node && k.node == k.(summary := NoSummary).node;
  }

  /** After a renumbering, the versions are the old ones but for the replaced one. */
  lemma Renumbered(heads: seq<Head>, v1: nat, v2: nat, source: Head)
    requires v2 < v1 < |heads| && HeadNode(source) == HeadNode(heads[v1]) && HeadTree(source) == HeadTree(heads[v1])
    ensures HeadNodes(Without(heads[v2 := source], v1)) == HeadNodes(Without(heads, v2))
    ensures HeadTrees(Without(heads[v2 := source], v1)) == HeadTrees(Without(heads, v2))
  {
    hide Gather;
    HeadsAround(heads, v2, source);
    HeadsAround(heads[v2 := source], v1, source);
    CancelRight(HeadNodes(Without(heads[v2 := source], v1)), HeadNodes(Without(heads, v2)), HeadNode(source));
    CancelRight(HeadTrees(Without(heads[v2 := source], v1)), HeadTrees(Without(heads, v2)), HeadTree(source));
  }

  lemma Swapped(heads: seq<Head>, v1: nat, v2: nat)
    requires v1 < |heads| && v2 < |heads|
    ensures var swapped := heads[v1 := heads[v2]][v2 := heads[v1]];
            HeadNodes(swapped) == HeadNodes(heads) && HeadTrees(swapped) == HeadTrees(heads)
  {
    hide Gather;
    var once := heads[v1 := heads[v2]];
    var swapped := once[v2 := heads[v1]];
    GatherUpdate(heads, v1, heads[v2], HeadNode);
    GatherUpdate(heads, v1, heads[v2], HeadTree);
    GatherUpdate(once, v2, heads[v1], HeadNode);
    GatherUpdate(once, v2, heads[v1], HeadTree);
    SwapBack(HeadNodes(heads), HeadNodes(once), HeadNodes(swapped), HeadNode(heads[v1]), HeadNode(heads[v2]));
    SwapBack(HeadTrees(heads), HeadTrees(once), HeadTrees(swapped), HeadTree(heads[v1]), HeadTree(heads[v2]));
  }

  lemma SwapBack<T>(a: multiset<T>, b: multiset<T>, c: multiset<T>, x: multiset<T>, y: multiset<T>)
    requires b + x == a + y && c + y == b + x
    ensures c == a
  {
    CancelRight(c, a, y);
  }

  lemma ShrunkItself(g: Graph)
    ensures Shrunk(g, g) && Grown(g, g)
  {
  }

  /** The node over another one: its numbers add up what the link brings. */
  function NodeOver(g: Graph, s: Store, link: Link, state: nat): Node
    requires IsNode(g, link.node) && TreeOk(s, link.subtree)
  {
    var p := g[link.node];
    Node(1, state, if link.subtree.Some? then Add(p.position, RefData(s, link.subtree.ref).Total()) else p.position, [link],
         p.errorCost + TreeCost(s, link.subtree), p.nodeCount + TreeNodeCount(s, link.subtree),
         p.dynamicPrecedence + TreePrecedence(s, link.subtree))
  }

  /** The position after a subtree, in bytes and in rows and columns. */
  function AddTree(p: Length, s: Store, t: StackTree): Length
    requires TreeOk(s, t)
  {
    match t
    case NullTree => p
    case Some(r) =>
      var more := RefData(s, r).Total().extent;
      Length(p.bytes + TreeBytes(s, t),
             if more.row > 0 then Point(p.extent.row + more.row, more.column)
             else Point(p.extent.row, p.extent.column + more.column))
  }

  lemma OverFits(g: Graph, s: Store, link: Link, state: nat)
    requires IsNode(g, link.node) && TreeOk(s, link.subtree)
    ensures var x := NodeOver(g, s, link, state);
            && x.refCount == 1 && x.state == state && x.links == [link]
            && x.position.bytes == g[link.node].position.bytes + TreeBytes(s, link.subtree)
            && x.errorCost == g[link.node].errorCost + TreeCost(s, link.subtree)
            && x.position == AddTree(g[link.node].position, s, link.subtree)
            && x.nodeCount == g[link.node].nodeCount + TreeNodeCount(s, link.subtree)
            && x.dynamicPrecedence == g[link.node].dynamicPrecedence + TreePrecedence(s, link.subtree)
  {
  }

  lemma NewIsThere(g: Graph, u: Graph, a: NodeId, x: Node)
    requires NewAt(g, u, a, x)
    ensures IsNode(u, a) && u[a] == x && !IsNode(g, a)
  {
  }

  lemma TokenIsOk(s: Store, heads: seq<Head>, v: nat, trees: multiset<Ref>, keep: multiset<Ref>)
    requires v < |heads| && forall r :: r in trees + (HeadTrees(heads) + keep) ==> ValidRef(s, r)
    ensures TreeOk(s, heads[v].lastExternalToken) && TreeOk(s, heads[v].lookaheadWhenPaused)
  {
    HeadsAround(heads, v, heads[v]);
    hide Gather;
    var t, l := heads[v].lastExternalToken, heads[v].lookaheadWhenPaused;
    if t.Some? {
      assert t.ref in HeadTree(heads[v]);
      assert t.ref in trees + (HeadTrees(heads) + keep);
    }
    if l.Some? {
      assert l.ref in HeadTree(heads[v]);
      assert l.ref in trees + (HeadTrees(heads) + keep);
    }
  }

  /** A subtree whose references are counted. */
  predicate CountsReferences(t: StackTree) { t.Some? && t.ref.Ptr? }

  /** A reference that no count stands for spoils the counts, unless it needs none. */
  lemma MoreHandles(s: Store, held: multiset<Ref>, t: StackTree)
    requires Counted(s, held, multiset{}) && TreeOk(s, t)
    ensures Counted(s, held + Handles(t), multiset{}) <==> !CountsReferences(t)
  {
    hide Edges;
    if CountsReferences(t) {
      var a := t.ref.addr;
      assert s[a].refCount == Edges(s)[Ptr(a)] + held[Ptr(a)];
      assert (held + Handles(t))[Ptr(a)] == held[Ptr(a)] + 1;
    }
  }

  lemma StillValid(s: Store, u: Store, t: StackTree)
    requires TreeOk(s, t) && u == if t.Some? then RaiseRef(s, t.ref) else s
    ensures forall r :: ValidRef(s, r) ==> ValidRef(u, r) && RefData(u, r) == RefData(s, r)
  {
  }

  lemma ShareTaken(s: Store, trees: multiset<Ref>, heads: multiset<Ref>, keep: multiset<Ref>, t: StackTree, u: Store)
    requires forall r :: ValidRef(s, r) ==> ValidRef(u, r) && RefData(u, r) == RefData(s, r)
    requires Counted(s, trees + (heads + keep), multiset{})
    ensures trees + (heads + (keep + Handles(t))) == trees + (heads + keep) + Handles(t)
    ensures t.NullTree? ==> trees + (heads + (keep + Handles(t))) == trees + (heads + keep)
    ensures SameTrees(s, u, trees)
  {
    hide Edges;
    forall r | r in trees ensures ValidRef(s, r) {
      assert r in trees + (heads + keep);
    }
  }

  /** A version that moves to another node gives up its share of the one and holds one of the other. */
  lemma HeadMoves(heads: seq<Head>, v: nat, h: Head, base: NodeId)
    requires v < |heads| && HeadTree(h) == HeadTree(heads[v])
    ensures var others := HeadNodes(Without(heads, v)) + multiset{base};
            && HeadNodes(heads) + multiset{base} == others + multiset{heads[v].node}
            && HeadNodes(heads[v := h]) + multiset{base} == others + multiset{h.node}
    ensures HeadTrees(heads[v := h]) == HeadTrees(heads)
  {
    hide HeadNodes, HeadTrees;
    HeadsAround(heads, v, h);
  }

  lemma HandMoves<T>(trees: multiset<T>, heads: multiset<T>, keep: multiset<T>, given: multiset<T>, more: multiset<T>)
    requires more == trees + given
    ensures trees + (heads + (keep + given)) == more + (heads + keep)
  {
  }

  lemma GivenIsOk(s: Store, trees: multiset<Ref>, heads: multiset<Ref>, keep: multiset<Ref>, t: StackTree)
    requires forall r :: r in trees + (heads + (keep + Handles(t))) ==> ValidRef(s, r)
    ensures TreeOk(s, t)
  {
    if t.Some? {
      assert t.ref in trees + (heads + (keep + Handles(t)));
    }
  }

  lemma PoolKeeps(g: Graph, u: Graph, nodePool: seq<NodeId>)
    requires NodePoolOk(g, nodePool)
    requires forall m: NodeId :: m < |g| && g[m].FreeNode? ==> m < |u| && u[m].FreeNode?
    ensures NodePoolOk(u, nodePool)
  {
  }

  lemma SwapHeld<T>(after: multiset<T>, before: multiset<T>, out: multiset<T>, in_: multiset<T>, held: multiset<T>)
    requires after + out == before + in_
    ensures before + held + in_ == after + held + out
  {
    forall x ensures (before + held + in_)[x] == (after + held + out)[x] {
      assert (after + out)[x] == (before + in_)[x];
    }
  }

  /** Lowering a count that stays positive changes nothing else. */
  lemma LowerKeeps(level: Key -> nat, g: Graph, n: NodeId, held: multiset<NodeId>, nodePool: seq<NodeId>, s: Store)
    requires IsNode(g, n) && g[n].refCount > 1 && NodesCounted(g, held + multiset{n}) && GraphOk(level, g) && Exact(g, s)
    requires NodePoolOk(g, nodePool)
    ensures var u := g[n := Lowered(g[n])];
            && NodesCounted(u, held) && GraphOk(level, u) && Exact(u, s) && Shrunk(g, u) && Trees(u) == Trees(g)
            && NodePoolOk(u, nodePool)
  {
    hide GraphOk, NodesCounted, NodePoolOk, Exact, Trees, Targets, Grown, Shrunk;
    NumbersKeep(level, g, n, Lowered(g[n]), s);
    LowerCounts(g, n, held);
    PoolStays(g, n, Lowered(g[n]), nodePool);
  }

  lemma ShrunkKey(g: Graph, u: Graph, n: NodeId)
    requires Shrunk(g, u) && IsNode(u, n)
    ensures IsNode(g, n) && KeyOf(u, n) == KeyOf(g, n)
  {
  }

  /** A node about to be freed: what it leaves, and to whom. */
  lemma FreeReady(level: Key -> nat, g: Graph, n: NodeId, heldNodes: multiset<NodeId>, heldTrees: multiset<Ref>,
                  nodePool: seq<NodeId>, s: Store)
    requires IsNode(g, n) && g[n].refCount == 1 && NodesCounted(g, heldNodes + multiset{n}) && GraphOk(level, g) && Exact(g, s)
    requires NodePoolOk(g, nodePool)
    ensures var u, links := g[n := FreeNode], g[n].links;
            && GraphOk(level, u) && Exact(u, s) && Shrunk(g, u) && NodePoolOk(u, nodePool) && n !in nodePool
            && NodesCounted(u, NodesLeft(links, |links|, heldNodes))
            && Trees(g) + heldTrees == Trees(u) + TreesLeft(links, |links|, heldTrees)
            && forall k :: 0 <= k < |links| ==>
                 IsNode(u, links[k].node) && level(KeyOf(u, links[k].node)) < level(KeyOf(g, n))
                 && KeyOf(u, links[k].node) == KeyOf(g, links[k].node)
  {
    hide GraphOk, NodesCounted, NodePoolOk, Exact, Trees, Targets, Shrunk, NodeTargets, NodeTrees, Gather;
    FreeKeeps(level, g, n, heldNodes, s);
    PoolStays(g, n, FreeNode, nodePool);
    NodeLinks(level, g, n);
    assert g[n].links[..|g[n].links|] == g[n].links;
  }

  lemma NodeReleased(g0: Graph, g: Graph, u: Graph, v: Graph, p0: seq<NodeId>, p: seq<NodeId>, p': seq<NodeId>, n: NodeId,
                     s0: Store, s: Store, s': Store, held: multiset<Ref>)
    requires Shrunk(g0, g) && Shrunk(g, u) && Shrunk(u, v) && IsNode(g, n)
    requires PooledFrom(g0, p0, p) && PooledFrom(u, p + [n], p')
    requires SameTrees(s0, s, Trees(g) + held) && SameTrees(s, s', Trees(v) + held)
    ensures Shrunk(g0, v) && PooledFrom(g0, p0, p') && Shrunk(g, v)
    ensures SameTrees(s0, s', Trees(v) + held)
  {
    hide Trees, SameTrees;
    ShrunkTrees(g, v);
    TreesThrough(s0, s, s', s', Trees(g), Trees(v), held);
  }

  /** The nodes held besides those of the first `i` links. */
  ghost function NodesLeft(links: seq<Link>, i: nat, held: multiset<NodeId>): multiset<NodeId>
    requires i <= |links|
  {
    held + Gather(links[..i], TargetOf)
  }

  ghost function TreesLeft(links: seq<Link>, i: nat, held: multiset<Ref>): multiset<Ref>
    requires i <= |links|
  {
    held + Gather(links[..i], TreeOf)
  }

  lemma LinkHeld(links: seq<Link>, i: nat, heldNodes: multiset<NodeId>, heldTrees: multiset<Ref>)
    requires i < |links|
    ensures NodesLeft(links, i + 1, heldNodes) == NodesLeft(links, i, heldNodes) + multiset{links[i].node}
    ensures TreesLeft(links, i + 1, heldTrees) == TreesLeft(links, i, heldTrees) + Handles(links[i].subtree)
  {
    GatherNext(links, i, TargetOf);
    GatherNext(links, i, TreeOf);
  }

  lemma NoLinkHeld(links: seq<Link>, heldNodes: multiset<NodeId>, heldTrees: multiset<Ref>)
    ensures NodesLeft(links, 0, heldNodes) == heldNodes && TreesLeft(links, 0, heldTrees) == heldTrees
  {
  }

  lemma LinkReleased(g0: Graph, g: Graph, u: Graph, p0: seq<NodeId>, p: seq<NodeId>, p': seq<NodeId>,
                     s0: Store, s: Store, s': Store, held: multiset<Ref>, given: multiset<Ref>)
    requires Shrunk(g0, g) && (g == u || Shrunk(g, u)) && PooledFrom(g0, p0, p) && (p == p' || PooledFrom(g, p, p'))
    requires SameTrees(s0, s, Trees(g) + (held + given)) && SameTrees(s, s', Trees(u) + held)
    ensures Shrunk(g0, u) && PooledFrom(g0, p0, p') && SameTrees(s0, s', Trees(u) + held)
  {
    hide Trees, SameTrees;
    if g != u {
      ShrunkTrees(g, u);
    }
    TreesGiven(s0, s, Trees(g), held, given);
    TreesThrough(s0, s, s', s', Trees(g), Trees(u), held);
  }

  lemma TreesGiven(s: Store, u: Store, refs: multiset<Ref>, held: multiset<Ref>, given: multiset<Ref>)
    requires SameTrees(s, u, refs + (held + given))
    ensures SameTrees(s, u, refs + held)
  {
  }

  lemma PoolGrows(g0: Graph, g: Graph, p0: seq<NodeId>, p: seq<NodeId>, n: NodeId)
    requires NodePoolOk(g, p) && PooledFrom(g0, p0, p) && Shrunk(g0, g) && |g0| == |g|
    requires n < |g| && g0[n].FreeNode? && n !in p0
    ensures NodePoolOk(g, p + [n]) && PooledFrom(g0, p0 + [n], p + [n]) && PooledFrom(g0, p0 + [n], p)
  {
    assert !IsNode(g, n) && n !in p;
  }

  /** What remains of a graph has no subtrees that were not there. */
  lemma ShrunkTrees(g: Graph, u: Graph)
    requires Shrunk(g, u)
    ensures forall r :: r in Trees(u) ==> r in Trees(g)
  {
    hide Trees;
    forall r | r in Trees(u) ensures r in Trees(g) {
      TreeHasLink(u, r);
      var n: NodeId, i: nat :| IsNode(u, n) && i < |u[n].links| && u[n].links[i].subtree == Some(r);
      LinkIsCounted(g, n, i);
    }
  }

  lemma TreeHasLink(g: Graph, r: Ref)
    requires r in Trees(g)
    ensures exists n: NodeId, i: nat :: IsNode(g, n) && i < |g[n].links| && g[n].links[i].subtree == Some(r)
  {
    var n := GatheredFrom(g, r, NodeTrees);
    var i := GatheredFrom(g[n].links, r, TreeOf);
  }

  lemma FewerTrees(s: Store, u: Store, few: multiset<Ref>, more: multiset<Ref>)
    requires SameTrees(s, u, few + more)
    ensures SameTrees(s, u, few)
  {
  }

  /** Subtrees that are held all the way through three changes of memory stay the same. */
  lemma TreesThrough(s0: Store, s1: Store, s2: Store, s3: Store, before: multiset<Ref>, after: multiset<Ref>, held: multiset<Ref>)
    requires forall r :: r in after ==> r in before
    requires s0 == s1 || SameTrees(s0, s1, before + held)
    requires SameTrees(s1, s2, before + held) || SameTrees(s1, s2, after + held)
    requires s2 == s3 || SameTrees(s2, s3, after + held)
    ensures SameTrees(s0, s3, after + held)
  {
    forall r | r in after + held ensures ValidRef(s0, r) && ValidRef(s3, r) && RefData(s3, r) == RefData(s0, r) {
      assert r in before + held;
    }
  }

  lemma NodeLinks(level: Key -> nat, g: Graph, n: NodeId)
    requires GraphOk(level, g) && IsNode(g, n)
    ensures NodeTargets(g[n]) == Gather(g[n].links, TargetOf) && NodeTrees(g[n]) == Gather(g[n].links, TreeOf)
    ensures forall k :: 0 <= k < |g[n].links| ==>
              IsNode(g, g[n].links[k].node) && level(KeyOf(g, g[n].links[k].node)) < level(KeyOf(g, n))
              && g[n].links[k].node != n
  {
    assert NodeOk(level, g, n);
  }

  lemma Unchanged(g: Graph, s: Store, p: seq<NodeId>, refs: multiset<Ref>)
    requires forall r :: r in refs ==> ValidRef(s, r)
    ensures Shrunk(g, g) && PooledFrom(g, p, p) && SameTrees(s, s, refs) && Grown(g, g)
  {
  }

  lemma FirstNode(x: Node, h: Head, s: Store)
    requires x == Node(2, 1, ZERO, [], 0, 0, 0) && h == Head(0, NoSummary, 0, NullTree, NullTree, Active)
    ensures NodesCounted([x], HeadNodes([h]) + multiset{0}) && Trees([x]) == multiset{} && HeadTrees([h]) == multiset{}
    ensures Exact([x], s) && NodePoolOk([x], []) && forall level: Key -> nat :: GraphOk(level, [x])
  {
    GatherOne(x, NodeTargets);
    GatherOne(x, NodeTrees);
    GatherOne(h, HeadNode);
    GatherOne(h, HeadTree);
  }

  lemma RaisedSame(s: Store, u: Store, t: StackTree, held: multiset<Ref>)
    requires TreeOk(s, t) && (forall r :: r in held ==> ValidRef(s, r))
    requires u == if t.Some? then RaiseRef(s, t.ref) else s
    ensures SameTrees(s, u, held + Handles(t))
  {
  }

  lemma RemainingSame(s: Store, u: Store, keep: multiset<Ref>)
    requires Counted(u, keep, multiset{}) && Extends(u, s)
    ensures SameTrees(s, u, keep)
  {
    hide Edges;
  }

  lemma HandleCounts(s: Store, keep: multiset<Ref>, r: Ref)
    requires Counted(s, keep + multiset{r}, multiset{}) && NoneDead(s)
    ensures ValidRef(s, r) && (r.Ptr? ==> s[r.addr].refCount > 0)
  {
    hide Edges;
    assert r in keep + multiset{r};
  }
}
