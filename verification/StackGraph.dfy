/**
 * The parse stack as a graph: nodes that share predecessors through counted links, what a link
 * says about the two nodes it connects, and which histories can be read off the graph.
 */
module StackGraphs {
  import opened Lengths
  import opened Subtrees
  import opened SubtreePools
  import opened Gathering
  import VisibleNodes

  type NodeId = nat

  const MAX_LINK_COUNT: nat := 8
  const MAX_NODE_POOL_SIZE: nat := 50
  const ERROR_STATE: nat := 0

  /** The subtree on a link: none where error recovery put a discontinuity. */
  datatype StackTree = NullTree | Some(ref: Ref)

  datatype Link = Link(node: NodeId, subtree: StackTree, isPending: bool)

  datatype Node =
    | FreeNode
    | Node(refCount: nat, state: nat, position: Length, links: seq<Link>, errorCost: nat, nodeCount: nat, dynamicPrecedence: int)

  type Graph = seq<Node>

  predicate IsNode(g: Graph, n: NodeId) { n < |g| && g[n].Node? }

  // ----- subtrees on links ---------------------------------------------------------------------

  predicate TreeOk(s: Store, t: StackTree) { t.Some? ==> ValidRef(s, t.ref) }

  function TreeBytes(s: Store, t: StackTree): nat {
    if t.Some? && ValidRef(s, t.ref) then RefData(s, t.ref).Total().bytes else 0
  }

  function TreeCost(s: Store, t: StackTree): nat {
    if t.Some? && ValidRef(s, t.ref) then RefData(s, t.ref).ErrorCost() else 0
  }

  function TreePrecedence(s: Store, t: StackTree): int {
    if t.Some? && ValidRef(s, t.ref) then RefData(s, t.ref).DynamicPrecedence() else 0
  }

  /** How much progress a subtree stands for: visible nodes, and the groups of an error. */
  function TreeNodeCount(s: Store, t: StackTree): nat {
    if t.Some? && ValidRef(s, t.ref) then
      var d := RefData(s, t.ref);
      d.VisibleDescendants() + (if d.visible then 1 else 0) + (if d.symbol == SYM_ERROR_REPEAT then 1 else 0)
    else 0
  }

  /** The progress of a subtree is the number of nodes that its users see, and one for a group of an error. */
  lemma ProgressIsVisible(lang: Language, s: Store, rank: seq<nat>, r: Ref)
    requires Linked(s, rank) && ValidRef(s, r) && VisibleNodes.Counted(lang, View(s, rank, r))
    ensures var d := RefData(s, r);
            TreeNodeCount(s, Some(r))
            == |VisibleNodes.Visible(lang, View(s, rank, r), d.visible)| + if d.symbol == SYM_ERROR_REPEAT then 1 else 0
  {
    assert View(s, rank, r).data == RefData(s, r) by { hide VisibleNodes.Counted; }
    hide Linked, View;
  }

  function Handles(t: StackTree): multiset<Ref> {
    match t
    case NullTree => multiset{}
    case Some(r) => multiset{r}
  }

  // ----- the graph -----------------------------------------------------------------------------

  /** What two nodes must share to be merged. */
  datatype Key = Key(state: nat, bytes: nat, cost: nat)

  function KeyOf(g: Graph, n: NodeId): Key
    requires IsNode(g, n)
  {
    Key(g[n].state, g[n].position.bytes, g[n].errorCost)
  }

  /** Links lead to nodes of a lower level, which depends on what merging compares. */
  ghost predicate GraphOk(level: Key -> nat, g: Graph) {
    forall n: NodeId :: IsNode(g, n) ==> NodeOk(level, g, n)
  }

  ghost predicate NodeOk(level: Key -> nat, g: Graph, n: NodeId)
    requires IsNode(g, n)
  {
    && |g[n].links| <= MAX_LINK_COUNT
    && forall i :: 0 <= i < |g[n].links| ==>
         IsNode(g, g[n].links[i].node) && level(KeyOf(g, g[n].links[i].node)) < level(KeyOf(g, n))
  }

  /** Going over the link from `n` adds exactly the bytes and the cost of its subtree. */
  predicate Fits(g: Graph, s: Store, n: NodeId, link: Link)
    requires IsNode(g, n)
  {
    && IsNode(g, link.node)
    && g[n].position.bytes == g[link.node].position.bytes + TreeBytes(s, link.subtree)
    && g[n].errorCost == g[link.node].errorCost + TreeCost(s, link.subtree)
  }

  ghost predicate Exact(g: Graph, s: Store) {
    forall n: NodeId, link: Link :: IsNode(g, n) && link in g[n].links ==> Fits(g, s, n, link)
  }

  // ----- counts --------------------------------------------------------------------------------

  function TargetOf(link: Link): multiset<NodeId> { multiset{link.node} }

  function TreeOf(link: Link): multiset<Ref> { Handles(link.subtree) }

  ghost function NodeTargets(n: Node): multiset<NodeId> { if n.FreeNode? then multiset{} else Gather(n.links, TargetOf) }

  ghost function NodeTrees(n: Node): multiset<Ref> { if n.FreeNode? then multiset{} else Gather(n.links, TreeOf) }

  /** All the nodes that links lead to, each as often as links do. */
  ghost function Targets(g: Graph): multiset<NodeId> { Gather(g, NodeTargets) }

  /** All the subtrees on links. */
  ghost function Trees(g: Graph): multiset<Ref> { Gather(g, NodeTrees) }

  /** Each count is the number of links to the node and of handles outside, and nothing is garbage. */
  ghost predicate NodesCounted(g: Graph, held: multiset<NodeId>) {
    && (forall n: NodeId :: IsNode(g, n) ==> g[n].refCount == Targets(g)[n] + held[n] && g[n].refCount > 0)
    && forall n :: n in held ==> IsNode(g, n)
  }

  ghost predicate NodePoolOk(g: Graph, pool: seq<NodeId>) {
    && (forall i :: 0 <= i < |pool| ==> pool[i] < |g| && g[pool[i]].FreeNode?)
    && forall i, j :: 0 <= i < j < |pool| ==> pool[i] != pool[j]
  }

  lemma LinkIsCounted(g: Graph, n: NodeId, i: nat)
    requires IsNode(g, n) && i < |g[n].links|
    ensures g[n].links[i].node in Targets(g)
    ensures g[n].links[i].subtree.Some? ==> g[n].links[i].subtree.ref in Trees(g)
  {
    GatherAround(g, n, NodeTargets);
    GatherAround(g, n, NodeTrees);
    GatherAround(g[n].links, i, TargetOf);
    GatherAround(g[n].links, i, TreeOf);
  }

  lemma CountedLink(g: Graph, m: NodeId) returns (n: NodeId, i: nat)
    requires m in Targets(g)
    ensures IsNode(g, n) && i < |g[n].links| && g[n].links[i].node == m
  {
    n := GatheredFrom(g, m, NodeTargets);
    i := GatheredFrom(g[n].links, m, TargetOf);
  }

  // ----- growing and shrinking -----------------------------------------------------------------

  /** `u` has the nodes of `g` and their links, though perhaps other subtrees on them. */
  ghost predicate Grown(g: Graph, u: Graph) {
    forall n: NodeId :: IsNode(g, n) ==>
      && IsNode(u, n) && KeyOf(u, n) == KeyOf(g, n) && |g[n].links| <= |u[n].links|
      && forall i :: 0 <= i < |g[n].links| ==> u[n].links[i].node == g[n].links[i].node
  }

  /** The nodes of `u` are nodes of `g` with the same links. */
  ghost predicate Shrunk(g: Graph, u: Graph) {
    forall n: NodeId :: IsNode(u, n) ==> IsNode(g, n) && KeyOf(u, n) == KeyOf(g, n) && u[n].links == g[n].links
  }

  lemma GrownTransitive(g: Graph, u: Graph, v: Graph)
    requires Grown(g, u) && Grown(u, v)
    ensures Grown(g, v)
  {
  }

  lemma ShrunkTransitive(g: Graph, u: Graph, v: Graph)
    requires Shrunk(g, u) && Shrunk(u, v)
    ensures Shrunk(g, v)
  {
  }

  // ----- paths ---------------------------------------------------------------------------------

  /** Taking the links numbered `path` one after the other leads from `n` to `m`. */
  predicate Leads(g: Graph, n: NodeId, path: seq<nat>, m: NodeId)
    decreases |path|
  {
    if path == [] then IsNode(g, n) && n == m
    else IsNode(g, n) && path[0] < |g[n].links| && Leads(g, g[n].links[path[0]].node, path[1..], m)
  }

  function PathBytes(g: Graph, s: Store, n: NodeId, path: seq<nat>): nat
    decreases |path|
  {
    if path == [] || !IsNode(g, n) || path[0] >= |g[n].links| then 0
    else TreeBytes(s, g[n].links[path[0]].subtree) + PathBytes(g, s, g[n].links[path[0]].node, path[1..])
  }

  function PathCost(g: Graph, s: Store, n: NodeId, path: seq<nat>): nat
    decreases |path|
  {
    if path == [] || !IsNode(g, n) || path[0] >= |g[n].links| then 0
    else TreeCost(s, g[n].links[path[0]].subtree) + PathCost(g, s, g[n].links[path[0]].node, path[1..])
  }

  lemma {:induction false} PathIsExact(g: Graph, s: Store, n: NodeId, path: seq<nat>, m: NodeId)
    requires Exact(g, s) && Leads(g, n, path, m)
    ensures IsNode(g, n) && IsNode(g, m)
    ensures g[n].position.bytes == g[m].position.bytes + PathBytes(g, s, n, path)
    ensures g[n].errorCost == g[m].errorCost + PathCost(g, s, n, path)
    decreases |path|
  {
    if path != [] {
      var link := g[n].links[path[0]];
      assert Fits(g, s, n, link);
      PathIsExact(g, s, link.node, path[1..], m);
    }
  }

  /** All paths between two nodes have the same length and the same cost. */
  lemma PathsAgree(g: Graph, s: Store, n: NodeId, p: seq<nat>, q: seq<nat>, m: NodeId)
    requires Exact(g, s) && Leads(g, n, p, m) && Leads(g, n, q, m)
    ensures PathBytes(g, s, n, p) == PathBytes(g, s, n, q) && PathCost(g, s, n, p) == PathCost(g, s, n, q)
  {
    PathIsExact(g, s, n, p, m);
    PathIsExact(g, s, n, q, m);
  }
}
