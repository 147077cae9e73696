/**
 * The histories that can be read off the graph: the nodes gone through, by what merging compares,
 * and the subtrees in between, by what makes two of them interchangeable.
 */
module StackHistories {
  import opened Lengths
  import opened Subtrees
  import opened SubtreePools
  import opened Gathering
  import opened StackGraphs
  import opened StackSteps

  // ----- what a subtree is taken for -----------------------------------------------------------

  /** The subtrees in memory, and the scanner states that are recorded in them. */
  datatype Memory = Memory(store: Store, scannerState: StackTree -> nat)

  datatype Label =
    | NoSubtree
    | Errored(symbol: Symbol)
    | Plain(symbol: Symbol, paddingBytes: nat, sizeBytes: nat, childCount: nat, extra: bool, scannerState: nat)

  function LabelOf(m: Memory, t: StackTree): Label {
    if t.NullTree? || !ValidRef(m.store, t.ref) then NoSubtree
    else
      var d := RefData(m.store, t.ref);
      if d.ErrorCost() > 0 then Errored(d.symbol)
      else Plain(d.symbol, d.padding.bytes, d.size.bytes, d.childCount, d.extra, m.scannerState(t))
  }

  /** Whether two subtrees are interchangeable on links from the same node. */
  predicate Equivalent(m: Memory, a: StackTree, b: StackTree)
    requires TreeOk(m.store, a) && TreeOk(m.store, b)
  {
    if a == b then true
    else if a.NullTree? || b.NullTree? then false
    else
      var x, y := RefData(m.store, a.ref), RefData(m.store, b.ref);
      && x.symbol == y.symbol
      && ((x.ErrorCost() > 0 && y.ErrorCost() > 0)
          || (&& x.padding.bytes == y.padding.bytes && x.size.bytes == y.size.bytes
              && x.childCount == y.childCount && x.extra == y.extra && m.scannerState(a) == m.scannerState(b)))
  }

  /** Among subtrees of the same cost, as there are between the same keys, the interchangeable ones are those with the same label. */
  lemma EquivalentIsSameLabel(m: Memory, a: StackTree, b: StackTree)
    requires TreeOk(m.store, a) && TreeOk(m.store, b) && TreeCost(m.store, a) == TreeCost(m.store, b)
    ensures Equivalent(m, a, b) <==> LabelOf(m, a) == LabelOf(m, b)
  {
  }

  /** Links between nodes with the same keys carry subtrees of the same cost. */
  lemma SameCost(g: Graph, s: Store, n: NodeId, a: Link, b: Link)
    requires IsNode(g, n) && Fits(g, s, n, a) && Fits(g, s, n, b) && KeyOf(g, a.node) == KeyOf(g, b.node)
    ensures TreeCost(s, a.subtree) == TreeCost(s, b.subtree)
  {
  }

  // ----- histories -----------------------------------------------------------------------------

  /** A node on the way, and the subtree on the link over which it was reached. */
  datatype Mark = Mark(over: Label, key: Key)

  /** `ks` can be read off the graph from `n` down; over which link `n` was reached makes no difference. */
  ghost predicate Reads(g: Graph, m: Memory, n: NodeId, ks: seq<Mark>)
    decreases |ks|, 1
  {
    ks != [] && IsNode(g, n) && ks[0].key == KeyOf(g, n) && (|ks| > 1 ==> ReadsBelow(g, m, n, ks[1..]))
  }

  /** `ks` can be read off the graph over some link of `n`. */
  ghost predicate ReadsBelow(g: Graph, m: Memory, n: NodeId, ks: seq<Mark>)
    decreases |ks|, 3
  {
    IsNode(g, n) && exists i :: 0 <= i < |g[n].links| && ReadsOver(g, m, g[n].links[i], ks)
  }

  ghost predicate ReadsOver(g: Graph, m: Memory, link: Link, ks: seq<Mark>)
    decreases |ks|, 2
  {
    ks != [] && ks[0].over == LabelOf(m, link.subtree) && Reads(g, m, link.node, ks)
  }

  /** Whatever can be read from `n` in `g` can be read from `n'` in `u`. */
  ghost predicate ReadsAll(g: Graph, m: Memory, n: NodeId, u: Graph, m': Memory, n': NodeId) {
    forall ks :: Reads(g, m, n, ks) ==> Reads(u, m', n', ks)
  }

  /** Whatever can be read over the link in `g` can be read below `n` in `u`. */
  ghost predicate ReadsAllOver(g: Graph, m: Memory, link: Link, u: Graph, m': Memory, n: NodeId) {
    forall ks :: ReadsOver(g, m, link, ks) ==> ReadsBelow(u, m', n, ks)
  }

  // ----- what growth keeps ---------------------------------------------------------------------

  /** The link leads where it did, over the same subtree or an interchangeable one of higher precedence. */
  predicate LinkKept(m: Memory, link: Link, m': Memory, link': Link) {
    && link'.node == link.node && LabelOf(m', link'.subtree) == LabelOf(m, link.subtree)
    && (|| TreePrecedence(m'.store, link'.subtree) > TreePrecedence(m.store, link.subtree)
        || (link'.subtree == link.subtree && TreePrecedence(m'.store, link'.subtree) == TreePrecedence(m.store, link.subtree)))
  }

  /** `u` has the nodes of `g`, with all their links. */
  ghost predicate GrownIn(g: Graph, m: Memory, u: Graph, m': Memory) {
    && Grown(g, u)
    && forall n: NodeId, i: nat :: IsNode(g, n) && i < |g[n].links| ==>
         IsNode(u, n) && i < |u[n].links| && LinkKept(m, g[n].links[i], m', u[n].links[i])
  }

  lemma GrownInItself(g: Graph, m: Memory)
    ensures GrownIn(g, m, g, m)
  {
  }

  lemma GrownInTransitive(g: Graph, m: Memory, u: Graph, m': Memory, v: Graph, m'': Memory)
    requires GrownIn(g, m, u, m') && GrownIn(u, m', v, m'')
    ensures GrownIn(g, m, v, m'')
  {
    GrownTransitive(g, u, v);
    hide Grown, LabelOf;
    forall n: NodeId, i: nat | IsNode(g, n) && i < |g[n].links|
      ensures IsNode(v, n) && i < |v[n].links| && LinkKept(m, g[n].links[i], m'', v[n].links[i])
    {
      assert LinkKept(m, g[n].links[i], m', u[n].links[i]);
      assert LinkKept(m', u[n].links[i], m'', v[n].links[i]);
    }
  }

  lemma SameLabel(m: Memory, m': Memory, t: StackTree, trees: multiset<Ref>)
    requires SameTrees(m.store, m'.store, trees) && m'.scannerState == m.scannerState && (t.Some? ==> t.ref in trees)
    ensures LabelOf(m', t) == LabelOf(m, t) && TreePrecedence(m'.store, t) == TreePrecedence(m.store, t)
  {
  }

  /** Links that were there first are kept as long as their subtrees stay in memory. */
  lemma LinksFirst(g: Graph, m: Memory, u: Graph, m': Memory)
    requires Grown(g, u) && SameTrees(m.store, m'.store, Trees(u)) && m'.scannerState == m.scannerState
    requires forall n: NodeId :: IsNode(g, n) ==> IsNode(u, n) && g[n].links <= u[n].links
    ensures GrownIn(g, m, u, m')
  {
    hide SameTrees, Trees, Grown, LabelOf;
    forall n: NodeId, i: nat | IsNode(g, n) && i < |g[n].links|
      ensures IsNode(u, n) && i < |u[n].links| && LinkKept(m, g[n].links[i], m', u[n].links[i])
    {
      LinkIsCounted(u, n, i);
      assert u[n].links[i] == g[n].links[i];
      SameLabel(m, m', u[n].links[i].subtree, Trees(u));
    }
  }

  /** One link may be given an interchangeable subtree of higher precedence. */
  lemma OneReplaced(g: Graph, m: Memory, u: Graph, m': Memory, n: NodeId, i: nat)
    requires Grown(g, u) && SameTrees(m.store, m'.store, Trees(u)) && m'.scannerState == m.scannerState
    requires IsNode(g, n) && IsNode(u, n) && i < |g[n].links| == |u[n].links|
    requires forall x: NodeId :: IsNode(g, x) && x != n ==> IsNode(u, x) && u[x].links == g[x].links
    requires forall j: nat :: j < |g[n].links| && j != i ==> u[n].links[j] == g[n].links[j]
    requires u[n].links[i].node == g[n].links[i].node
    requires LabelOf(m, u[n].links[i].subtree) == LabelOf(m, g[n].links[i].subtree)
    requires TreePrecedence(m.store, u[n].links[i].subtree) > TreePrecedence(m.store, g[n].links[i].subtree)
    ensures GrownIn(g, m, u, m')
  {
    hide SameTrees, Trees, Grown, LabelOf, TreePrecedence;
    forall x: NodeId, j: nat | IsNode(g, x) && j < |g[x].links|
      ensures IsNode(u, x) && j < |u[x].links| && LinkKept(m, g[x].links[j], m', u[x].links[j])
    {
      LinkIsCounted(u, x, j);
      SameLabel(m, m', u[x].links[j].subtree, Trees(u));
    }
  }

  /** Growth loses no history. */
  lemma {:induction false} GrownReads(g: Graph, m: Memory, u: Graph, m': Memory, n: NodeId, ks: seq<Mark>)
    requires GrownIn(g, m, u, m')
    ensures Reads(g, m, n, ks) ==> Reads(u, m', n, ks)
    ensures ReadsBelow(g, m, n, ks) ==> ReadsBelow(u, m', n, ks)
    decreases |ks|, 1
  {
    hide LabelOf;
    if Reads(g, m, n, ks) && |ks| > 1 {
      GrownReads(g, m, u, m', n, ks[1..]);
    }
    if ReadsBelow(g, m, n, ks) {
      var i :| 0 <= i < |g[n].links| && ReadsOver(g, m, g[n].links[i], ks);
      assert LinkKept(m, g[n].links[i], m', u[n].links[i]);
      GrownOver(g, m, u, m', g[n].links[i], u[n].links[i], ks);
    }
  }

  lemma {:induction false} GrownOver(g: Graph, m: Memory, u: Graph, m': Memory, link: Link, link': Link, ks: seq<Mark>)
    requires GrownIn(g, m, u, m') && LinkKept(m, link, m', link')
    ensures ReadsOver(g, m, link, ks) ==> ReadsOver(u, m', link', ks)
    decreases |ks|, 0
  {
    hide LabelOf, GrownIn, ReadsBelow;
    if ReadsOver(g, m, link, ks) {
      assert Reads(g, m, link.node, ks);
      if |ks| > 1 {
        GrownReads(g, m, u, m', link.node, ks[1..]);
      }
      GrownKey(g, m, u, m', link.node);
      assert Reads(u, m', link.node, ks);
    }
  }

  lemma GrownKey(g: Graph, m: Memory, u: Graph, m': Memory, n: NodeId)
    requires GrownIn(g, m, u, m') && IsNode(g, n)
    ensures IsNode(u, n) && KeyOf(u, n) == KeyOf(g, n)
  {
  }

  // ----- what freeing keeps --------------------------------------------------------------------

  /** The nodes of `u` are nodes of `g` with the same links, and the subtrees on these are still there. */
  ghost predicate ShrunkIn(g: Graph, m: Memory, u: Graph, m': Memory) {
    Shrunk(g, u) && SameTrees(m.store, m'.store, Trees(u)) && m'.scannerState == m.scannerState
  }

  /** Freeing nodes loses no history of those that remain. */
  lemma {:induction false} ShrunkReads(level: Key -> nat, g: Graph, m: Memory, u: Graph, m': Memory, n: NodeId, ks: seq<Mark>)
    requires ShrunkIn(g, m, u, m') && GraphOk(level, u) && IsNode(u, n)
    ensures Reads(g, m, n, ks) <==> Reads(u, m', n, ks)
    decreases |ks|
  {
    hide SameTrees, Trees, LabelOf;
    if |ks| > 1 {
      assert NodeOk(level, u, n);
      forall i | 0 <= i < |u[n].links|
        ensures ReadsOver(g, m, g[n].links[i], ks[1..]) <==> ReadsOver(u, m', u[n].links[i], ks[1..])
      {
        LinkIsCounted(u, n, i);
        SameLabel(m, m', u[n].links[i].subtree, Trees(u));
        ShrunkReads(level, g, m, u, m', u[n].links[i].node, ks[1..]);
      }
    }
  }

  // ----- one more link -------------------------------------------------------------------------

  function Larger(a: int, b: int): (c: int)
    ensures c >= a && c >= b && (c == a || c == b)
  {
    if a < b then b else a
  }

  /** The precedence of a stack that ends with the link. */
  function PrecedenceOver(g: Graph, s: Store, link: Link): int
    requires IsNode(g, link.node)
  {
    g[link.node].dynamicPrecedence + TreePrecedence(s, link.subtree)
  }

  /** A node with one link more, at the largest node count and precedence over any link. */
  function WithLink(g: Graph, s: Store, n: NodeId, link: Link): Node
    requires IsNode(g, n) && IsNode(g, link.node)
  {
    g[n].(links := g[n].links + [link],
          nodeCount := Larger(g[link.node].nodeCount + TreeNodeCount(s, link.subtree), g[n].nodeCount),
          dynamicPrecedence := Larger(PrecedenceOver(g, s, link), g[n].dynamicPrecedence))
  }

  /** Of two subtrees between the same nodes, a node prefers the one of higher precedence. */
  function WithPreferred(g: Graph, s: Store, n: NodeId, i: nat, link: Link): Node
    requires IsNode(g, n) && IsNode(g, link.node) && i < |g[n].links|
  {
    if TreePrecedence(s, link.subtree) > TreePrecedence(s, g[n].links[i].subtree) then
      TreeReplaced(g[n], i, link.subtree, PrecedenceOver(g, s, link))
    else g[n]
  }

  /** A node whose predecessor has taken in the one of the link. */
  function WithMerged(g: Graph, s: Store, n: NodeId, link: Link): Node
    requires IsNode(g, n) && IsNode(g, link.node)
  {
    g[n].(dynamicPrecedence := Larger(PrecedenceOver(g, s, link), g[n].dynamicPrecedence))
  }

  /** No other node as high up as `n` is touched. */
  ghost predicate KeptBeside(level: Key -> nat, g: Graph, u: Graph, n: NodeId)
    requires IsNode(g, n)
  {
    forall x: NodeId :: IsNode(g, x) && x != n && level(KeyOf(g, x)) >= level(KeyOf(g, n)) ==> x < |u| && u[x] == g[x]
  }

  // ----- no room for a link --------------------------------------------------------------------

  /** The link says what link number `i` of `n` says: they are merged into one. */
  predicate Matches(g: Graph, m: Memory, n: NodeId, i: nat, link: Link)
    requires IsNode(g, n) && i < |g[n].links|
  {
    var existing := g[n].links[i];
    && LabelOf(m, existing.subtree) == LabelOf(m, link.subtree)
    && IsNode(g, existing.node) && IsNode(g, link.node) && KeyOf(g, existing.node) == KeyOf(g, link.node)
  }

  /** Link number `i` is the first of a node's that the given one matches. */
  predicate FirstMatch(g: Graph, m: Memory, n: NodeId, i: nat, link: Link)
    requires IsNode(g, n)
  {
    i < |g[n].links| && Matches(g, m, n, i, link) && forall k: nat :: k < i ==> !Matches(g, m, n, k, link)
  }

  predicate Unmatched(g: Graph, m: Memory, n: NodeId, link: Link)
    requires IsNode(g, n)
  {
    forall i: nat :: i < |g[n].links| ==> !Matches(g, m, n, i, link)
  }

  lemma TheFirstMatch(g: Graph, m: Memory, n: NodeId, i: nat, link: Link)
    requires IsNode(g, n) && FirstMatch(g, m, n, i, link)
    ensures !Unmatched(g, m, n, link) && forall k: nat :: FirstMatch(g, m, n, k, link) ==> k == i
  {
    hide Matches;
  }

  lemma NoFirstMatch(g: Graph, m: Memory, n: NodeId, link: Link)
    requires IsNode(g, n) && Unmatched(g, m, n, link)
    ensures forall k: nat :: !FirstMatch(g, m, n, k, link)
  {
    hide Matches;
  }

  /** What is read over a link that matches none of a node's cannot be read below the node. */
  lemma UnmatchedIsUnread(g: Graph, m: Memory, n: NodeId, link: Link)
    requires IsNode(g, n) && IsNode(g, link.node) && Unmatched(g, m, n, link)
    ensures var ks := [Mark(LabelOf(m, link.subtree), KeyOf(g, link.node))];
            ReadsOver(g, m, link, ks) && !ReadsBelow(g, m, n, ks)
  {
    hide LabelOf;
    var ks := [Mark(LabelOf(m, link.subtree), KeyOf(g, link.node))];
    forall i: nat | i < |g[n].links| ensures !ReadsOver(g, m, g[n].links[i], ks) {
      assert !Matches(g, m, n, i, link);
    }
  }
}
