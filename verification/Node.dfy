/** Looking up the children and descendants of a node, by number or by range of bytes. */
module Nodes {
  import opened Options
  import opened Lengths
  import opened Subtrees
  import opened Summaries
  import opened Edits
  import opened Places
  import opened VisibleNodes

  /** A subtree together with where it is and the symbol it goes by there, if any. */
  datatype Node = Node(tree: Tree, position: Length, alias: Symbol)

  function ChildNode(lang: Language, node: Node, i: nat): Node
    requires i < |node.tree.children|
  {
    Node(node.tree.children[i], ChildStart(node.tree, node.position, i), AliasOf(lang, node.tree, i))
  }

  function Descendant(lang: Language, node: Node, path: Path): Node
    requires HasPath(node.tree, path)
    decreases path
  {
    if path == [] then node else Descendant(lang, ChildNode(lang, node, path[0]), path[1..])
  }

  predicate IsRelevant(lang: Language, node: Node, includeAnonymous: bool) {
    if includeAnonymous then node.tree.data.visible || node.alias != 0
    else if node.alias != 0 then lang.isNamed(node.alias)
    else node.tree.data.visible && node.tree.data.named
  }

  /** Relevant is what users see, and among that, if they ask for it, what is named by its alias or by itself. */
  lemma RelevantChild(lang: Language, node: Node, i: nat, includeAnonymous: bool)
    requires i < |node.tree.children|
    ensures IsRelevant(lang, ChildNode(lang, node, i), includeAnonymous)
       <==> Shows(lang, node.tree, i) && (includeAnonymous || NamedAt(lang, node.tree, [i]))
  {
    hide AliasOf;
  }

  /** A descendant is the subtree at its path, where the prefix sums put it, under its alias. */
  lemma {:induction false} DescendantIs(lang: Language, node: Node, path: Path)
    requires HasPath(node.tree, path)
    ensures var d := Descendant(lang, node, path);
            && d.tree == NodeAt(node.tree, path) && d.position == StartAt(node.tree, node.position, path)
            && (IsRelevant(lang, d, true) == ShownAt(lang, node.tree, path, IsRelevant(lang, node, true)))
    decreases path
  {
    if path != [] {
      DescendantIs(lang, ChildNode(lang, node, path[0]), path[1..]);
    }
  }

  /** In a node that starts, with its padding, at `origin`, descendants start after the leaves before them. */
  lemma DescendantPosition(lang: Language, node: Node, origin: Length, path: Path)
    requires Spanning(node.tree) && node.position == Add(origin, node.tree.data.padding) && HasPath(node.tree, path)
    ensures Descendant(lang, node, path).position
         == Add(Add(origin, LengthOf(LeavesBefore(node.tree, path))), NodeAt(node.tree, path).data.padding)
  {
    DescendantIs(lang, node, path);
    StartIsPrefixSum(node.tree, origin, path);
  }

  class NodeChildIterator {
    const lang: Language
    const parent: Tree
    var position: Length
    var childIndex: nat
    var structuralChildIndex: nat
    ghost const start: Length

    ghost predicate Valid()
      reads this
    {
      && childIndex <= |parent.children|
      && structuralChildIndex == StructuralIndex(Datas(parent.children)[..childIndex])
      && (parent.children != [] ==> position == EndOf(parent, start, childIndex))
    }

    constructor (lang: Language, node: Node)
      ensures Valid() && childIndex == 0 && this.lang == lang && parent == node.tree && start == node.position
    {
      this.lang, parent, start := lang, node.tree, node.position;
      childIndex, structuralChildIndex := 0, 0;
      position := if |node.tree.children| == 0 then ZERO else node.position;
    }

    method Next() returns (next: Option<Node>)
      requires Valid()
      modifies this
      ensures Valid()
      ensures if old(childIndex) == |parent.children| then next == None && unchanged(this)
              else
                && childIndex == old(childIndex) + 1
                && next == Some(ChildNode(lang, Node(parent, start, 0), old(childIndex)))
    {
      if childIndex == |parent.children| { return None; }
      var child := parent.children[childIndex];
      ghost var ds := Datas(parent.children);
      assert ds[..childIndex + 1][..childIndex] == ds[..childIndex];
      var aliasSymbol: Symbol := 0;
      if !child.data.extra {
        if parent.data.productionId != 0 {
          aliasSymbol := lang.aliasSequence(parent.data.productionId, structuralChildIndex);
        }
        structuralChildIndex := structuralChildIndex + 1;
      }
      if childIndex > 0 {
        position := Add(position, child.data.padding);
      }
      next := Some(Node(child, position, aliasSymbol));
      position := Add(position, child.data.size);
      childIndex := childIndex + 1;
    }
  }

  /** Where child number `n - 1` ends. */
  function EndOf(t: Tree, pos: Length, n: nat): Length
    requires n <= |t.children|
  {
    if n == 0 then pos else Add(ChildStart(t, pos, n - 1), t.children[n - 1].data.size)
  }

  // ----- the child with a number ---------------------------------------------------------------

  /** The visible child with this number, among all visible children put in one list. */
  function NumberedChild(lang: Language, node: Node, index: nat): Option<Node> {
    if index < |AllKids(lang, node.tree)| then
      RestOfKid(lang, node.tree, index);
      Some(Descendant(lang, node, AllKids(lang, node.tree)[index]))
    else None
  }

  lemma NumberedInside(lang: Language, node: Node, c: nat, index: nat)
    requires c < |node.tree.children|
    requires |Kids(lang, node.tree, c)| <= index < |Kids(lang, node.tree, c)| + |KidsIn(lang, node.tree, c)|
    ensures NumberedChild(lang, node, index)
         == if Shows(lang, node.tree, c) then Some(ChildNode(lang, node, c))
            else NumberedChild(lang, ChildNode(lang, node, c), index - |Kids(lang, node.tree, c)|)
  {
    var t, k := node.tree, index - |Kids(lang, node.tree, c)|;
    KidInside(lang, t, c, k);
    RestOfKid(lang, t, index);
    if Shows(lang, t, c) { KidIsSelf(lang, t, c); } else { KidsOfHidden(lang, t, c); }
    hide Kids, KidsIn, AllKids, Shows, Rest;
    var path := AllKids(lang, t)[index];
    assert path[0] == c && path[1..] == KidsIn(lang, t, c)[k];
    var child := ChildNode(lang, node, c);
    assert Descendant(lang, node, path) == Descendant(lang, child, path[1..]);
    assert NumberedChild(lang, node, index) == Some(Descendant(lang, child, path[1..]));
    if Shows(lang, t, c) {
      assert Descendant(lang, child, []) == child;
    } else {
      assert k < |AllKids(lang, child.tree)|;
    }
  }

  lemma CountedChild(lang: Language, t: Tree, c: nat)
    requires c < |t.children| && Counted(lang, t)
    ensures Counted(lang, t.children[c])
  {
  }

  lemma NumberedRange(lang: Language, node: Node, index: nat)
    requires Counted(lang, node.tree)
    ensures NumberedChild(lang, node, index) == None <==> index >= node.tree.data.VisibleChildren()
    ensures index >= |Kids(lang, node.tree, |node.tree.children|)| ==> NumberedChild(lang, node, index) == None
    ensures Kids(lang, node.tree, 0) == []
  {
  }

  /** The visible child with this number: nothing exactly from the cached count on. */
  method Child(lang: Language, self: Node, childIndex: nat) returns (child: Option<Node>)
    requires Counted(lang, self.tree)
    ensures child == NumberedChild(lang, self, childIndex)
    ensures child == None <==> childIndex >= self.tree.data.VisibleChildren()
  {
    hide NumberedChild, Counted, Kids, KidsIn, Shows, AllKids, EndOf, StructuralIndex, ChildStart;
    NumberedRange(lang, self, childIndex);
    var result, sought: nat := self, childIndex;
    var didDescend := true;
    while didDescend
      invariant Counted(lang, result.tree)
      invariant NumberedChild(lang, self, childIndex) == if didDescend then NumberedChild(lang, result, sought) else None
      decreases result.tree, didDescend
    {
      didDescend := false;
      var index: nat := 0;
      var children := new NodeChildIterator(lang, result);
      ghost var c := 0;
      NumberedRange(lang, result, sought);
      while true
        invariant fresh(children) && children.Valid() && children.childIndex == c <= |result.tree.children|
        invariant index == |Kids(lang, result.tree, c)| <= sought
        invariant !didDescend && NumberedChild(lang, self, childIndex) == NumberedChild(lang, result, sought)
        decreases |result.tree.children| - c
      {
        var next := children.Next();
        if next.None? { break; }
        CountedChild(lang, result.tree, c);
        KidsStep(lang, result.tree, c);
        RelevantShows(lang, result, c);
        if IsRelevant(lang, next.value, true) {
          if index == sought {
            NumberedInside(lang, result, c, sought);
            return next;
          }
          index := index + 1;
        } else {
          var grandchildIndex := sought - index;
          var grandchildCount := next.value.tree.data.VisibleChildren();
          if grandchildIndex < grandchildCount {
            NumberedInside(lang, result, c, sought);
            didDescend := true;
            result, sought := next.value, grandchildIndex;
            break;
          }
          index := index + grandchildCount;
        }
        c := c + 1;
      }
    }
    return None;
  }

  lemma RelevantShows(lang: Language, node: Node, c: nat)
    requires c < |node.tree.children|
    ensures IsRelevant(lang, ChildNode(lang, node, c), true) == Shows(lang, node.tree, c)
    ensures ChildNode(lang, Node(node.tree, node.position, 0), c) == ChildNode(lang, node, c)
  {
  }

  // ----- the smallest descendant for a range ---------------------------------------------------

  function EndByte(node: Node): nat { node.position.bytes + node.tree.data.size.bytes }

  predicate Spans(node: Node, rangeStart: nat, rangeEnd: nat) {
    node.position.bytes <= rangeStart && rangeEnd <= EndByte(node)
  }

  /** A place below the node that spans the range. */
  predicate SpansAt(lang: Language, self: Node, path: Path, rangeStart: nat, rangeEnd: nat) {
    path != [] && HasPath(self.tree, path) && Spans(Descendant(lang, self, path), rangeStart, rangeEnd)
  }

  lemma {:induction false} DescendantJoins(lang: Language, node: Node, p: Path, q: Path)
    requires HasPath(node.tree, p)
    ensures HasPath(node.tree, p + q) <==> HasPath(NodeAt(node.tree, p), q)
    ensures HasPath(node.tree, p + q) ==>
              && Descendant(lang, node, p).tree == NodeAt(node.tree, p)
              && Descendant(lang, node, p + q) == Descendant(lang, Descendant(lang, node, p), q)
    decreases p
  {
    if p == [] {
      assert p + q == q;
    } else {
      assert (p + q)[1..] == p[1..] + q;
      DescendantJoins(lang, ChildNode(lang, node, p[0]), p[1..], q);
    }
  }

  lemma {:induction false} FirstBytes(t: Tree, pos: Length, n: nat)
    requires LaidOut(t) && n < |t.children|
    ensures ChildStart(t, pos, n).bytes + t.data.padding.bytes
         == pos.bytes + SumBytes(Datas(t.children)[..n]) + t.children[n].data.padding.bytes
    decreases n
  {
    hide ChildStart, SumBytes, LaidOut, PointAdd;
    FirstPaddingBytes(t);
    ChildStartStep(t, pos, n);
    if n > 0 {
      FirstBytes(t, pos, n - 1);
      FrontBytes(Datas(t.children), n);
    } else {
      assert Datas(t.children)[..0] == [];
    }
  }

  lemma FirstPaddingBytes(t: Tree)
    requires LaidOut(t) && t.children != []
    ensures t.data.padding.bytes == t.children[0].data.padding.bytes && SumBytes([]) == 0
  {
  }

  lemma {:induction false} FrontBytes(ds: seq<Data>, n: nat)
    requires 0 < n <= |ds|
    ensures SumBytes(ds[..n]) == SumBytes(ds[..n - 1]) + ds[n - 1].Total().bytes
    ensures SumBytes(ds[..n]) <= SumBytes(ds)
    decreases |ds|
  {
    if n > 1 {
      FrontBytes(ds[1..], n - 1);
      assert ds[..n][1..] == ds[1..][..n - 1] && ds[..n - 1][1..] == ds[1..][..n - 2];
    } else {
      assert ds[..1][1..] == [] && ds[..0] == [];
    }
  }

  /** A child lies within its parent. */
  lemma ChildWithin(lang: Language, node: Node, i: nat)
    requires LaidOut(node.tree) && i < |node.tree.children|
    ensures node.position.bytes <= ChildNode(lang, node, i).position.bytes
    ensures EndByte(ChildNode(lang, node, i)) <= EndByte(node)
  {
    FirstBytes(node.tree, node.position, i);
    FrontBytes(Datas(node.tree.children), i + 1);
    ChildStartsLater(node.tree, node.position, 0, i);
  }

  /** A descendant lies within the node. */
  lemma {:induction false} DescendantWithin(lang: Language, node: Node, path: Path)
    requires LaidOut(node.tree) && HasPath(node.tree, path)
    ensures node.position.bytes <= Descendant(lang, node, path).position.bytes
    ensures EndByte(Descendant(lang, node, path)) <= EndByte(node)
    decreases path
  {
    if path != [] {
      ChildWithin(lang, node, path[0]);
      DescendantWithin(lang, ChildNode(lang, node, path[0]), path[1..]);
    }
  }

  /** Every place that spans the range is above `chain`, or below it. */
  ghost predicate OnChain(lang: Language, self: Node, chain: Path, rangeStart: nat, rangeEnd: nat) {
    forall p: Path :: SpansAt(lang, self, p, rangeStart, rangeEnd) ==> p <= chain || chain <= p
  }

  /** No place below `chain` spans the range. */
  ghost predicate ChainEnds(lang: Language, self: Node, chain: Path, rangeStart: nat, rangeEnd: nat) {
    forall p: Path :: SpansAt(lang, self, p, rangeStart, rangeEnd) && chain <= p ==> p == chain
  }

  /** A spanning place below a node is inside a child that spans the range. */
  lemma SpanningChild(lang: Language, self: Node, chain: Path, p: Path, rangeStart: nat, rangeEnd: nat)
    requires HasPath(self.tree, chain) && LaidOut(NodeAt(self.tree, chain))
    requires SpansAt(lang, self, p, rangeStart, rangeEnd) && chain < p
    ensures var node, i := Descendant(lang, self, chain), p[|chain|];
            && node.tree == NodeAt(self.tree, chain) && i < |node.tree.children|
            && Spans(ChildNode(lang, node, i), rangeStart, rangeEnd) && chain + [i] <= p
  {
    hide HasPath, NodeAt, Descendant, LaidOut, Spans;
    var rest := p[|chain|..];
    SplitPath(chain, p);
    DescendantJoins(lang, self, chain, rest);
    InsideSpanning(lang, Descendant(lang, self, chain), rest, rangeStart, rangeEnd);
  }

  lemma SplitPath(chain: Path, p: Path)
    requires chain < p
    ensures p == chain + p[|chain|..] && chain + [p[|chain|]] <= p
  {
  }

  lemma InsideSpanning(lang: Language, node: Node, rest: Path, rangeStart: nat, rangeEnd: nat)
    requires rest != [] && HasPath(node.tree, rest) && LaidOut(node.tree)
    requires Spans(Descendant(lang, node, rest), rangeStart, rangeEnd)
    ensures rest[0] < |node.tree.children| && Spans(ChildNode(lang, node, rest[0]), rangeStart, rangeEnd)
  {
    var child := ChildNode(lang, node, rest[0]);
    assert LaidOut(child.tree) && Descendant(lang, node, rest) == Descendant(lang, child, rest[1..]);
    DescendantWithin(lang, child, rest[1..]);
  }

  /** Only child number `i` of the node at `chain` may span the range. */
  lemma ChainGrows(lang: Language, self: Node, chain: Path, i: nat, rangeStart: nat, rangeEnd: nat)
    requires HasPath(self.tree, chain) && LaidOut(NodeAt(self.tree, chain)) && i <= |NodeAt(self.tree, chain).children|
    requires Descendant(lang, self, chain).tree == NodeAt(self.tree, chain)
    requires OnChain(lang, self, chain, rangeStart, rangeEnd)
    requires var node := Descendant(lang, self, chain);
             forall j: nat :: j < |node.tree.children| && j != i ==> !Spans(ChildNode(lang, node, j), rangeStart, rangeEnd)
    ensures OnChain(lang, self, chain + [i], rangeStart, rangeEnd)
    ensures i == |NodeAt(self.tree, chain).children| ==> ChainEnds(lang, self, chain, rangeStart, rangeEnd)
  {
    forall p: Path | SpansAt(lang, self, p, rangeStart, rangeEnd)
      ensures p <= chain + [i] || chain + [i] <= p
      ensures i == |NodeAt(self.tree, chain).children| && chain <= p ==> p == chain
    {
      if chain <= p && chain != p {
        SpanningChild(lang, self, chain, p, rangeStart, rangeEnd);
      } else if p <= chain {
        assert p == chain[..|p|] == (chain + [i])[..|p|];
      }
    }
  }

  // ----- an empty range ------------------------------------------------------------------------

  /** The node begins at the byte or before it and goes on behind it, or it is empty and stands there. */
  predicate HoldsByte(node: Node, b: nat) {
    node.position.bytes <= b && (b < EndByte(node) || node.position.bytes == EndByte(node) == b)
  }

  /** Child number `i`, if there is one, is the first that holds the byte; otherwise none does. */
  ghost predicate FirstHolding(lang: Language, node: Node, b: nat, i: nat) {
    && i <= |node.tree.children|
    && (i < |node.tree.children| ==> HoldsByte(ChildNode(lang, node, i), b))
    && forall j: nat :: j < i ==> !HoldsByte(ChildNode(lang, node, j), b)
  }

  /** From the start on, the chain goes to the first child that holds the byte. */
  ghost predicate FollowsByte(lang: Language, self: Node, b: nat, chain: Path) {
    forall k: nat :: k < |chain| ==>
      HasPath(self.tree, chain[..k]) && FirstHolding(lang, Descendant(lang, self, chain[..k]), b, chain[k])
  }

  /** It ends where no child holds the byte. */
  ghost predicate EndsAtByte(lang: Language, self: Node, b: nat, chain: Path) {
    && FollowsByte(lang, self, b, chain) && HasPath(self.tree, chain)
    && FirstHolding(lang, Descendant(lang, self, chain), b, |Descendant(lang, self, chain).tree.children|)
  }

  /** The place is the last relevant one on the chain of first children that hold the byte. */
  ghost predicate LastAtByte(lang: Language, self: Node, b: nat, path: Path, includeAnonymous: bool) {
    exists chain: Path :: EndsAtByte(lang, self, b, chain) && path <= chain && LastRelevant(lang, self, chain, path, includeAnonymous)
  }

  lemma ByteStep(lang: Language, self: Node, b: nat, chain: Path, i: nat)
    requires FollowsByte(lang, self, b, chain) && HasPath(self.tree, chain) && FirstHolding(lang, Descendant(lang, self, chain), b, i)
    ensures FollowsByte(lang, self, b, chain + [i])
  {
    var more := chain + [i];
    forall k: nat | k < |more|
      ensures HasPath(self.tree, more[..k]) && FirstHolding(lang, Descendant(lang, self, more[..k]), b, more[k])
    {
      assert more[..k] == if k < |chain| then chain[..k] else chain;
    }
  }

  /** No empty node stands at the byte. */
  ghost predicate NoneEmptyAt(lang: Language, self: Node, b: nat) {
    forall p: Path :: p != [] && HasPath(self.tree, p) ==>
      !(Descendant(lang, self, p).position.bytes == EndByte(Descendant(lang, self, p)) == b)
  }

  /** Then every place that goes on behind the byte is on the chain. */
  lemma {:induction false} HoldingIsOnChain(lang: Language, self: Node, b: nat, chain: Path, p: Path)
    requires LaidOut(self.tree) && NoneEmptyAt(lang, self, b) && EndsAtByte(lang, self, b, chain)
    requires HasPath(self.tree, p) && Descendant(lang, self, p).position.bytes <= b < EndByte(Descendant(lang, self, p))
    ensures p <= chain
    decreases |p|
  {
    hide LaidOut, ChildNode, FirstHolding, HoldsByte, NoneEmptyAt;
    if p != [] {
      var front, i := p[..|p| - 1], p[|p| - 1];
      assert p == front + [i];
      FrontHolds(lang, self, b, front, i);
      HoldingIsOnChain(lang, self, b, chain, front);
      var node := Descendant(lang, self, front);
      if |front| == |chain| {
        assert front == chain;
        NoChildHolds(lang, node, b, i);
        assert false;
      } else {
        assert front == chain[..|front|] && FirstHolding(lang, node, b, chain[|front|]);
        NotEmptyChild(lang, self, b, front, chain[|front|]);
        OneChildHolds(lang, node, b, i, chain[|front|]);
      }
    }
  }

  lemma FrontHolds(lang: Language, self: Node, b: nat, front: Path, i: nat)
    requires LaidOut(self.tree) && HasPath(self.tree, front + [i])
    requires var child := Descendant(lang, self, front + [i]); child.position.bytes <= b < EndByte(child)
    ensures HasPath(self.tree, front)
    ensures var node := Descendant(lang, self, front);
            && i < |node.tree.children| && Descendant(lang, self, front + [i]) == ChildNode(lang, node, i)
            && node.position.bytes <= b < EndByte(node) && HoldsByte(ChildNode(lang, node, i), b)
  {
    hide LaidOut, ChildNode, HasPath, Descendant;
    BelowLaidOut(self.tree, front + [i], |front|);
    assert (front + [i])[..|front|] == front;
    DescendantJoins(lang, self, front, [i]);
    DescendantJoins(lang, self, front, []);
    assert front + [] == front;
    OneStep(lang, Descendant(lang, self, front), i);
    ChildWithin(lang, Descendant(lang, self, front), i);
  }

  lemma OneStep(lang: Language, node: Node, i: nat)
    requires HasPath(node.tree, [i])
    ensures i < |node.tree.children| && Descendant(lang, node, [i]) == ChildNode(lang, node, i)
  {
    assert [i][1..] == [];
  }

  lemma {:induction false} BelowLaidOut(t: Tree, path: Path, k: nat)
    requires LaidOut(t) && HasPath(t, path) && k <= |path|
    ensures HasPath(t, path[..k]) && LaidOut(NodeAt(t, path[..k]))
    decreases |path|
  {
    if k > 0 {
      assert path[..k][1..] == path[1..][..k - 1];
      BelowLaidOut(t.children[path[0]], path[1..], k - 1);
    }
  }

  lemma NoChildHolds(lang: Language, node: Node, b: nat, i: nat)
    requires FirstHolding(lang, node, b, |node.tree.children|) && i < |node.tree.children|
    ensures !HoldsByte(ChildNode(lang, node, i), b)
  {
  }

  lemma NotEmptyChild(lang: Language, self: Node, b: nat, front: Path, j: nat)
    requires HasPath(self.tree, front) && NoneEmptyAt(lang, self, b)
    ensures var node := Descendant(lang, self, front);
            j < |node.tree.children| ==>
              !(ChildNode(lang, node, j).position.bytes == EndByte(ChildNode(lang, node, j)) == b)
  {
    DescendantJoins(lang, self, front, []);
    assert front + [] == front;
    if j < |NodeAt(self.tree, front).children| {
      PathExtends(self.tree, front, j);
      DescendantJoins(lang, self, front, [j]);
      assert [j][1..] == [];
    }
  }

  /** Children do not overlap. */
  lemma OneChildHolds(lang: Language, node: Node, b: nat, i: nat, j: nat)
    requires i < |node.tree.children| && ChildNode(lang, node, i).position.bytes <= b < EndByte(ChildNode(lang, node, i))
    requires FirstHolding(lang, node, b, j)
    requires j < |node.tree.children| ==> !(ChildNode(lang, node, j).position.bytes == EndByte(ChildNode(lang, node, j)) == b)
    ensures j == i
  {
    if j < i {
      LaterChildrenStart(lang, node, j, i);
    }
  }

  /**
   * Where no empty node stands at the byte, what is found there is the smallest relevant node that goes
   * on behind it.
   */
  lemma SmallestAtByte(lang: Language, self: Node, b: nat, path: Path, includeAnonymous: bool, p: Path)
    requires LaidOut(self.tree) && NoneEmptyAt(lang, self, b) && LastAtByte(lang, self, b, path, includeAnonymous)
    requires RelevantAt(lang, self, p, includeAnonymous)
    requires Descendant(lang, self, p).position.bytes <= b < EndByte(Descendant(lang, self, p))
    ensures p <= path
  {
    hide LaidOut, NoneEmptyAt, EndsAtByte, Descendant, IsRelevant;
    var chain: Path :|
      EndsAtByte(lang, self, b, chain) && path <= chain && LastRelevant(lang, self, chain, path, includeAnonymous);
    HoldingIsOnChain(lang, self, b, chain, p);
  }

  /** Children after one that starts late, or reaches far, start late. */
  lemma LaterChildrenStart(lang: Language, node: Node, i: nat, j: nat)
    requires i < j < |node.tree.children|
    ensures ChildNode(lang, node, j).position.bytes >= EndByte(ChildNode(lang, node, i))
  {
    ChildStartsLater(node.tree, node.position, i, j);
  }

  /**
   * The smallest relevant node that spans the range: it is the node itself or spans the range, and
   * if the range is not empty, every relevant node below that spans the range is above it, or it. For
   * an empty range it is the last relevant one on the way over the first children that hold the byte.
   */
  method DescendantForByteRange(lang: Language, self: Node, rangeStart: nat, rangeEnd: nat, includeAnonymous: bool)
    returns (found: Option<Node>, ghost path: Path)
    requires LaidOut(self.tree)
    ensures rangeStart > rangeEnd <==> found == None
    ensures found.Some? ==>
      && HasPath(self.tree, path) && found.value == Descendant(lang, self, path)
      && (path != [] ==> IsRelevant(lang, found.value, includeAnonymous) && Spans(found.value, rangeStart, rangeEnd))
    ensures rangeStart < rangeEnd ==>
      forall p: Path ::
        SpansAt(lang, self, p, rangeStart, rangeEnd) && RelevantAt(lang, self, p, includeAnonymous) ==> p <= path
    ensures rangeStart == rangeEnd ==> LastAtByte(lang, self, rangeStart, path, includeAnonymous)
  {
    if rangeStart > rangeEnd { return None, []; }
    hide LaidOut, Spans, IsRelevant, SpansAt, OnChain, ChainEnds, RelevantAt, FollowsByte, FirstHolding;
    var node, lastVisibleNode := self, self;
    ghost var chain: Path := [];
    path := [];
    StartOfChain(lang, self, rangeStart, rangeEnd);
    var didDescend := true;
    while didDescend
      invariant AtEndOf(lang, self, chain, node) && AtEndOf(lang, self, path, lastVisibleNode)
      invariant path != [] ==> IsRelevant(lang, lastVisibleNode, includeAnonymous) && Spans(lastVisibleNode, rangeStart, rangeEnd)
      invariant LastRelevant(lang, self, chain, path, includeAnonymous)
      invariant rangeStart < rangeEnd ==> OnChain(lang, self, chain, rangeStart, rangeEnd)
      invariant rangeStart < rangeEnd && !didDescend ==> ChainEnds(lang, self, chain, rangeStart, rangeEnd)
      invariant path <= chain && (rangeStart == rangeEnd ==> FollowsByte(lang, self, rangeStart, chain))
      invariant rangeStart == rangeEnd && !didDescend ==> FirstHolding(lang, node, rangeStart, |node.tree.children|)
      decreases node.tree, didDescend
    {
      didDescend := false;
      ghost var before := node;
      var child, i := FirstReaching(lang, node, rangeStart, rangeEnd);
      if rangeStart < rangeEnd {
        ChainGrows(lang, self, chain, i, rangeStart, rangeEnd);
      } else {
        ByteStep(lang, self, rangeStart, chain, i);
      }
      if child.Some? {
        ChainStep(lang, self, chain, node, i);
        node := child.value;
        RelevantStep(lang, self, chain, path, i, includeAnonymous);
        chain := chain + [i];
        if IsRelevant(lang, node, includeAnonymous) {
          lastVisibleNode := node;
          path := chain;
        }
        didDescend := true;
      }
    }
    if rangeStart < rangeEnd {
      NothingDeeper(lang, self, chain, path, rangeStart, rangeEnd, includeAnonymous);
    }
    return Some(lastVisibleNode), path;
  }

  ghost predicate AtEndOf(lang: Language, self: Node, path: Path, node: Node) {
    && HasPath(self.tree, path) && node == Descendant(lang, self, path) && node.tree == NodeAt(self.tree, path)
    && LaidOut(node.tree)
  }

  /** `path` is the longest relevant prefix of `chain`. */
  ghost predicate LastRelevant(lang: Language, self: Node, chain: Path, path: Path, includeAnonymous: bool) {
    forall p: Path :: RelevantAt(lang, self, p, includeAnonymous) && p <= chain ==> p <= path
  }

  /** A relevant place below the node. */
  predicate RelevantAt(lang: Language, self: Node, path: Path, includeAnonymous: bool) {
    path != [] && HasPath(self.tree, path) && IsRelevant(lang, Descendant(lang, self, path), includeAnonymous)
  }

  lemma StartOfChain(lang: Language, self: Node, rangeStart: nat, rangeEnd: nat)
    ensures OnChain(lang, self, [], rangeStart, rangeEnd) && FollowsByte(lang, self, rangeStart, [])
  {
  }

  lemma ChainStep(lang: Language, self: Node, chain: Path, node: Node, i: nat)
    requires AtEndOf(lang, self, chain, node) && i < |node.tree.children|
    ensures AtEndOf(lang, self, chain + [i], ChildNode(lang, node, i))
  {
    PathExtends(self.tree, chain, i);
    DescendantJoins(lang, self, chain, [i]);
    assert [i][1..] == [];
    assert LaidOut(node.tree.children[i]);
  }

  lemma RelevantStep(lang: Language, self: Node, chain: Path, path: Path, i: nat, includeAnonymous: bool)
    requires LastRelevant(lang, self, chain, path, includeAnonymous) && HasPath(self.tree, chain + [i])
    ensures if IsRelevant(lang, Descendant(lang, self, chain + [i]), includeAnonymous)
            then LastRelevant(lang, self, chain + [i], chain + [i], includeAnonymous)
            else LastRelevant(lang, self, chain + [i], path, includeAnonymous)
  {
    forall p: Path | RelevantAt(lang, self, p, includeAnonymous) && p <= chain + [i] && p != chain + [i] ensures p <= chain {
      assert p == (chain + [i])[..|p|] == chain[..|p|];
    }
  }

  lemma NothingDeeper(lang: Language, self: Node, chain: Path, path: Path, rangeStart: nat, rangeEnd: nat, includeAnonymous: bool)
    requires OnChain(lang, self, chain, rangeStart, rangeEnd) && ChainEnds(lang, self, chain, rangeStart, rangeEnd)
    requires LastRelevant(lang, self, chain, path, includeAnonymous)
    ensures forall p: Path ::
              SpansAt(lang, self, p, rangeStart, rangeEnd) && RelevantAt(lang, self, p, includeAnonymous) ==> p <= path
  {
  }

  /** The first child that reaches the end of the range, if it also begins in time; no other child spans it. */
  method FirstReaching(lang: Language, node: Node, rangeStart: nat, rangeEnd: nat)
    returns (child: Option<Node>, ghost i: nat)
    requires rangeStart <= rangeEnd
    ensures if child.None? then i == |node.tree.children|
            else i < |node.tree.children| && child.value == ChildNode(lang, node, i) && Spans(child.value, rangeStart, rangeEnd)
    ensures rangeStart < rangeEnd ==>
      forall j: nat :: j < |node.tree.children| && j != i ==> !Spans(ChildNode(lang, node, j), rangeStart, rangeEnd)
    ensures rangeStart == rangeEnd ==> FirstHolding(lang, node, rangeStart, i)
  {
    hide AliasOf, ChildStart, StructuralIndex;
    var children := new NodeChildIterator(lang, node);
    i := 0;
    while true
      invariant fresh(children) && children.Valid() && children.childIndex == i <= |node.tree.children|
      invariant rangeStart < rangeEnd ==>
        forall j: nat :: j < i ==> !Spans(ChildNode(lang, node, j), rangeStart, rangeEnd)
      invariant rangeStart == rangeEnd ==> forall j: nat :: j < i ==> !HoldsByte(ChildNode(lang, node, j), rangeStart)
      decreases |node.tree.children| - i
    {
      var next := children.Next();
      if next.None? { return None, i; }
      var nodeEnd := children.position.bytes;
      var isEmpty := next.value.position.bytes == nodeEnd;
      assert nodeEnd == EndByte(ChildNode(lang, node, i));
      if nodeEnd < rangeEnd || (if isEmpty then nodeEnd < rangeStart else nodeEnd <= rangeStart) {
        i := i + 1;
        continue;
      }
      forall j: nat | i < j < |node.tree.children|
        ensures ChildNode(lang, node, j).position.bytes >= EndByte(ChildNode(lang, node, i))
      {
        LaterChildrenStart(lang, node, i, j);
      }
      if rangeStart < next.value.position.bytes {
        i := |node.tree.children|;
        return None, i;
      }
      return next, i;
    }
  }
}
