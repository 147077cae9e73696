/** A merge that runs out of room: eight alternatives are kept, and the ninth is dropped. */
module StackFull {
  import opened Lengths
  import opened Subtrees
  import opened SubtreePools
  import opened Gathering
  import opened StackGraphs
  import opened StackHistories

  /** A one-byte token. */
  function Token(symbol: Symbol): Ref {
    Inline(Data(true, symbol, 1, ZERO, Length(1, Point(0, 1)), 0, 0, true, true, false, false, false, false, false,
                0, 0, 0, 0, 0, 0, 0, 0, 0))
  }

  function Alternatives(first: Symbol, count: nat): (links: seq<Link>)
    ensures |links| == count
    ensures forall i :: 0 <= i < count ==> links[i] == Link(0, Some(Token(first + i)), false)
  {
    seq(count, i requires 0 <= i < count => Link(0, Some(Token(first + i)), false))
  }

  /** Nine readings of the same byte: eight on one node, the ninth on another one with the same key. */
  function Crowd(): (g: Graph)
    ensures |g| == 3 && forall n :: 0 <= n < 3 ==> IsNode(g, n)
  {
    [Node(10, 1, ZERO, [], 0, 0, 0),
     Node(1, 2, Length(1, Point(0, 1)), Alternatives(1, 8), 0, 1, 0),
     Node(1, 2, Length(1, Point(0, 1)), Alternatives(9, 1), 0, 1, 0)]
  }

  function ByBytes(key: Key): nat { key.bytes }

  lemma {:induction false} AlternativesCounted(first: Symbol, count: nat)
    ensures Gather(Alternatives(first, count), TargetOf) == multiset{}[0 := count]
  {
    if count > 0 {
      var last := Link(0, Some(Token(first + (count - 1))), false);
      assert Alternatives(first, count) == Alternatives(first, count - 1) + [last];
      AlternativesCounted(first, count - 1);
      GatherAppend(Alternatives(first, count - 1), last, TargetOf);
    }
  }

  lemma CrowdTargets()
    ensures Targets(Crowd()) == multiset{}[0 := 9]
  {
    hide Gather, Alternatives;
    var g := Crowd();
    AlternativesCounted(1, 8);
    AlternativesCounted(9, 1);
    GatherEmpty(TargetOf);
    GatherOne(g[0], NodeTargets);
    GatherAppend([g[0]], g[1], NodeTargets);
    GatherAppend([g[0], g[1]], g[2], NodeTargets);
    assert g == [g[0], g[1]] + [g[2]] && [g[0], g[1]] == [g[0]] + [g[1]];
  }

  lemma GatherEmpty<C, T>(f: C -> multiset<T>)
    ensures Gather([], f) == multiset{}
  {
  }

  lemma CrowdCounted()
    ensures NodesCounted(Crowd(), multiset{0, 1, 2})
  {
    hide Targets, Alternatives;
    CrowdTargets();
  }

  lemma TokenExtent(symbol: Symbol)
    ensures TreeBytes([], Some(Token(symbol))) == 1 && TreeCost([], Some(Token(symbol))) == 0
  {
  }

  lemma CrowdFits()
    ensures GraphOk(ByBytes, Crowd()) && Exact(Crowd(), [])
  {
    hide Alternatives, Token, TreeBytes, TreeCost;
    var g := Crowd();
    forall n: NodeId, link: Link | IsNode(g, n) && link in g[n].links ensures Fits(g, [], n, link) {
      var i :| 0 <= i < |g[n].links| && g[n].links[i] == link;
      TokenExtent(if n == 1 then 1 + i else 9 + i);
    }
  }

  lemma NinthUnmatched(scannerState: StackTree -> nat)
    ensures var g, m := Crowd(), Memory([], scannerState);
            Unmatched(g, m, 1, g[2].links[0]) && |g[1].links| == MAX_LINK_COUNT
  {
    hide Alternatives;
    var g, m := Crowd(), Memory([], scannerState);
    forall i: nat | i < 8 ensures !Matches(g, m, 1, i, g[2].links[0]) {
      assert g[1].links[i] == Link(0, Some(Token(1 + i)), false);
    }
  }

  /** The two nodes may be merged, but the ninth reading finds no room on the first and is lost. */
  lemma ANinthAlternative(scannerState: StackTree -> nat)
    ensures var g, m := Crowd(), Memory([], scannerState);
            var link := g[2].links[0];
            && GraphOk(ByBytes, g) && NodesCounted(g, multiset{0, 1, 2}) && Exact(g, m.store)
            && KeyOf(g, 1) == KeyOf(g, 2) && |g[1].links| == MAX_LINK_COUNT && Unmatched(g, m, 1, link)
            && var ks := [Mark(NoSubtree, KeyOf(g, 2)), Mark(LabelOf(m, link.subtree), KeyOf(g, 0))];
               Reads(g, m, 2, ks) && !Reads(g, m, 1, ks)
  {
    hide Alternatives, LabelOf, GraphOk, NodesCounted, Exact, Unmatched;
    var g, m := Crowd(), Memory([], scannerState);
    var link := g[2].links[0];
    CrowdCounted();
    CrowdFits();
    NinthUnmatched(scannerState);
    UnmatchedIsUnread(g, m, 1, link);
    var ks := [Mark(NoSubtree, KeyOf(g, 2)), Mark(LabelOf(m, link.subtree), KeyOf(g, 0))];
    assert ks[1..] == [Mark(LabelOf(m, link.subtree), KeyOf(g, link.node))];
    assert ReadsOver(g, m, g[2].links[0], ks[1..]);
  }
}
