/**
 * What a tree means regardless of how its repetitions are nested: its leaves in order, the data its
 * root has when every summary is computed from them, and the visible nodes it shows.
 */
module Meanings {
  import opened Subtrees
  import opened Summaries

  // ----- the visible tree ----------------------------------------------------------------------

  /** A visible node: its alias if it has one, its data, and the visible nodes directly below. */
  datatype Shown = Shown(alias: Symbol, data: Data, inside: seq<Shown>)

  /** The visible nodes directly below the root, hidden nodes being dissolved. */
  function Inside(lang: Language, t: Tree): seq<Shown>
    decreases t, 2
  {
    InsideOf(lang, t.data.productionId, t.children)
  }

  function InsideOf(lang: Language, productionId: nat, ts: seq<Tree>): seq<Shown>
    decreases ts, 0
  {
    if ts == [] then []
    else
      var front := ts[..|ts| - 1];
      InsideOf(lang, productionId, front) + Shows(lang, AliasAt(lang, productionId, StructuralIndex(Datas(front))), ts[|ts| - 1])
  }

  /** The node itself if it is visible, or else those directly below. */
  function Shows(lang: Language, alias: Symbol, t: Tree): seq<Shown>
    decreases t, 3
  {
    ShownAs(alias, Kept(TrueData(lang, t)), Inside(lang, t))
  }

  function ShownAs(alias: Symbol, d: Data, inside: seq<Shown>): seq<Shown> {
    var a := EffectiveAlias(alias, d);
    if a != 0 || d.visible then [Shown(a, d, inside)] else inside
  }

  lemma InsideLast(lang: Language, p: nat, xs: seq<Tree>, y: Tree)
    ensures InsideOf(lang, p, xs + [y])
         == InsideOf(lang, p, xs) + Shows(lang, AliasAt(lang, p, StructuralIndex(Datas(xs))), y)
  {
    hide Shows;
    assert (xs + [y])[..|xs|] == xs;
  }

  lemma NothingInside(lang: Language, p: nat)
    ensures InsideOf(lang, p, []) == []
  {
  }

  lemma {:induction false} InsideAppend(lang: Language, p: nat, xs: seq<Tree>, ys: seq<Tree>)
    requires AliasFree(lang, p)
    ensures InsideOf(lang, p, xs + ys) == InsideOf(lang, p, xs) + InsideOf(lang, p, ys)
    decreases |ys|
  {
    hide Shows, InsideOf;
    if ys == [] {
      assert xs + ys == xs;
      NothingInside(lang, p);
    } else {
      var front, y := ys[..|ys| - 1], ys[|ys| - 1];
      assert ys == front + [y] && xs + ys == xs + front + [y];
      InsideAppend(lang, p, xs, front);
      InsideLast(lang, p, xs + front, y);
      InsideLast(lang, p, front, y);
    }
  }

  lemma InsideFirst(lang: Language, p: nat, x: Tree, ys: seq<Tree>)
    requires AliasFree(lang, p)
    ensures InsideOf(lang, p, [x] + ys) == Shows(lang, 0, x) + InsideOf(lang, p, ys)
  {
    hide Shows, InsideOf;
    InsideAppend(lang, p, [x], ys);
    InsideLast(lang, p, [], x);
    NothingInside(lang, p);
    assert [] + [x] == [x];
  }

  lemma TrueIdentity(lang: Language, t: Tree)
    ensures SameIdentity(t.data, TrueData(lang, t)) && Kept(TrueData(lang, t)).visible == t.data.visible
    ensures Kept(TrueData(lang, t)).extra == t.data.extra && Kept(TrueData(lang, t)).symbol == t.data.symbol
  {
  }

  /** A hidden node without an alias shows what is inside. */
  lemma GroupShows(lang: Language, t: Tree)
    requires !t.data.visible
    ensures Shows(lang, 0, t) == Inside(lang, t)
  {
    hide Inside, InsideOf;
    TrueIdentity(lang, t);
    hide TrueData;
  }

  lemma SameIndex(lang: Language, ts: seq<Tree>)
    ensures StructuralIndex(TrueDatas(lang, ts)) == StructuralIndex(Datas(ts))
  {
    forall i | 0 <= i < |ts| ensures TrueDatas(lang, ts)[i].extra == Datas(ts)[i].extra {
      TrueIdentity(lang, ts[i]);
    }
    SameExtras(TrueDatas(lang, ts), Datas(ts));
  }

  lemma {:induction false} SameExtras(xs: seq<Data>, ys: seq<Data>)
    requires |xs| == |ys| && forall i :: 0 <= i < |xs| ==> xs[i].extra == ys[i].extra
    ensures StructuralIndex(xs) == StructuralIndex(ys)
    decreases |xs|
  {
    if xs != [] {
      SameExtras(xs[..|xs| - 1], ys[..|ys| - 1]);
    }
  }

  // ----- meanings ------------------------------------------------------------------------------

  function Meaning(lang: Language, t: Tree): (seq<Data>, Data, seq<Shown>) {
    (Leaves(t), Kept(TrueData(lang, t)), Inside(lang, t))
  }

  ghost predicate SameMeanings(lang: Language, xs: seq<Tree>, ys: seq<Tree>) {
    |xs| == |ys| && forall i :: 0 <= i < |xs| ==> Meaning(lang, xs[i]) == Meaning(lang, ys[i])
  }

  lemma {:induction false} SameLeaves(lang: Language, xs: seq<Tree>, ys: seq<Tree>)
    requires SameMeanings(lang, xs, ys)
    ensures ListLeaves(xs) == ListLeaves(ys)
  {
    if xs != [] {
      assert Meaning(lang, xs[0]) == Meaning(lang, ys[0]);
      assert forall i :: 0 <= i < |xs[1..]| ==> xs[1..][i] == xs[i + 1] && ys[1..][i] == ys[i + 1];
      SameLeaves(lang, xs[1..], ys[1..]);
    }
  }

  lemma SameShows(lang: Language, alias: Symbol, x: Tree, y: Tree)
    requires Meaning(lang, x) == Meaning(lang, y)
    ensures Shows(lang, alias, x) == Shows(lang, alias, y)
    ensures x.data.extra == y.data.extra
  {
    hide Leaves, Inside, TrueData;
    TrueIdentity(lang, x);
    TrueIdentity(lang, y);
  }

  lemma {:induction false} SameInside(lang: Language, p: nat, xs: seq<Tree>, ys: seq<Tree>)
    requires SameMeanings(lang, xs, ys)
    ensures InsideOf(lang, p, xs) == InsideOf(lang, p, ys) && StructuralIndex(Datas(xs)) == StructuralIndex(Datas(ys))
    decreases |xs|
  {
    hide Meaning, Shows;
    forall i | 0 <= i < |xs| ensures Datas(xs)[i].extra == Datas(ys)[i].extra {
      SameShows(lang, 0, xs[i], ys[i]);
    }
    SameExtras(Datas(xs), Datas(ys));
    if xs != [] {
      var n := |xs| - 1;
      SameInside(lang, p, xs[..n], ys[..n]);
      SameShows(lang, AliasAt(lang, p, StructuralIndex(Datas(xs[..n]))), xs[n], ys[n]);
    }
  }

  /** A node's meaning depends on its identity and on what its children mean. */
  lemma MeaningOfNode(lang: Language, c: Data, xs: seq<Tree>, d: Data, ys: seq<Tree>)
    requires SameIdentity(c, d) && c.childCount == |xs| && xs != [] && SameMeanings(lang, xs, ys)
    ensures Meaning(lang, Tree(c, xs)) == Meaning(lang, Tree(d, ys))
  {
    SameLeaves(lang, xs, ys);
    SameInside(lang, c.productionId, xs, ys);
    hide InsideOf, Leaves, ListLeaves;
    TrueDataOf(lang, Tree(c, xs));
    TrueDataOf(lang, Tree(d, ys));
    assert SameKept(TrueDatas(lang, xs), TrueDatas(lang, ys)) by {
      forall i | 0 <= i < |xs| ensures Kept(TrueDatas(lang, xs)[i]) == Kept(TrueDatas(lang, ys)[i]) {
        assert Meaning(lang, xs[i]) == Meaning(lang, ys[i]);
      }
    }
    hide Summarize, TrueData, Kept;
    SummarizeKept(lang, c, d, TrueDatas(lang, xs), TrueDatas(lang, ys));
  }

  lemma LeavesOfRotation(ps: seq<Tree>, z: Tree, qs: seq<Tree>, rs: seq<Tree>, t: Data, c: Data, g: Data)
    ensures Leaves(Tree(t, [Tree(c, [Tree(g, ps + [z])] + qs)] + rs))
         == Leaves(Tree(t, [Tree(g, ps + [Tree(c, [z] + qs)])] + rs))
  {
    var g0, c1 := Tree(g, ps + [z]), Tree(c, [z] + qs);
    var c0, g1 := Tree(c, [g0] + qs), Tree(g, ps + [c1]);
    FlatLeaves([c0], rs);
    FlatLeaves([g0], qs);
    FlatLeaves(ps, [z]);
    FlatLeaves([g1], rs);
    FlatLeaves(ps, [c1]);
    FlatLeaves([z], qs);
    hide ListLeaves;
    OneLeaf(c0);
    OneLeaf(g0);
    OneLeaf(g1);
    OneLeaf(c1);
  }

  lemma FlatLeaves(xs: seq<Tree>, ys: seq<Tree>)
    ensures ListLeaves(xs + ys) == ListLeaves(xs) + ListLeaves(ys)
  {
    ListLeavesAppend(xs, ys);
  }

  lemma OneLeaf(t: Tree)
    ensures ListLeaves([t]) == Leaves(t)
  {
    assert [t][1..] == [];
  }

  /** What is shown before and after a rotation, with whatever alias the innermost group has for its last child. */
  lemma InsideOfRotation(lang: Language, ps: seq<Tree>, z: Tree, qs: seq<Tree>, rs: seq<Tree>, t: Data, c: Data, g: Data)
    requires Groups(lang, t.symbol, t) && Groups(lang, t.symbol, c) && Grouping(t.symbol, g)
    ensures var alias, c1 := AliasAfter(lang, g, Datas(ps)), Tree(c, [z] + qs);
            && Inside(lang, Tree(t, [Tree(c, [Tree(g, ps + [z])] + qs)] + rs))
               == InsideOf(lang, g.productionId, ps) + Shows(lang, alias, z) + InsideOf(lang, c.productionId, qs)
                  + InsideOf(lang, t.productionId, rs)
            && Inside(lang, Tree(t, [Tree(g, ps + [c1])] + rs))
               == InsideOf(lang, g.productionId, ps) + Shows(lang, alias, c1) + InsideOf(lang, t.productionId, rs)
            && Shows(lang, 0, c1) == Shows(lang, 0, z) + InsideOf(lang, c.productionId, qs)
  {
    hide InsideOf, Shows, AliasAt;
    var g0, c1 := Tree(g, ps + [z]), Tree(c, [z] + qs);
    var c0, g1 := Tree(c, [g0] + qs), Tree(g, ps + [c1]);
    InsideFirst(lang, t.productionId, c0, rs);
    InsideFirst(lang, t.productionId, g1, rs);
    InsideFirst(lang, c.productionId, g0, qs);
    InsideFirst(lang, c.productionId, z, qs);
    InsideLast(lang, g.productionId, ps, z);
    InsideLast(lang, g.productionId, ps, c1);
    GroupShows(lang, c0);
    GroupShows(lang, g1);
    GroupShows(lang, g0);
    GroupShows(lang, c1);
  }

  lemma SummaryOfRotation(lang: Language, ps: seq<Tree>, z: Tree, qs: seq<Tree>, rs: seq<Tree>, t: Data, c: Data, g: Data)
    requires Groups(lang, t.symbol, t) && Groups(lang, t.symbol, c) && Grouping(t.symbol, g)
    requires AliasAfter(lang, g, Datas(ps)) == 0
    requires t.childCount == 1 + |rs| && c.childCount == 1 + |qs| && g.childCount == |ps| + 1
    ensures Kept(TrueData(lang, Tree(t, [Tree(c, [Tree(g, ps + [z])] + qs)] + rs)))
         == Kept(TrueData(lang, Tree(t, [Tree(g, ps + [Tree(c, [z] + qs)])] + rs)))
  {
    SameIndex(lang, ps);
    assert AliasAfter(lang, g, TrueDatas(lang, ps)) == 0;
    hide Groups, Grouping, AliasAfter, StructuralIndex, Kept, Summarize, TrueDatas;
    var g0, c1 := Tree(g, ps + [z]), Tree(c, [z] + qs);
    var c0, g1 := Tree(c, [g0] + qs), Tree(g, ps + [c1]);
    var pd, zd, qd, rd := TrueDatas(lang, ps), TrueData(lang, z), TrueDatas(lang, qs), TrueDatas(lang, rs);
    OneGroup(lang, g, ps, z, []);
    OneGroup(lang, c, [], g0, qs);
    OneGroup(lang, t, [], c0, rs);
    OneGroup(lang, c, [], z, qs);
    OneGroup(lang, g, ps, c1, []);
    OneGroup(lang, t, [], g1, rs);
    hide TrueData;
    RotationKeepsSummary(lang, t, c, g, TrueData(lang, c0), TrueData(lang, g0), TrueData(lang, c1), TrueData(lang, g1),
                         pd, zd, qd, rd);
  }

  /** Rotating nested groups keeps the meaning of the outermost, if the innermost has no alias for its last child. */
  lemma RotationKeepsMeaning(lang: Language, ps: seq<Tree>, z: Tree, qs: seq<Tree>, rs: seq<Tree>, t: Data, c: Data, g: Data)
    requires Groups(lang, t.symbol, t) && Groups(lang, t.symbol, c) && Grouping(t.symbol, g)
    requires AliasAfter(lang, g, Datas(ps)) == 0
    requires t.childCount == 1 + |rs| && c.childCount == 1 + |qs| && g.childCount == |ps| + 1
    ensures Meaning(lang, Tree(t, [Tree(c, [Tree(g, ps + [z])] + qs)] + rs))
         == Meaning(lang, Tree(t, [Tree(g, ps + [Tree(c, [z] + qs)])] + rs))
  {
    hide Inside, InsideOf, Shows, Leaves, TrueData, Kept, AliasAt, StructuralIndex, AliasFree;
    LeavesOfRotation(ps, z, qs, rs, t, c, g);
    InsideOfRotation(lang, ps, z, qs, rs, t, c, g);
    SummaryOfRotation(lang, ps, z, qs, rs, t, c, g);
    var p, q, r := InsideOf(lang, g.productionId, ps), InsideOf(lang, c.productionId, qs), InsideOf(lang, t.productionId, rs);
    assert p + Shows(lang, 0, z) + q + r == p + (Shows(lang, 0, z) + q) + r;
  }

  lemma OneGroup(lang: Language, d: Data, xs: seq<Tree>, y: Tree, zs: seq<Tree>)
    requires xs == [] || zs == []
    ensures TrueData(lang, Tree(d, if zs == [] then xs + [y] else [y] + zs))
         == Summarize(lang, d, if zs == [] then TrueDatas(lang, xs) + [TrueData(lang, y)]
                               else [TrueData(lang, y)] + TrueDatas(lang, zs))
    ensures zs == [] ==> [y] + zs == [y] && [TrueData(lang, y)] + TrueDatas(lang, zs) == [TrueData(lang, y)]
    ensures xs == [] ==> xs + [y] == [y] && TrueDatas(lang, xs) + [TrueData(lang, y)] == [TrueData(lang, y)]
  {
    hide Summarize;
    var ts := if zs == [] then xs + [y] else [y] + zs;
    TrueDataOf(lang, Tree(d, ts));
    assert TrueDatas(lang, ts) == if zs == [] then TrueDatas(lang, xs) + [TrueData(lang, y)]
                                  else [TrueData(lang, y)] + TrueDatas(lang, zs);
  }

  /** A rotation whose other children are replaced by ones that mean the same keeps the meaning. */
  lemma RotationOfSame(lang: Language, ps: seq<Tree>, z: Tree, qs: seq<Tree>, rs: seq<Tree>,
                       ps': seq<Tree>, z': Tree, qs': seq<Tree>, rs': seq<Tree>, t: Data, c: Data, g: Data)
    requires Groups(lang, t.symbol, t) && Groups(lang, t.symbol, c) && Grouping(t.symbol, g)
    requires AliasAfter(lang, g, Datas(ps)) == 0
    requires t.childCount == 1 + |rs| && c.childCount == 1 + |qs| && g.childCount == |ps| + 1
    requires SameMeanings(lang, ps, ps') && Meaning(lang, z) == Meaning(lang, z')
    requires SameMeanings(lang, qs, qs') && SameMeanings(lang, rs, rs')
    ensures Meaning(lang, Tree(t, [Tree(c, [Tree(g, ps + [z])] + qs)] + rs))
         == Meaning(lang, Tree(t, [Tree(g, ps' + [Tree(c, [z'] + qs')])] + rs'))
  {
    hide Groups, Grouping, AliasAfter, Meaning, SameMeanings;
    RotationKeepsMeaning(lang, ps, z, qs, rs, t, c, g);
    NoMeanings(lang);
    var c1, c2 := Tree(c, [z] + qs), Tree(c, [z'] + qs');
    SameMeaningsAround(lang, [], [], z, z', qs, qs');
    MeaningOfSame(lang, c, [z] + qs, [z'] + qs');
    var g1, g2 := Tree(g, ps + [c1]), Tree(g, ps' + [c2]);
    SameMeaningsAround(lang, ps, ps', c1, c2, [], []);
    MeaningOfSame(lang, g, ps + [c1], ps' + [c2]);
    SameMeaningsAround(lang, [], [], g1, g2, rs, rs');
    MeaningOfSame(lang, t, [g1] + rs, [g2] + rs');
  }

  lemma NoMeanings(lang: Language)
    ensures SameMeanings(lang, [], [])
  {
  }

  lemma SameMeaningsAround(lang: Language, xs: seq<Tree>, xs': seq<Tree>, y: Tree, y': Tree, zs: seq<Tree>, zs': seq<Tree>)
    requires xs == xs' == [] || zs == zs' == []
    requires SameMeanings(lang, xs, xs') && Meaning(lang, y) == Meaning(lang, y') && SameMeanings(lang, zs, zs')
    ensures zs == [] ==> SameMeanings(lang, xs + [y], xs' + [y'])
    ensures xs == [] ==> SameMeanings(lang, [y] + zs, [y'] + zs')
  {
    hide Meaning;
  }

  lemma MeaningOfSame(lang: Language, d: Data, xs: seq<Tree>, ys: seq<Tree>)
    requires d.childCount == |xs| && xs != [] && SameMeanings(lang, xs, ys)
    ensures Meaning(lang, Tree(d, xs)) == Meaning(lang, Tree(d, ys))
  {
    MeaningOfNode(lang, d, xs, d, ys);
  }

  // ----- where an alias is lost ----------------------------------------------------------------

  /** A hidden node of two children that gives them no aliases. */
  function Pair(symbol: Symbol): Data {
    TOKEN.(inline := false, symbol := symbol, visible := false, named := false, childCount := 2)
  }

  /** What a rotation below `t` and `c` makes of the visible nodes. */
  predicate RotationKeepsShown(lang: Language, ps: seq<Tree>, z: Tree, qs: seq<Tree>, rs: seq<Tree>, t: Data, c: Data, g: Data) {
    Inside(lang, Tree(t, [Tree(c, [Tree(g, ps + [z])] + qs)] + rs))
    == Inside(lang, Tree(t, [Tree(g, ps + [Tree(c, [z] + qs)])] + rs))
  }

  /**
   * A rotation takes the last child away from `g` and puts a hidden node in its place. Whatever the
   * other nodes are, this keeps the visible tree exactly if the production of `g` has no alias for
   * its last child.
   */
  lemma RotationKeepsVisibleTree(lang: Language, ps: seq<Tree>, g: Data)
    requires Grouping(g.symbol, g) && g.symbol != SYM_END
    ensures AliasAfter(lang, g, Datas(ps)) == 0 <==>
              forall z: Tree, qs, rs, t: Data, c: Data :: Groups(lang, g.symbol, t) && Groups(lang, g.symbol, c) ==>
                RotationKeepsShown(lang, ps, z, qs, rs, t, c, g)
  {
    hide Inside, InsideOf, Shows, AliasAfter, RotationKeepsShown;
    if AliasAfter(lang, g, Datas(ps)) == 0 {
      forall z: Tree, qs, rs, t: Data, c: Data | Groups(lang, g.symbol, t) && Groups(lang, g.symbol, c)
        ensures RotationKeepsShown(lang, ps, z, qs, rs, t, c, g)
      {
        ShownWithoutAlias(lang, ps, z, qs, rs, t, c, g);
      }
    } else {
      var z, d := Tree(TOKEN.(symbol := g.symbol + 1), []), Pair(g.symbol);
      AliasIsLost(lang, ps, g, [], []);
      assert !RotationKeepsShown(lang, ps, z, [], [], d, d, g);
    }
  }

  lemma ShownWithoutAlias(lang: Language, ps: seq<Tree>, z: Tree, qs: seq<Tree>, rs: seq<Tree>, t: Data, c: Data, g: Data)
    requires Groups(lang, g.symbol, t) && Groups(lang, g.symbol, c) && Grouping(g.symbol, g) && AliasAfter(lang, g, Datas(ps)) == 0
    ensures RotationKeepsShown(lang, ps, z, qs, rs, t, c, g)
  {
    hide Inside, InsideOf, Shows, AliasAt, StructuralIndex, AliasFree, AliasAfter;
    InsideOfRotation(lang, ps, z, qs, rs, t, c, g);
    var p, q, r := InsideOf(lang, g.productionId, ps), InsideOf(lang, c.productionId, qs), InsideOf(lang, t.productionId, rs);
    assert p + Shows(lang, 0, z) + q + r == p + (Shows(lang, 0, z) + q) + r;
  }

  /** An alias for a token passes to the hidden node that takes its place. */
  lemma AliasIsLost(lang: Language, ps: seq<Tree>, g: Data, qs: seq<Tree>, rs: seq<Tree>)
    requires Grouping(g.symbol, g) && g.symbol != SYM_END && AliasAfter(lang, g, Datas(ps)) != 0
    ensures var z, d := Tree(TOKEN.(symbol := g.symbol + 1), []), Pair(g.symbol);
            Groups(lang, g.symbol, d) && !RotationKeepsShown(lang, ps, z, qs, rs, d, d, g)
  {
    hide Inside, InsideOf, Shows, AliasAt, StructuralIndex, AliasAfter, TrueData, Kept;
    var alias, z, d := AliasAfter(lang, g, Datas(ps)), Tree(TOKEN.(symbol := g.symbol + 1), []), Pair(g.symbol);
    PairGroups(lang, g.symbol);
    var c1 := Tree(d, [z] + qs);
    InsideOfRotation(lang, ps, z, qs, rs, d, d, g);
    ShownByAlias(lang, alias, z);
    ShownByAlias(lang, alias, c1);
    var p, q, r := InsideOf(lang, g.productionId, ps), InsideOf(lang, d.productionId, qs), InsideOf(lang, d.productionId, rs);
    var before, after := p + Shows(lang, alias, z) + q + r, p + Shows(lang, alias, c1) + r;
    assert before[|p|] == Shows(lang, alias, z)[0] && after[|p|] == Shows(lang, alias, c1)[0];
  }

  lemma PairGroups(lang: Language, symbol: Symbol)
    requires symbol != SYM_ERROR
    ensures Groups(lang, symbol, Pair(symbol))
  {
  }

  lemma ShownByAlias(lang: Language, alias: Symbol, t: Tree)
    requires alias != 0 && !t.data.extra && t.data.symbol != SYM_END
    ensures |Shows(lang, alias, t)| == 1 && Shows(lang, alias, t)[0].data.symbol == t.data.symbol
  {
    hide Inside;
    TrueIdentity(lang, t);
    hide TrueData;
  }
}
