/** What cached summaries mean: they are determined by the nodes below, however those are grouped. */
module Summaries {
  import opened Lengths
  import opened Subtrees

  ghost predicate AliasFree(lang: Language, productionId: nat) {
    forall i: nat :: AliasAt(lang, productionId, i) == 0
  }

  // ----- siblings form a monoid --------------------------------------------------------------

  lemma CombineAssociative(a: Totals, b: Totals, c: Totals)
    ensures Combine(Combine(a, b), c) == Combine(a, Combine(b, c))
    ensures Combine(NOTHING, a) == a
    ensures a.lookaheadEnd >= a.total.bytes ==> Combine(a, NOTHING) == a
  {
    LengthMonoid(a.total, b.total, c.total);
  }

  /** Without aliases, the totals of a list are those of its parts. */
  lemma {:induction false} SumAppend(lang: Language, inError: bool, p: nat, q: nat, xs: seq<Data>, ys: seq<Data>)
    requires AliasFree(lang, p) && AliasFree(lang, q)
    ensures Sum(lang, inError, p, xs + ys) == Combine(Sum(lang, inError, p, xs), Sum(lang, inError, q, ys))
    decreases |ys|
  {
    if ys == [] {
      assert xs + ys == xs;
      SumTotals(lang, inError, p, xs);
      CombineAssociative(Sum(lang, inError, p, xs), NOTHING, NOTHING);
    } else {
      var front, y := ys[..|ys| - 1], ys[|ys| - 1];
      assert (xs + ys)[..|xs + ys| - 1] == xs + front;
      SumAppend(lang, inError, p, q, xs, front);
      CombineAssociative(Sum(lang, inError, p, xs), Sum(lang, inError, q, front), One(lang, inError, 0, y));
    }
  }

  lemma SumSingle(lang: Language, inError: bool, p: nat, d: Data)
    ensures Sum(lang, inError, p, [d]) == One(lang, inError, AliasAt(lang, p, 0), d)
  {
    assert [d][..0] == [];
    CombineAssociative(One(lang, inError, AliasAt(lang, p, 0), d), NOTHING, NOTHING);
  }

  /** A list and its totals determine the size: it is the total with the first padding taken off. */
  lemma SizeFromTotal(lang: Language, inError: bool, p: nat, ds: seq<Data>)
    requires ds != []
    ensures SizeOf(ds) == Sub(Sum(lang, inError, p, ds).total, ds[0].padding)
  {
    SumTotals(lang, inError, p, ds);
    LengthMonoid(ds[0].padding, SizeOf(ds), ZERO);
  }

  // ----- only the kept part of a child matters ----------------------------------------------

  predicate SameKept(xs: seq<Data>, ys: seq<Data>) {
    |xs| == |ys| && forall i :: 0 <= i < |xs| ==> Kept(xs[i]) == Kept(ys[i])
  }

  predicate SameTotals(a: Totals, b: Totals) { a.(dynamicPrecedence := 0) == b.(dynamicPrecedence := 0) }

  lemma KeptIsWhatCounts(lang: Language, inError: bool, alias: Symbol, x: Data, y: Data)
    requires Kept(x) == Kept(y)
    ensures SameTotals(One(lang, inError, alias, x), One(lang, inError, alias, y))
    ensures x.LeafSymbol() == y.LeafSymbol() && x.LeafState() == y.LeafState()
    ensures x.extra == y.extra && x.symbol == y.symbol && x.padding == y.padding && x.size == y.size
  {
    KeptFields(x, y);
  }

  lemma KeptFields(x: Data, y: Data)
    requires Kept(x) == Kept(y)
    ensures y == x.(repeatDepth := y.repeatDepth, dependsOnColumn := y.dependsOnColumn,
                    dynamicPrecedence := y.dynamicPrecedence, parseState := y.parseState)
    ensures x.childCount == 0 ==> x.parseState == y.parseState
  {
    var kx, ky := Kept(x), Kept(y);
    assert kx.childCount == x.childCount && ky.childCount == y.childCount;
    assert kx.parseState == ky.parseState;
    assert y == ky.(repeatDepth := y.repeatDepth, dependsOnColumn := y.dependsOnColumn,
                    dynamicPrecedence := y.dynamicPrecedence, parseState := y.parseState);
  }

  lemma CombineSame(a: Totals, b: Totals, x: Totals, y: Totals)
    requires SameTotals(a, b) && SameTotals(x, y)
    ensures SameTotals(Combine(a, x), Combine(b, y))
  {
    assert a.(dynamicPrecedence := 0).total == a.total && b.(dynamicPrecedence := 0).total == b.total;
    assert Combine(b, y) == Combine(a, x).(dynamicPrecedence := b.dynamicPrecedence + y.dynamicPrecedence);
  }

  lemma {:induction false} SumKept(lang: Language, inError: bool, p: nat, xs: seq<Data>, ys: seq<Data>)
    requires SameKept(xs, ys)
    ensures SameTotals(Sum(lang, inError, p, xs), Sum(lang, inError, p, ys))
    ensures StructuralIndex(xs) == StructuralIndex(ys)
    ensures xs != [] ==> SizeOf(xs) == SizeOf(ys)
    decreases |xs|
  {
    hide Kept, One, SameTotals, Combine, AliasAt;
    if xs == [] {
      assert Sum(lang, inError, p, xs) == Sum(lang, inError, p, ys) == NOTHING;
      NothingSame();
    } else {
      var n := |xs| - 1;
      SumKept(lang, inError, p, xs[..n], ys[..n]);
      var alias := AliasAt(lang, p, StructuralIndex(xs[..n]));
      KeptIsWhatCounts(lang, inError, alias, xs[n], ys[n]);
      CombineSame(Sum(lang, inError, p, xs[..n]), Sum(lang, inError, p, ys[..n]),
                  One(lang, inError, alias, xs[n]), One(lang, inError, alias, ys[n]));
    }
  }

  lemma NothingSame()
    ensures SameTotals(NOTHING, NOTHING)
  {
  }

  /** Fields of a node that no summary changes. */
  predicate SameIdentity(x: Data, y: Data) {
    && x.inline == y.inline && x.symbol == y.symbol && x.visible == y.visible && x.named == y.named
    && x.extra == y.extra && x.hasChanges == y.hasChanges && x.isMissing == y.isMissing
    && x.childCount == y.childCount && x.productionId == y.productionId
  }

  lemma SummarizeKept(lang: Language, x: Data, y: Data, xs: seq<Data>, ys: seq<Data>)
    requires SameIdentity(x, y) && SameKept(xs, ys) && xs != [] && x.childCount == |xs|
    ensures Kept(Summarize(lang, x, xs)) == Kept(Summarize(lang, y, ys))
  {
    hide Sum, SizeOf, One;
    SumKept(lang, ChargesExtent(x.symbol), x.productionId, xs, ys);
    KeptIsWhatCounts(lang, false, 0, xs[0], ys[0]);
  }

  // ----- summaries computed from scratch -----------------------------------------------------

  /** The data a node has if every summary below it is recomputed. */
  function TrueData(lang: Language, t: Tree): Data {
    if t.children == [] then t.data
    else Summarize(lang, t.data, seq(|t.children|, i requires 0 <= i < |t.children| => TrueData(lang, t.children[i])))
  }

  function TrueDatas(lang: Language, ts: seq<Tree>): (ds: seq<Data>)
    ensures |ds| == |ts| && forall i :: 0 <= i < |ts| ==> ds[i] == TrueData(lang, ts[i])
  {
    seq(|ts|, i requires 0 <= i < |ts| => TrueData(lang, ts[i]))
  }

  lemma TrueDataOf(lang: Language, t: Tree)
    requires t.children != []
    ensures TrueData(lang, t) == Summarize(lang, t.data, TrueDatas(lang, t.children))
  {
    assert seq(|t.children|, i requires 0 <= i < |t.children| => TrueData(lang, t.children[i])) == TrueDatas(lang, t.children);
  }

  /** In a summarised tree the cached data is what recomputing everything would give. */
  lemma {:induction false} SummarizedIsTrue(lang: Language, t: Tree)
    requires Summarized(lang, t)
    ensures Kept(t.data) == Kept(TrueData(lang, t))
    decreases t
  {
    if t.children != [] {
      forall i | 0 <= i < |t.children| ensures Kept(Datas(t.children)[i]) == Kept(TrueDatas(lang, t.children)[i]) {
        SummarizedIsTrue(lang, t.children[i]);
      }
      TrueDataOf(lang, t);
      SummarizeKept(lang, t.data, t.data, Datas(t.children), TrueDatas(lang, t.children));
    }
  }

  function Leaves(t: Tree): seq<Data>
    decreases t, 0
  {
    if t.children == [] then [t.data] else ListLeaves(t.children)
  }

  function ListLeaves(ts: seq<Tree>): seq<Data>
    decreases ts, 1
  {
    if ts == [] then [] else Leaves(ts[0]) + ListLeaves(ts[1..])
  }

  lemma {:induction false} ListLeavesAppend(xs: seq<Tree>, ys: seq<Tree>)
    ensures ListLeaves(xs + ys) == ListLeaves(xs) + ListLeaves(ys)
  {
    if xs == [] {
      assert xs + ys == ys;
    } else {
      assert (xs + ys)[1..] == xs[1..] + ys;
      ListLeavesAppend(xs[1..], ys);
    }
  }

  // ----- regrouping --------------------------------------------------------------------------

  /** A node that only groups its children for a repetition of `symbol`. */
  predicate Grouping(symbol: Symbol, d: Data) {
    && !d.inline && !d.visible && !d.isMissing && d.childCount > 0
    && d.symbol == symbol && symbol != SYM_ERROR
  }

  /** One that gives its children no aliases. */
  ghost predicate Groups(lang: Language, symbol: Symbol, d: Data) {
    Grouping(symbol, d) && AliasFree(lang, d.productionId)
  }

  /** The alias that the production has for a child after the given ones. */
  function AliasAfter(lang: Language, d: Data, front: seq<Data>): Symbol {
    AliasAt(lang, d.productionId, StructuralIndex(front))
  }

  /** To a parent of the same symbol, a group counts exactly as its children would. */
  lemma GroupCountsAsItsChildren(lang: Language, d: Data, ds: seq<Data>)
    requires Grouping(d.symbol, d) && |ds| == d.childCount
    ensures One(lang, ChargesExtent(d.symbol), 0, Summarize(lang, d, ds))
         == Sum(lang, ChargesExtent(d.symbol), d.productionId, ds)
    ensures var s := Summarize(lang, d, ds);
            s.padding == ds[0].padding && s.LeafSymbol() == ds[0].LeafSymbol() && s.LeafState() == ds[0].LeafState()
  {
    SumTotals(lang, ChargesExtent(d.symbol), d.productionId, ds);
  }

  /** A group's first child, and the others. */
  lemma FirstInGroup(lang: Language, d: Data, x: Data, ys: seq<Data>)
    requires Groups(lang, d.symbol, d)
    ensures var inError := ChargesExtent(d.symbol);
            Sum(lang, inError, d.productionId, [x] + ys)
            == Combine(One(lang, inError, 0, x), Sum(lang, inError, d.productionId, ys))
  {
    var inError := ChargesExtent(d.symbol);
    SumAppend(lang, inError, d.productionId, d.productionId, [x], ys);
    SumSingle(lang, inError, d.productionId, x);
  }

  /** A node's last child, and the others. */
  lemma LastInGroup(lang: Language, d: Data, xs: seq<Data>, y: Data)
    requires AliasAfter(lang, d, xs) == 0
    ensures var inError := ChargesExtent(d.symbol);
            Sum(lang, inError, d.productionId, xs + [y])
            == Combine(Sum(lang, inError, d.productionId, xs), One(lang, inError, 0, y))
  {
    assert (xs + [y])[..|xs|] == xs;
  }

  /**
   * A rotation of nested groups, from ((P z) Q) R to (P (z Q)) R, keeps the outermost summary, if
   * no alias is lost or found: only the innermost may give some to its children, and not to the last.
   */
  lemma RotationKeepsSummary(lang: Language, t: Data, c: Data, g: Data, c0: Data, g0: Data, c1: Data, g1: Data,
                             ps: seq<Data>, z: Data, qs: seq<Data>, rs: seq<Data>)
    requires Groups(lang, t.symbol, t) && Groups(lang, t.symbol, c) && Grouping(t.symbol, g) && AliasAfter(lang, g, ps) == 0
    requires t.childCount == 1 + |rs| && c.childCount == 1 + |qs| && g.childCount == |ps| + 1
    requires g0 == Summarize(lang, g, ps + [z]) && c0 == Summarize(lang, c, [g0] + qs)
    requires c1 == Summarize(lang, c, [z] + qs) && g1 == Summarize(lang, g, ps + [c1])
    ensures Kept(Summarize(lang, t, [c0] + rs)) == Kept(Summarize(lang, t, [g1] + rs))
  {
    GroupCountsAsItsChildren(lang, c, [g0] + qs);
    GroupCountsAsItsChildren(lang, c, [z] + qs);
    GroupCountsAsItsChildren(lang, g, ps + [z]);
    GroupCountsAsItsChildren(lang, g, ps + [c1]);
    hide Summarize, Sum, One, Combine, SizeOf, AliasAfter, Grouping;
    var inError := ChargesExtent(t.symbol);
    FirstInGroup(lang, t, c0, rs);
    FirstInGroup(lang, t, g1, rs);
    FirstInGroup(lang, c, g0, qs);
    FirstInGroup(lang, c, z, qs);
    LastInGroup(lang, g, ps, z);
    LastInGroup(lang, g, ps, c1);
    CombineAssociative(Sum(lang, inError, g.productionId, ps), One(lang, inError, 0, z), Sum(lang, inError, c.productionId, qs));
    assert Sum(lang, inError, t.productionId, [c0] + rs) == Sum(lang, inError, t.productionId, [g1] + rs);
    SizeFromTotal(lang, inError, t.productionId, [c0] + rs);
    SizeFromTotal(lang, inError, t.productionId, [g1] + rs);
    SeenDeterminesSummary(lang, t, [c0] + rs, [g1] + rs);
  }

  /** What a node's summary takes from its children: their totals, their size and the first one's beginning. */
  lemma SeenDeterminesSummary(lang: Language, d: Data, xs: seq<Data>, ys: seq<Data>)
    requires xs != [] && ys != [] && d.childCount > 0 && SizeOf(xs) == SizeOf(ys) && xs[0].padding == ys[0].padding
    requires Sum(lang, ChargesExtent(d.symbol), d.productionId, xs) == Sum(lang, ChargesExtent(d.symbol), d.productionId, ys)
    requires xs[0].LeafSymbol() == ys[0].LeafSymbol() && xs[0].LeafState() == ys[0].LeafState()
    ensures Kept(Summarize(lang, d, xs)) == Kept(Summarize(lang, d, ys))
  {
  }

  // ----- dynamic precedence --------------------------------------------------------------------

  function Precedences(ds: seq<Data>): int {
    if ds == [] then 0 else Precedences(ds[..|ds| - 1]) + ds[|ds| - 1].DynamicPrecedence()
  }

  lemma {:induction false} SumPrecedence(lang: Language, inError: bool, p: nat, ds: seq<Data>)
    ensures Sum(lang, inError, p, ds).dynamicPrecedence == Precedences(ds)
    decreases |ds|
  {
    if ds != [] {
      SumPrecedence(lang, inError, p, ds[..|ds| - 1]);
    }
  }

  lemma {:induction false} PrecedencesAppend(xs: seq<Data>, ys: seq<Data>)
    ensures Precedences(xs + ys) == Precedences(xs) + Precedences(ys)
    decreases |ys|
  {
    if ys == [] {
      assert xs + ys == xs;
    } else {
      assert (xs + ys)[..|xs + ys| - 1] == xs + ys[..|ys| - 1];
      PrecedencesAppend(xs, ys[..|ys| - 1]);
    }
  }

  lemma OnePrecedence(d: Data)
    ensures Precedences([d]) == d.DynamicPrecedence()
  {
    assert [d][..0] == [];
  }

  /** The dynamic precedence of a node's own production, which a reduction adds to its children's. */
  function OwnPrecedence(d: Data, ds: seq<Data>): int { d.dynamicPrecedence - Precedences(ds) }

  /**
   * A rotation forgets the precedences that the three nodes' productions added: it keeps the
   * dynamic precedence of the outermost exactly when these cancel out.
   */
  lemma RotationForgetsPrecedence(lang: Language, t: Data, c: Data, g: Data, ps: seq<Data>, z: Data, qs: seq<Data>, rs: seq<Data>)
    requires t.childCount > 0 && c.childCount > 0 && g.childCount > 0
    ensures var c1 := Summarize(lang, c, [z] + qs);
            var g1 := Summarize(lang, g, ps + [c1]);
            var t1 := Summarize(lang, t, [g1] + rs);
            var own := OwnPrecedence(t, [c] + rs) + OwnPrecedence(c, [g] + qs) + OwnPrecedence(g, ps + [z]);
            t1.dynamicPrecedence == t.dynamicPrecedence - own && (t1.dynamicPrecedence == t.dynamicPrecedence <==> own == 0)
  {
    var c1 := Summarize(lang, c, [z] + qs);
    var g1 := Summarize(lang, g, ps + [c1]);
    var t1 := Summarize(lang, t, [g1] + rs);
    PrecedenceOfSummary(lang, c, [z], qs);
    PrecedenceOfSummary(lang, g, ps, [c1]);
    PrecedenceOfSummary(lang, t, [g1], rs);
    hide Summarize;
    PrecedencesAppend([c], rs);
    PrecedencesAppend([g], qs);
    PrecedencesAppend(ps, [z]);
    OnePrecedence(c);
    OnePrecedence(g);
    OnePrecedence(z);
    OnePrecedence(c1);
    OnePrecedence(g1);
  }

  /** A token of one column. */
  const TOKEN := Data(true, 2, 1, Length(0, Point(0, 0)), Length(1, Point(0, 1)), 0, 0,
    true, true, false, false, false, false, false, 0, 0, 0, 0, 0, 0, 0, 2, 1)

  /** A repetition of two, before its children are summarised. */
  const PAIR := TOKEN.(inline := false, symbol := 3, visible := false, named := false, childCount := 2)

  /** What a reduction makes of its children: their summary, and its production's own precedence. */
  function Reduced(lang: Language, d: Data, ds: seq<Data>, own: int): Data
    requires ds != []
  {
    var summary := Summarize(lang, d, ds);
    summary.(dynamicPrecedence := summary.dynamicPrecedence + own)
  }

  /** Three nested repetitions of tokens, the lowest from a production of precedence 1: rotated, they have precedence 0. */
  lemma APrecedenceIsForgotten(lang: Language)
    ensures var g := Reduced(lang, PAIR, [TOKEN, TOKEN], 1);
            var c := Reduced(lang, PAIR, [g, TOKEN], 0);
            var t := Reduced(lang, PAIR, [c, TOKEN], 0);
            var c1 := Summarize(lang, c, [TOKEN, TOKEN]);
            var g1 := Summarize(lang, g, [TOKEN, c1]);
            t.dynamicPrecedence == 1 && Summarize(lang, t, [g1, TOKEN]).dynamicPrecedence == 0
  {
    hide Summarize, Precedences, Reduced;
    var g := Reduced(lang, PAIR, [TOKEN, TOKEN], 1);
    var c := Reduced(lang, PAIR, [g, TOKEN], 0);
    var t := Reduced(lang, PAIR, [c, TOKEN], 0);
    ReducedPair(lang, TOKEN, 1);
    ReducedPair(lang, g, 0);
    ReducedPair(lang, c, 0);
    assert [g] + [TOKEN] == [g, TOKEN] && [c] + [TOKEN] == [c, TOKEN] && [TOKEN] + [TOKEN] == [TOKEN, TOKEN];
    var c1 := Summarize(lang, c, [TOKEN, TOKEN]);
    assert [TOKEN] + [c1] == [TOKEN, c1];
    var g1 := Summarize(lang, g, [TOKEN, c1]);
    assert [g1] + [TOKEN] == [g1, TOKEN];
    RotationForgetsPrecedence(lang, t, c, g, [TOKEN], TOKEN, [TOKEN], [TOKEN]);
  }

  lemma ReducedPair(lang: Language, x: Data, own: int)
    ensures var d := Reduced(lang, PAIR, [x, TOKEN], own);
            && d.childCount == 2 && d.dynamicPrecedence == x.DynamicPrecedence() + own
            && OwnPrecedence(d, [x] + [TOKEN]) == own
  {
    assert [x] + [TOKEN] == [x, TOKEN];
    PrecedenceOfSummary(lang, PAIR, [x], [TOKEN]);
    hide Summarize;
    PrecedencesAppend([x], [TOKEN]);
    OnePrecedence(x);
    OnePrecedence(TOKEN);
  }

  lemma PrecedenceOfSummary(lang: Language, d: Data, xs: seq<Data>, ys: seq<Data>)
    requires xs + ys != []
    ensures Summarize(lang, d, xs + ys).dynamicPrecedence == Precedences(xs) + Precedences(ys)
    ensures Summarize(lang, d, xs + ys).childCount == d.childCount
  {
    SumPrecedence(lang, ChargesExtent(d.symbol), d.productionId, xs + ys);
    PrecedencesAppend(xs, ys);
  }
}
