/** What the summary of a node says about the tree below it, field by field, without summing anything up. */
module SummaryFacts {
  import opened Lengths
  import opened Subtrees
  import opened Summaries
  import opened ErrorGroups
  import opened EditMarks
  import ReusableNodes
  import VisibleNodes

  lemma AgreedSummary(lang: Language, t: Tree)
    requires Summarized(lang, t)
    ensures |t.children| == t.data.childCount
    ensures t.children != [] ==> !t.data.inline && Kept(t.data) == Kept(Summarize(lang, t.data, Datas(t.children)))
    ensures forall i :: 0 <= i < |t.children| ==> Summarized(lang, t.children[i])
  {
  }

  // ----- how far the lexer looked --------------------------------------------------------------

  /** The byte up to which was looked for the `i`th child, from the start of its parent. */
  function LookedTo(ds: seq<Data>, i: nat): nat
    requires i < |ds|
  {
    LeftOf(ds, i) + ds[i].Total().bytes + ds[i].lookaheadBytes
  }

  lemma {:induction false} SumIsReached(lang: Language, inError: bool, p: nat, ds: seq<Data>) returns (i: nat)
    requires ds != []
    ensures i < |ds| && Sum(lang, inError, p, ds).lookaheadEnd == LookedTo(ds, i)
    decreases |ds|
  {
    hide LeftOf, Sum;
    var n := |ds| - 1;
    LastLooksTo(lang, inError, p, ds);
    if Sum(lang, inError, p, ds).lookaheadEnd == LookedTo(ds, n) {
      i := n;
    } else {
      i := SumIsReached(lang, inError, p, ds[..n]);
      SameLeft(ds[..n], ds, i);
    }
  }

  lemma LastLooksTo(lang: Language, inError: bool, p: nat, ds: seq<Data>)
    requires ds != []
    ensures var n := |ds| - 1;
            var end := Sum(lang, inError, p, ds).lookaheadEnd;
            end == LookedTo(ds, n) || (n > 0 && end == Sum(lang, inError, p, ds[..n]).lookaheadEnd)
  {
    hide LeftOf, Charge, EffectiveAlias, PointAdd;
    var n := |ds| - 1;
    SumBytesStep(lang, inError, p, ds);
    if n > 0 {
      SumReaches(lang, inError, p, ds[..n], 0);
      SameLeft(ds[..n], ds, n);
    }
  }

  /** A node has looked ahead just as far as one of its children; that none went further says `SummarizedIsLaidOut`. */
  lemma LookaheadIsReached(lang: Language, t: Tree) returns (i: nat)
    requires Summarized(lang, t) && t.children != []
    ensures i < |t.children| && t.data.Total().bytes + t.data.lookaheadBytes == LookedTo(Datas(t.children), i)
  {
    hide Sum, Summarized, LeftOf, LookedTo;
    AgreedSummary(lang, t);
    var ds := Datas(t.children);
    var inError, p := ChargesExtent(t.data.symbol), t.data.productionId;
    i := SumIsReached(lang, inError, p, ds);
    SumTotals(lang, inError, p, ds);
    KeptFields(t.data, Summarize(lang, t.data, ds));
  }

  // ----- the first leaf and external tokens ----------------------------------------------------

  /** The cached first leaf is the first leaf. */
  lemma {:induction false} FirstLeafIsCached(lang: Language, t: Tree)
    requires Summarized(lang, t)
    ensures Leaves(t) != [] && t.data.LeafSymbol() == Leaves(t)[0].symbol && t.data.LeafState() == Leaves(t)[0].parseState
    decreases t
  {
    AgreedSummary(lang, t);
    hide Summarized, Sum, SizeOf, AnyOnFirstRow, AnyError;
    if t.children != [] {
      FirstLeafIsCached(lang, t.children[0]);
      KeptFields(t.data, Summarize(lang, t.data, Datas(t.children)));
    }
  }

  predicate AnyTokens(ds: seq<Data>) { exists i :: 0 <= i < |ds| && ds[i].HasExternalTokens() }

  lemma AnyTokensStep(ds: seq<Data>)
    requires ds != []
    ensures AnyTokens(ds) <==> AnyTokens(ds[..|ds| - 1]) || ds[|ds| - 1].HasExternalTokens()
  {
    var front := ds[..|ds| - 1];
    assert forall i :: 0 <= i < |front| ==> front[i] == ds[i];
  }

  lemma {:induction false} SumTokens(lang: Language, inError: bool, p: nat, ds: seq<Data>)
    ensures Sum(lang, inError, p, ds).externalTokens <==> AnyTokens(ds)
    decreases |ds|
  {
    hide AnyTokens, Add, Charge, EffectiveAlias, Max, AliasAt, StructuralIndex;
    if ds == [] {
      assert !AnyTokens([]) by { NoTokens(); }
    } else {
      AnyTokensStep(ds);
      SumTokens(lang, inError, p, ds[..|ds| - 1]);
    }
  }

  lemma NoTokens()
    ensures !AnyTokens([])
  {
  }

  /** Summarised nodes have external tokens just when one of their children has, as reusing them takes for granted. */
  lemma {:induction false} TokensAreTrue(lang: Language, t: Tree)
    requires Summarized(lang, t)
    ensures ReusableNodes.TokensOk(t)
    decreases t
  {
    AgreedSummary(lang, t);
    hide Summarized, Sum, SizeOf, AnyOnFirstRow, AnyError, AnyTokens, ReusableNodes.TokensOk;
    forall i | 0 <= i < |t.children| ensures ReusableNodes.TokensOk(t.children[i]) {
      TokensAreTrue(lang, t.children[i]);
    }
    if t.children != [] {
      SumTokens(lang, ChargesExtent(t.data.symbol), t.data.productionId, Datas(t.children));
      KeptFields(t.data, Summarize(lang, t.data, Datas(t.children)));
    }
    TokensFrom(t);
  }

  lemma TokensFrom(t: Tree)
    requires t.children != [] ==> (t.data.HasExternalTokens() <==> AnyTokens(Datas(t.children)))
    requires forall i :: 0 <= i < |t.children| ==> ReusableNodes.TokensOk(t.children[i])
    ensures ReusableNodes.TokensOk(t)
  {
    var ds := Datas(t.children);
    assert forall i :: 0 <= i < |ds| ==> ds[i] == t.children[i].data;
  }

  // ----- columns -------------------------------------------------------------------------------

  /** The child starts on the first row of what its parent's size covers. */
  predicate OnFirstRow(ds: seq<Data>, i: nat)
    requires i < |ds|
  {
    i == 0 || SizeOf(ds[..i]).extent.row == 0
  }

  ghost predicate DependsFrom(ds: seq<Data>, from: nat) {
    exists i :: from <= i < |ds| && ds[i].DependsOnColumn() && OnFirstRow(ds, i)
  }

  /** What the loop finds: it judges the first child by the size that the parent had before. */
  lemma {:induction false} AnyOnFirstRowIs(oldSize: Length, ds: seq<Data>)
    requires ds != []
    ensures AnyOnFirstRow(oldSize, ds) <==> (ds[0].DependsOnColumn() && oldSize.extent.row == 0) || DependsFrom(ds, 1)
    decreases |ds|
  {
    hide SizeOf;
    var n := |ds| - 1;
    var front := ds[..n];
    if n == 0 {
      assert front == [] && !AnyOnFirstRow(oldSize, front);
    } else {
      AnyOnFirstRowIs(oldSize, front);
      forall i | 1 <= i < n ensures front[i] == ds[i] && (OnFirstRow(front, i) <==> OnFirstRow(ds, i)) {
        assert front[..i] == ds[..i];
      }
      assert ds[n].DependsOnColumn() && OnFirstRow(ds, n) ==> DependsFrom(ds, 1);
    }
  }

  /**
   * A summary says that a node depends on its column just when a child on its first row does, if and
   * only if the size it had before is of one row, or its first child does not depend on columns, or a
   * later one on the first row does as well. New nodes have no size yet.
   */
  lemma ColumnsAreSummarized(lang: Language, d: Data, ds: seq<Data>)
    requires ds != []
    ensures Summarize(lang, d, ds).dependsOnColumn == DependsFrom(ds, 0)
       <==> d.size.extent.row == 0 || !ds[0].DependsOnColumn() || DependsFrom(ds, 1)
  {
    hide Sum, SizeOf, AnyOnFirstRow, AnyError;
    AnyOnFirstRowIs(d.size, ds);
    assert ds[0].DependsOnColumn() ==> OnFirstRow(ds, 0) && DependsFrom(ds, 0);
  }

  function Columned(): Data { PlainData(3, 0).(dependsOnColumn := true) }

  function NextLine(): Data { PlainData(0, 0).(size := Length(2, Point(1, 1))) }

  /** Summarised once the node depends on its column, summarised again it does not. */
  lemma AColumnIsForgotten(lang: Language)
    ensures var ds := [Columned(), NextLine()];
            var once := Summarize(lang, PlainData(0, 2), ds);
            once.dependsOnColumn && !Summarize(lang, once, ds).dependsOnColumn
  {
    var ds := [Columned(), NextLine()];
    hide Sum, AnyError, AnyOnFirstRow, PlainData;
    assert !Columned().inline && PlainData(0, 2).size.extent.row == 0 && !NextLine().DependsOnColumn() by { PlainFields(); }
    AnyOnFirstRowIs(PlainData(0, 2).size, ds);
    SizeOfTwo(Columned(), NextLine());
    AnyOnFirstRowIs(SizeOf(ds), ds);
    assert SizeOf(ds).extent.row > 0 by { PlainFields(); }
  }

  lemma PlainFields()
    ensures var d := PlainData(0, 2); d.size.extent.row == 0
    ensures var d := PlainData(3, 0); !d.inline && d.padding == ZERO && d.size == Length(3, Point(0, 3))
    ensures var d := PlainData(0, 0); !d.inline && d.padding == ZERO && !d.dependsOnColumn
  {
  }

  lemma SizeOfTwo(a: Data, b: Data)
    ensures SizeOf([a, b]) == Add(a.size, b.Total())
  {
    assert [a, b][..1] == [a];
  }

  // ----- costs ---------------------------------------------------------------------------------

  /** The nodes of a sibling list once every `_ERROR` group in it is dissolved, as trees. */
  function Dissolved(ts: seq<Tree>): seq<Tree> {
    if ts == [] then []
    else
      var last := ts[|ts| - 1];
      Dissolved(ts[..|ts| - 1]) + if last.data.symbol == SYM_ERROR_REPEAT then Dissolved(last.children) else [last]
  }

  /** The nodes that users see in a subtree that has been skipped, down to the first ones on each way. */
  function Skipped(lang: Language, t: Tree): nat {
    if t.data.extra || (t.data.IsError() && t.children == []) then 0
    else if t.data.visible then 1
    else |VisibleNodes.AllKids(lang, t)|
  }

  /** What subtrees cost that have been skipped: their own costs, and a hundred for every node seen. */
  function SkipCost(lang: Language, ts: seq<Tree>): nat {
    if ts == [] then 0
    else SkipCost(lang, ts[..|ts| - 1]) + ts[|ts| - 1].data.ErrorCost() + COST_PER_SKIPPED_TREE * Skipped(lang, ts[|ts| - 1])
  }

  lemma {:induction false} SkipCostAppend(lang: Language, xs: seq<Tree>, ys: seq<Tree>)
    ensures SkipCost(lang, xs + ys) == SkipCost(lang, xs) + SkipCost(lang, ys)
    decreases |ys|
  {
    hide Skipped;
    if ys == [] {
      assert xs + ys == xs;
    } else {
      assert (xs + ys)[..|xs + ys| - 1] == xs + ys[..|ys| - 1];
      SkipCostAppend(lang, xs, ys[..|ys| - 1]);
    }
  }

  lemma ChargeIs(lang: Language, t: Tree)
    requires Summarized(lang, t) && VisibleNodes.EndUnaliased(lang, t) && t.data.symbol != SYM_ERROR_REPEAT
    ensures Charge(true, t.data) == t.data.ErrorCost() + COST_PER_SKIPPED_TREE * Skipped(lang, t)
  {
    AgreedSummary(lang, t);
    hide Summarized, VisibleNodes.AllKids;
    VisibleNodes.SummarizedIsCounted(lang, t);
  }

  lemma {:induction false} DissolvedCharge(lang: Language, ts: seq<Tree>)
    requires forall i :: 0 <= i < |ts| ==> Summarized(lang, ts[i]) && VisibleNodes.EndUnaliased(lang, ts[i])
    ensures SumCharges(Ungrouped(ts)) == SkipCost(lang, Dissolved(ts))
    decreases ts
  {
    hide Summarized, VisibleNodes.EndUnaliased, Charge, Skipped;
    if ts != [] {
      var n := |ts| - 1;
      var last := ts[n];
      DissolvedCharge(lang, ts[..n]);
      if last.data.symbol == SYM_ERROR_REPEAT {
        InsideGroup(lang, last);
        DissolvedCharge(lang, last.children);
        SumChargesAppend(Ungrouped(ts[..n]), Ungrouped(last.children));
        SkipCostAppend(lang, Dissolved(ts[..n]), Dissolved(last.children));
      } else {
        ChargeIs(lang, last);
        SumChargesAppend(Ungrouped(ts[..n]), [last.data]);
        SkipCostAppend(lang, Dissolved(ts[..n]), [last]);
        assert [last.data][..0] == [] && [last][..0] == [];
      }
    }
  }

  lemma InsideGroup(lang: Language, t: Tree)
    requires Summarized(lang, t) && VisibleNodes.EndUnaliased(lang, t)
    ensures forall i :: 0 <= i < |t.children| ==>
              Summarized(lang, t.children[i]) && VisibleNodes.EndUnaliased(lang, t.children[i])
  {
  }

  /**
   * An error node costs five hundred, one for each byte and thirty for each row it covers, what the
   * subtrees in it cost themselves, and a hundred for every node that users see of them, groups or not.
   */
  lemma ErrorsCost(lang: Language, t: Tree)
    requires Summarized(lang, t) && VisibleNodes.EndUnaliased(lang, t) && WellGrouped(t)
    requires ChargesExtent(t.data.symbol) && t.children != []
    ensures t.data.errorCost == 500 + t.data.size.bytes + 30 * t.data.size.extent.row + SkipCost(lang, Dissolved(t.children))
  {
    hide Ungrouped, SumCharges, Dissolved, SkipCost, Summarized, VisibleNodes.EndUnaliased;
    GroupCost(lang, t);
    InsideGroup(lang, t);
    DissolvedCharge(lang, t.children);
  }

  function OwnCosts(ts: seq<Tree>): nat {
    if ts == [] then 0 else OwnCosts(ts[..|ts| - 1]) + ts[|ts| - 1].data.ErrorCost()
  }

  lemma {:induction false} SumOfCosts(lang: Language, p: nat, ts: seq<Tree>)
    requires forall i :: 0 <= i < |ts| ==> ts[i].data.symbol != SYM_ERROR_REPEAT
    ensures Sum(lang, false, p, Datas(ts)).errorCost == OwnCosts(ts)
    decreases |ts|
  {
    if ts != [] {
      var n := |ts| - 1;
      assert Datas(ts)[..n] == Datas(ts[..n]);
      SumOfCosts(lang, p, ts[..n]);
    }
  }

  /** Any other node costs what its children cost. */
  lemma OthersCost(lang: Language, t: Tree)
    requires Summarized(lang, t) && !ChargesExtent(t.data.symbol) && t.children != []
    requires forall i :: 0 <= i < |t.children| ==> t.children[i].data.symbol != SYM_ERROR_REPEAT
    ensures t.data.errorCost == OwnCosts(t.children)
  {
    hide Sum, Summarized, OwnCosts, SizeOf, AnyError, AnyOnFirstRow;
    AgreedSummary(lang, t);
    KeptFields(t.data, Summarize(lang, t.data, Datas(t.children)));
    SumOfCosts(lang, t.data.productionId, t.children);
  }
}
