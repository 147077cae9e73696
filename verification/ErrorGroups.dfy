/** Wrapping skipped nodes in `_ERROR` groups is neutral: no grouping changes what an error costs. */
module ErrorGroups {
  import opened Lengths
  import opened Subtrees
  import opened Summaries

  /** Every `_ERROR` node was built around at least one child. */
  predicate WellGrouped(t: Tree) {
    && (t.data.symbol == SYM_ERROR_REPEAT ==> t.children != [] && !t.data.inline && !t.data.isMissing)
    && forall i :: 0 <= i < |t.children| ==> WellGrouped(t.children[i])
  }

  /** The nodes of a sibling list once every `_ERROR` group in it is dissolved. */
  function Ungrouped(ts: seq<Tree>): seq<Data> {
    if ts == [] then []
    else
      var last := ts[|ts| - 1];
      Ungrouped(ts[..|ts| - 1]) +
      if last.data.symbol == SYM_ERROR_REPEAT then Ungrouped(last.children) else [last.data]
  }

  function SumCharges(ds: seq<Data>): nat {
    if ds == [] then 0 else SumCharges(ds[..|ds| - 1]) + Charge(true, ds[|ds| - 1])
  }

  lemma {:induction false} SumChargesAppend(xs: seq<Data>, ys: seq<Data>)
    ensures SumCharges(xs + ys) == SumCharges(xs) + SumCharges(ys)
    decreases |ys|
  {
    if ys == [] {
      assert xs + ys == xs;
    } else {
      assert (xs + ys)[..|xs + ys| - 1] == xs + ys[..|ys| - 1];
      SumChargesAppend(xs, ys[..|ys| - 1]);
    }
  }

  /** The children of an error node charge it for exactly the nodes left when the groups are dissolved. */
  lemma {:induction false} ChildrenCharge(lang: Language, p: nat, ts: seq<Tree>)
    requires forall i :: 0 <= i < |ts| ==> Summarized(lang, ts[i]) && WellGrouped(ts[i])
    ensures Sum(lang, true, p, Datas(ts)).errorCost == SumCharges(Ungrouped(ts))
    decreases ts
  {
    if ts != [] {
      var n := |ts| - 1;
      var last := ts[n];
      assert Datas(ts)[..n] == Datas(ts[..n]);
      ChildrenCharge(lang, p, ts[..n]);
      if last.data.symbol == SYM_ERROR_REPEAT {
        GroupCost(lang, last);
        SumChargesAppend(Ungrouped(ts[..n]), Ungrouped(last.children));
      } else {
        SumChargesAppend(Ungrouped(ts[..n]), [last.data]);
        assert [last.data][..0] == [];
      }
    }
  }

  /**
   * The cost of an error node with children, or of an `_ERROR` group, is that of its own extent
   * plus what its ungrouped contents charge, for any nesting of groups.
   */
  lemma {:induction false} GroupCost(lang: Language, t: Tree)
    requires Summarized(lang, t) && WellGrouped(t) && ChargesExtent(t.data.symbol) && t.children != []
    ensures t.data.errorCost == ExtentCost(t.data.size) + SumCharges(Ungrouped(t.children))
    decreases t
  {
    ChildrenCharge(lang, t.data.productionId, t.children);
    KeptFields(t.data, Summarize(lang, t.data, Datas(t.children)));
  }

  /** The extent covered by a list of nodes. */
  function Extent(ds: seq<Data>): Length {
    if ds == [] then ZERO else Add(Extent(ds[..|ds| - 1]), ds[|ds| - 1].Total())
  }

  lemma {:induction false} SumCoversExtent(lang: Language, p: nat, ds: seq<Data>)
    ensures Sum(lang, true, p, ds).total == Extent(ds)
    decreases |ds|
  {
    if ds != [] {
      SumCoversExtent(lang, p, ds[..|ds| - 1]);
    }
  }

  lemma ExtentAppend(lang: Language, xs: seq<Data>, ys: seq<Data>)
    ensures Extent(xs + ys) == Add(Extent(xs), Extent(ys))
  {
    SumAppend(lang, true, 0, 0, xs, ys);
    SumCoversExtent(lang, 0, xs + ys);
    SumCoversExtent(lang, 0, xs);
    SumCoversExtent(lang, 0, ys);
  }

  lemma {:induction false} ChildrenExtent(lang: Language, ts: seq<Tree>)
    requires ts != [] && forall i :: 0 <= i < |ts| ==> Summarized(lang, ts[i]) && WellGrouped(ts[i])
    ensures Extent(Datas(ts)) == Extent(Ungrouped(ts))
    ensures Ungrouped(ts) != [] && Ungrouped(ts)[0].padding == ts[0].data.padding
    decreases ts
  {
    var n := |ts| - 1;
    var last := ts[n];
    var tail := if last.data.symbol == SYM_ERROR_REPEAT then Ungrouped(last.children) else [last.data];
    assert Datas(ts)[..n] == Datas(ts[..n]);
    if n > 0 {
      ChildrenExtent(lang, ts[..n]);
    }
    if last.data.symbol == SYM_ERROR_REPEAT {
      GroupExtent(lang, last);
    } else {
      assert [last.data][..0] == [];
      LengthMonoid(last.data.Total(), ZERO, ZERO);
    }
    ExtentAppend(lang, Ungrouped(ts[..n]), tail);
  }

  /** An error node covers exactly its ungrouped contents. */
  lemma {:induction false} GroupExtent(lang: Language, t: Tree)
    requires Summarized(lang, t) && WellGrouped(t) && t.children != []
    ensures Ungrouped(t.children) != [] && t.data.padding == Ungrouped(t.children)[0].padding
    ensures t.data.Total() == Extent(Ungrouped(t.children))
    decreases t
  {
    var ds := Datas(t.children);
    ChildrenExtent(lang, t.children);
    SumTotals(lang, true, t.data.productionId, ds);
    SumCoversExtent(lang, t.data.productionId, ds);
    KeptFields(t.data, Summarize(lang, t.data, ds));
  }

  /** The refund of a group's extent never exceeds what the group costs. */
  lemma RefundIsCovered(lang: Language, t: Tree, i: nat)
    requires Summarized(lang, t) && WellGrouped(t) && i < |t.children|
    ensures var d := t.children[i].data;
            d.symbol == SYM_ERROR_REPEAT ==> d.ErrorCost() >= ExtentCost(d.size)
  {
    if t.children[i].data.symbol == SYM_ERROR_REPEAT {
      GroupCost(lang, t.children[i]);
    }
  }

  /** Error nodes over the same ungrouped contents have the same extent and cost the same. */
  lemma GroupingIsNeutral(lang: Language, s: Tree, t: Tree)
    requires Summarized(lang, s) && WellGrouped(s) && ChargesExtent(s.data.symbol) && s.children != []
    requires Summarized(lang, t) && WellGrouped(t) && ChargesExtent(t.data.symbol) && t.children != []
    requires Ungrouped(s.children) == Ungrouped(t.children)
    ensures s.data.errorCost == t.data.errorCost
    ensures s.data.padding == t.data.padding && s.data.size == t.data.size
  {
    GroupCost(lang, s);
    GroupCost(lang, t);
    GroupExtent(lang, s);
    GroupExtent(lang, t);
    LengthMonoid(s.data.padding, s.data.size, ZERO);
    LengthMonoid(t.data.padding, t.data.size, ZERO);
  }
}
