/** Applying a text edit to a tree, as a function on trees, and what it keeps. */
module Edits {
  import opened Options
  import opened Lengths
  import opened Subtrees
  import opened SubtreePools

  datatype Edit = Edit(start: Length, oldEnd: Length, newEnd: Length) {
    predicate IsPureInsertion() { oldEnd.bytes == start.bytes }
    predicate IsNoop() { IsPureInsertion() && newEnd.bytes == start.bytes }
    predicate Ordered() { start.bytes <= oldEnd.bytes && start.bytes <= newEnd.bytes }
  }

  // ----- one node ----------------------------------------------------------------------------

  /** The edit lies beyond the node and everything the node's lexer looked at. */
  predicate Skips(d: Data, e: Edit) {
    var end := d.Total().bytes + d.lookaheadBytes;
    e.start.bytes > end || (e.IsNoop() && e.start.bytes == end)
  }

  /** The padding and size of a node after an edit given in the node's own coordinates. */
  function Reshape(d: Data, e: Edit): (Length, Length) {
    var total := d.Total();
    if e.oldEnd.bytes <= d.padding.bytes then
      (Add(e.newEnd, Sub(d.padding, e.oldEnd)), d.size)
    else if e.start.bytes < d.padding.bytes then
      (e.newEnd, SaturatingSub(d.size, Sub(e.oldEnd, d.padding)))
    else if e.start.bytes < total.bytes || (e.start.bytes == total.bytes && e.IsPureInsertion()) then
      (d.padding, Add(Sub(e.newEnd, d.padding), SaturatingSub(total, e.oldEnd)))
    else
      (d.padding, d.size)
  }

  /** A node that has been given a new padding and size: inline leaves move to a cell if they must. */
  function Resized(d: Data, padding: Length, size: Length): Data {
    if !d.inline then d.(padding := padding, size := size, hasChanges := true)
    else if CanInline(padding, size, d.lookaheadBytes) then
      d.(padding := padding, size := Length(size.bytes, Point(0, size.bytes)), hasChanges := true)
    else
      d.(inline := false, padding := padding, size := size, errorCost := 0, hasChanges := true,
         hasExternalTokens := false, dependsOnColumn := false)
  }

  function EditData(d: Data, e: Edit): Data {
    var (padding, size) := Reshape(d, e);
    Resized(d, padding, size)
  }

  // ----- how an edit is passed on to the children ---------------------------------------------

  /** What a node tells its children about columns: how far they must keep looking. */
  datatype Columns = Columns(parentDepends: bool, shifted: bool, paddingRow: nat)

  function ColumnsOf(d: Data, e: Edit): Columns {
    Columns(d.DependsOnColumn(), e.newEnd.extent.column != e.oldEnd.extent.column, Reshape(d, e).0.extent.row)
  }

  predicate StopsBefore(d: Data, i: nat, left: Length, oldEnd: Length, c: Columns) {
    && (left.bytes > oldEnd.bytes || (left.bytes == oldEnd.bytes && d.Total().bytes > 0 && i > 0))
    && (!c.parentDepends || left.extent.row > c.paddingRow)
    && (!d.DependsOnColumn() || !c.shifted || left.extent.row > oldEnd.extent.row)
  }

  /** The child takes the inserted text, if no earlier one has. */
  predicate Touches(right: Length, e: Edit) {
    right.bytes > e.start.bytes || (right.bytes == e.start.bytes && e.IsPureInsertion())
  }

  /** The edit in the coordinates of a child that spans from `left` to `right`. */
  function ChildEdit(left: Length, right: Length, e: Edit): Edit {
    var start := SaturatingSub(e.start, left);
    if Touches(right, e) then Edit(start, SaturatingSub(e.oldEnd, left), SaturatingSub(e.newEnd, left))
    else Edit(start, start, start)
  }

  function NoEdits(n: nat): (es: seq<Option<Edit>>)
    ensures |es| == n && forall i :: 0 <= i < n ==> es[i] == None
  {
    seq(n, _ => None)
  }

  /** The edits of the children from the `i`th on, the first of them starting at `left`. */
  function ChildEdits(ds: seq<Data>, i: nat, left: Length, e: Edit, c: Columns): (es: seq<Option<Edit>>)
    requires i <= |ds|
    ensures |es| == |ds| - i
    decreases |ds| - i
  {
    if i == |ds| then []
    else
      var right := Add(left, ds[i].Total());
      if right.bytes + ds[i].lookaheadBytes < e.start.bytes then
        [None] + ChildEdits(ds, i + 1, right, e, c)
      else if StopsBefore(ds[i], i, left, e.oldEnd, c) then
        NoEdits(|ds| - i)
      else
        [Some(ChildEdit(left, right, e))] +
        ChildEdits(ds, i + 1, right, if Touches(right, e) then e.(newEnd := e.start) else e, c)
  }

  function EditsOf(d: Data, ds: seq<Data>, e: Edit): (es: seq<Option<Edit>>)
    ensures |es| == |ds|
  {
    ChildEdits(ds, 0, ZERO, e, ColumnsOf(d, e))
  }

  /** The whole tree after an edit. */
  function EditTree(t: Tree, e: Edit): Tree {
    if Skips(t.data, e) then t
    else
      var es := EditsOf(t.data, Datas(t.children), e);
      Tree(EditData(t.data, e), seq(|t.children|, i requires 0 <= i < |t.children| => EditChild(t.children[i], es[i])))
  }

  function EditChild(t: Tree, e: Option<Edit>): Tree {
    match e
    case None => t
    case Some(ce) => EditTree(t, ce)
  }

  // ----- byte layout --------------------------------------------------------------------------

  function SumBytes(ds: seq<Data>): nat {
    if ds == [] then 0 else ds[0].Total().bytes + SumBytes(ds[1..])
  }

  /** Every inner node starts with its first child's padding and is as long as its children together. */
  predicate LaidOut(t: Tree) {
    && (t.children != [] ==>
          && t.data.padding.bytes == t.children[0].data.padding.bytes
          && t.data.Total().bytes == SumBytes(Datas(t.children)))
    && forall i :: 0 <= i < |t.children| ==> LaidOut(t.children[i])
  }

  /** The length in bytes of something `total` bytes long after an edit. */
  function EditedTotal(total: nat, e: Edit): nat {
    if e.start.bytes < total || (e.start.bytes == total && e.IsPureInsertion())
    then e.newEnd.bytes + if total > e.oldEnd.bytes then total - e.oldEnd.bytes else 0
    else total
  }

  /** The padding in bytes after an edit. */
  function EditedPadding(padding: nat, e: Edit): nat {
    if e.oldEnd.bytes <= padding then e.newEnd.bytes + (padding - e.oldEnd.bytes)
    else if e.start.bytes < padding then e.newEnd.bytes
    else padding
  }

  lemma EditDataBytes(d: Data, e: Edit)
    requires e.Ordered()
    ensures EditData(d, e).Total().bytes == EditedTotal(d.Total().bytes, e)
    ensures EditData(d, e).padding.bytes == EditedPadding(d.padding.bytes, e)
  {
    hide Reshape, EditedPadding, EditedTotal, CanInline, PointAdd;
    ReshapedPadding(d, e);
    ReshapedTotal(d, e);
  }

  lemma ReshapedPadding(d: Data, e: Edit)
    requires e.Ordered()
    ensures Reshape(d, e).0.bytes == EditedPadding(d.padding.bytes, e)
  {
    hide PointAdd, PointSub;
  }

  lemma ReshapedTotal(d: Data, e: Edit)
    requires e.Ordered()
    ensures Reshape(d, e).0.bytes + Reshape(d, e).1.bytes == EditedTotal(d.Total().bytes, e)
  {
    hide PointAdd, PointSub;
  }

  lemma SkippedKeepsBytes(d: Data, e: Edit)
    requires Skips(d, e) && e.Ordered()
    ensures EditedTotal(d.Total().bytes, e) == d.Total().bytes
    ensures EditedPadding(d.padding.bytes, e) == d.padding.bytes
  {
  }

  /** The length of a child after the edit it is given, if any. */
  function NewTotal(d: Data, e: Option<Edit>): nat {
    match e
    case None => d.Total().bytes
    case Some(ce) => EditedTotal(d.Total().bytes, ce)
  }

  function SumNewTotals(ds: seq<Data>, es: seq<Option<Edit>>): nat
    requires |ds| == |es|
  {
    if ds == [] then 0 else NewTotal(ds[0], es[0]) + SumNewTotals(ds[1..], es[1..])
  }

  lemma {:induction false} UneditedTotals(ds: seq<Data>)
    ensures SumNewTotals(ds, NoEdits(|ds|)) == SumBytes(ds)
  {
    if ds != [] {
      assert NoEdits(|ds|)[1..] == NoEdits(|ds[1..]|);
      UneditedTotals(ds[1..]);
    }
  }

  lemma NoTotals()
    ensures SumBytes([]) == 0 && SumNewTotals([], []) == 0
  {
  }

  /** What the first of some children adds to their length, before and after the edit. */
  lemma FirstTotals(ds: seq<Data>, i: nat, left: Length, e: Edit, c: Columns)
    requires i < |ds|
    ensures SumBytes(ds[i..]) == ds[i].Total().bytes + SumBytes(ds[i + 1..])
    ensures var right, after := Add(left, ds[i].Total()), SumNewTotals(ds[i..], ChildEdits(ds, i, left, e, c));
            if right.bytes + ds[i].lookaheadBytes < e.start.bytes then
              after == ds[i].Total().bytes + SumNewTotals(ds[i + 1..], ChildEdits(ds, i + 1, right, e, c))
            else if StopsBefore(ds[i], i, left, e.oldEnd, c) then
              after == SumBytes(ds[i..])
            else
              after == EditedTotal(ds[i].Total().bytes, ChildEdit(left, right, e))
                     + SumNewTotals(ds[i + 1..], ChildEdits(ds, i + 1, right, if Touches(right, e) then e.(newEnd := e.start) else e, c))
  {
    hide PointAdd, PointSub, StopsBefore, EditedTotal, ChildEdit;
    assert ds[i..][1..] == ds[i + 1..];
    UneditedTotals(ds[i..]);
  }

  /**
   * From the child that starts at `left` on, with the inserted text already given away: what
   * lies before the end of the replaced text is cut off.
   */
  lemma {:induction false} TotalsAfterInsertion(ds: seq<Data>, i: nat, left: Length, e: Edit, c: Columns)
    requires i <= |ds| && e.Ordered() && e.newEnd.bytes == e.start.bytes && e.start.bytes <= left.bytes
    ensures var total := left.bytes + SumBytes(ds[i..]);
            SumNewTotals(ds[i..], ChildEdits(ds, i, left, e, c))
            == total - (if e.oldEnd.bytes <= left.bytes then left.bytes
                        else if e.oldEnd.bytes <= total then e.oldEnd.bytes else total)
    decreases |ds| - i
  {
    hide PointAdd, PointSub, StopsBefore, ChildEdits, SumNewTotals, SumBytes;
    NoTotals();
    if i == |ds| {
      assert ds[i..] == [] && ChildEdits(ds, i, left, e, c) == [];
    } else {
      var right := Add(left, ds[i].Total());
      FirstTotals(ds, i, left, e, c);
      if StopsBefore(ds[i], i, left, e.oldEnd, c) {
        StopsPastOldEnd(ds[i], i, left, e.oldEnd, c);
      } else {
        TotalsAfterInsertion(ds, i + 1, right, if Touches(right, e) then e.(newEnd := e.start) else e, c);
      }
    }
  }

  lemma StopsPastOldEnd(d: Data, i: nat, left: Length, oldEnd: Length, c: Columns)
    requires StopsBefore(d, i, left, oldEnd, c)
    ensures left.bytes >= oldEnd.bytes
    ensures left.bytes == oldEnd.bytes ==> i > 0 && d.Total().bytes > 0
  {
  }

  /** From the child that starts at `left` on, with the inserted text still to be given away. */
  lemma {:induction false} TotalsBeforeInsertion(ds: seq<Data>, i: nat, left: Length, e: Edit, c: Columns)
    requires i <= |ds| && ds != [] && e.Ordered() && left.bytes <= e.start.bytes
    requires i == 0 || (e.IsPureInsertion() ==> left.bytes < e.start.bytes)
    ensures left.bytes + SumNewTotals(ds[i..], ChildEdits(ds, i, left, e, c))
         == EditedTotal(left.bytes + SumBytes(ds[i..]), e)
    decreases |ds| - i
  {
    hide PointAdd, PointSub, StopsBefore, ChildEdits, SumNewTotals, SumBytes;
    NoTotals();
    if i == |ds| {
      assert ds[i..] == [] && ChildEdits(ds, i, left, e, c) == [];
    } else {
      var right := Add(left, ds[i].Total());
      FirstTotals(ds, i, left, e, c);
      if StopsBefore(ds[i], i, left, e.oldEnd, c) {
        StopsPastOldEnd(ds[i], i, left, e.oldEnd, c);
        assert false;
      } else if Touches(right, e) {
        TotalsAfterInsertion(ds, i + 1, right, e.(newEnd := e.start), c);
      } else {
        TotalsBeforeInsertion(ds, i + 1, right, e, c);
      }
    }
  }

  /** The parent and its first child agree on the padding. */
  lemma FirstPadding(ds: seq<Data>, e: Edit, c: Columns)
    requires ds != [] && e.Ordered()
    ensures EditedPadding(ds[0].padding.bytes, e)
         == match ChildEdits(ds, 0, ZERO, e, c)[0]
            case None => ds[0].padding.bytes
            case Some(ce) => EditedPadding(ds[0].padding.bytes, ce)
  {
    hide PointAdd, PointSub;
  }

  /** The children's edits are ordered like the parent's. */
  lemma {:induction false} ChildEditsOrdered(ds: seq<Data>, i: nat, left: Length, e: Edit, c: Columns, k: nat)
    requires i <= |ds| && e.Ordered() && k < |ds| - i
    ensures var ce := ChildEdits(ds, i, left, e, c)[k]; ce.Some? ==> ce.value.Ordered()
    decreases |ds| - i
  {
    hide PointAdd, PointSub, StopsBefore;
    if k > 0 {
      var right := Add(left, ds[i].Total());
      ChildEditsOrdered(ds, i + 1, right, e, c, k - 1);
      ChildEditsOrdered(ds, i + 1, right, e.(newEnd := e.start), c, k - 1);
    }
  }

  lemma {:induction false} SumOfNewTotals(ds: seq<Data>, es: seq<Option<Edit>>, news: seq<Data>)
    requires |ds| == |es| == |news|
    requires forall i :: 0 <= i < |ds| ==> news[i].Total().bytes == NewTotal(ds[i], es[i])
    ensures SumBytes(news) == SumNewTotals(ds, es)
  {
    if ds != [] {
      SumOfNewTotals(ds[1..], es[1..], news[1..]);
    }
  }

  /**
   * Editing keeps the byte layout at every node; the tree's total becomes the end of the new
   * text plus what followed the old, if the edit touches it at all, and so for the padding.
   */
  lemma {:induction false} EditKeepsLayout(t: Tree, e: Edit)
    requires LaidOut(t) && e.Ordered()
    ensures LaidOut(EditTree(t, e))
    ensures EditTree(t, e).data.Total().bytes == EditedTotal(t.data.Total().bytes, e)
    ensures EditTree(t, e).data.padding.bytes == EditedPadding(t.data.padding.bytes, e)
    decreases t
  {
    hide PointAdd, PointSub, StopsBefore, Resized, Reshape, EditedTotal, EditedPadding;
    if Skips(t.data, e) {
      SkippedKeepsBytes(t.data, e);
    } else {
      var ds, t' := Datas(t.children), EditTree(t, e);
      var es := EditsOf(t.data, ds, e);
      EditDataBytes(t.data, e);
      forall i | 0 <= i < |ds|
        ensures LaidOut(t'.children[i]) && t'.children[i].data.Total().bytes == NewTotal(ds[i], es[i])
        ensures t'.children[i].data.padding.bytes
             == match es[i] case None => ds[i].padding.bytes case Some(ce) => EditedPadding(ds[i].padding.bytes, ce)
      {
        assert LaidOut(t.children[i]) && t'.children[i] == EditChild(t.children[i], es[i]);
        ChildEditsOrdered(ds, 0, ZERO, e, ColumnsOf(t.data, e), i);
        if es[i].Some? {
          EditKeepsLayout(t.children[i], es[i].value);
        }
      }
      if ds != [] {
        SumOfNewTotals(ds, es, Datas(t'.children));
        TotalsBeforeInsertion(ds, 0, ZERO, e, ColumnsOf(t.data, e));
        assert ds[0..] == ds;
        FirstPadding(ds, e, ColumnsOf(t.data, e));
      }
    }
  }

  /** How much text a child's edit inserts. */
  function Inserted(e: Option<Edit>): int {
    match e
    case None => 0
    case Some(ce) => ce.newEnd.bytes - ce.start.bytes
  }

  lemma {:induction false} NothingLeftToInsert(ds: seq<Data>, i: nat, left: Length, e: Edit, c: Columns)
    requires i <= |ds| && e.newEnd.bytes == e.start.bytes
    ensures forall k :: 0 <= k < |ds| - i ==> Inserted(ChildEdits(ds, i, left, e, c)[k]) == 0
    decreases |ds| - i
  {
    hide PointAdd, PointSub, StopsBefore;
    if i < |ds| {
      NothingLeftToInsert(ds, i + 1, Add(left, ds[i].Total()), e, c);
      NothingLeftToInsert(ds, i + 1, Add(left, ds[i].Total()), e.(newEnd := e.start), c);
    }
  }

  /**
   * The inserted text goes to exactly one child of a node that the edit touches, whole, and to
   * no child of a node that it does not.
   */
  lemma {:induction false} InsertedOnce(ds: seq<Data>, i: nat, left: Length, e: Edit, c: Columns) returns (k: nat)
    requires i <= |ds| && ds != [] && e.Ordered() && left.bytes <= e.start.bytes
    requires i == 0 || (e.IsPureInsertion() ==> left.bytes < e.start.bytes)
    ensures var total, es := left.bytes + SumBytes(ds[i..]), ChildEdits(ds, i, left, e, c);
            && (forall j :: 0 <= j < |es| && j != k ==> Inserted(es[j]) == 0)
            && if e.start.bytes < total || (e.start.bytes == total && e.IsPureInsertion())
               then k < |es| && Inserted(es[k]) == e.newEnd.bytes - e.start.bytes
               else k == |es|
    decreases |ds| - i
  {
    hide PointAdd, PointSub, StopsBefore;
    k := 0;
    if i < |ds| {
      var right := Add(left, ds[i].Total());
      assert ds[i..][1..] == ds[i + 1..];
      if right.bytes + ds[i].lookaheadBytes >= e.start.bytes && StopsBefore(ds[i], i, left, e.oldEnd, c) {
        StopsPastOldEnd(ds[i], i, left, e.oldEnd, c);
        assert false;
      } else if Touches(right, e) {
        NothingLeftToInsert(ds, i + 1, right, e.(newEnd := e.start), c);
      } else {
        k := InsertedOnce(ds, i + 1, right, e, c);
        k := k + 1;
      }
    }
  }
}
