/** How far an edit marks nodes whose tokens depend on their column, once it has shifted columns. */
module EditColumns {
  import opened Lengths
  import opened Options
  import opened Subtrees
  import opened SubtreePools
  import opened Edits
  import opened EditMarks
  import opened EditTexts

  /** Where the `i`th child starts, from the start of its parent. */
  function Left(ds: seq<Data>, i: nat): Length
    requires i <= |ds|
  {
    if i == 0 then ZERO else Add(Left(ds, i - 1), ds[i - 1].Total())
  }

  lemma {:induction false} RowsGrow(ds: seq<Data>, i: nat, j: nat)
    requires i <= j <= |ds|
    ensures Left(ds, i).extent.row <= Left(ds, j).extent.row && Left(ds, i).bytes <= Left(ds, j).bytes
  {
    if i < j {
      RowsGrow(ds, i, j - 1);
    }
  }

  /** The child starts where the replaced text is over. */
  predicate Beyond(ds: seq<Data>, i: nat, e: Edit)
    requires i < |ds|
  {
    var left := Left(ds, i).bytes;
    left > e.oldEnd.bytes || (left == e.oldEnd.bytes && ds[i].Total().bytes > 0 && i > 0)
  }

  /** A child beyond the replaced text that depends on no column, below the first row if its parent does. */
  predicate Indifferent(d: Data, ds: seq<Data>, i: nat, e: Edit)
    requires i < |ds|
  {
    && Beyond(ds, i, e) && !ds[i].DependsOnColumn()
    && (!d.DependsOnColumn() || Left(ds, i).extent.row > EditData(d, e).padding.extent.row)
  }

  /** The columns after the edit are others, up to the end of the row that it ends on. */
  predicate ShiftsAt(ds: seq<Data>, k: nat, e: Edit)
    requires k < |ds|
  {
    e.newEnd.extent.column != e.oldEnd.extent.column && Left(ds, k).extent.row <= e.oldEnd.extent.row
  }

  /** Whether the children before it let a shifted child that depends on columns, or one on the first row, be reached. */
  lemma {:induction false} EditReaches(d: Data, ds: seq<Data>, i: nat, e: Edit, now: Edit, k: nat)
    requires i <= k < |ds| && e.Ordered() && now.start == e.start && now.oldEnd == e.oldEnd && Beyond(ds, k, e)
    ensures var es := ChildEdits(ds, i, Left(ds, i), now, ColumnsOf(d, e));
            && (es[k - i].Some? ==> es[k - i].value.start.bytes == 0)
            && (ds[k].DependsOnColumn() && ShiftsAt(ds, k, e) ==>
                  (es[k - i].Some? <==> forall j :: i <= j < k ==> !Indifferent(d, ds, j, e)))
            && (d.DependsOnColumn() && Left(ds, k).extent.row <= EditData(d, e).padding.extent.row ==> es[k - i].Some?)
    decreases k - i
  {
    hide PointAdd, PointSub, ChildEdits, Reshape, CanInline;
    var left, c := Left(ds, i), ColumnsOf(d, e);
    var right := Add(left, ds[i].Total());
    FirstEdit(ds, i, left, now, c, k);
    RowsGrow(ds, i, k);
    PaddingRow(d, e);
    if i < k {
      assert Left(ds, i + 1) == right;
      EditReaches(d, ds, i + 1, e, if right.bytes + ds[i].lookaheadBytes >= now.start.bytes && Touches(right, now)
                                   then now.(newEnd := now.start) else now, k);
      if ds[k].DependsOnColumn() && ShiftsAt(ds, k, e) {
        assert Indifferent(d, ds, i, e) <==>
                 right.bytes + ds[i].lookaheadBytes >= now.start.bytes && StopsBefore(ds[i], i, left, now.oldEnd, c);
      }
    }
  }

  lemma PaddingRow(d: Data, e: Edit)
    ensures ColumnsOf(d, e).paddingRow == EditData(d, e).padding.extent.row
  {
    hide Reshape, CanInline;
  }

  /** There is such a child, it has no mark yet, and there is something to it. */
  predicate MayBeMarked(t: Tree, k: nat) {
    k < |t.children| && !t.children[k].data.hasChanges && !IsBlank(t.children[k].data)
  }

  /** A child that is given an edit from its start on is marked, unless there is nothing to it. */
  lemma ReachedIsMarked(t: Tree, e: Edit, k: nat)
    requires !Skips(t.data, e) && e.Ordered() && MayBeMarked(t, k)
    requires var es := EditsOf(t.data, Datas(t.children), e); es[k].Some? ==> es[k].value.start.bytes == 0
    ensures |EditTree(t, e).children| == |t.children|
    ensures EditTree(t, e).children[k].data.hasChanges <==> EditsOf(t.data, Datas(t.children), e)[k].Some?
  {
    hide EditsOf, EditTree;
    EditedChild(t, e, k);
    var es := EditsOf(t.data, Datas(t.children), e);
    if es[k].Some? {
      EditedIsMarked(t.children[k], es[k].value);
    }
  }

  lemma EditedIsMarked(t: Tree, e: Edit)
    ensures !Skips(t.data, e) ==> EditTree(t, e).data.hasChanges
  {
    hide EditsOf, Skips, Reshape, CanInline;
  }

  /**
   * A child that depends on its column, which the edit has shifted, is marked exactly when no child before
   * it is indifferent to columns.
   */
  lemma ColumnsAreMarked(t: Tree, e: Edit, k: nat)
    requires !Skips(t.data, e) && e.Ordered() && MayBeMarked(t, k)
    requires var ds := Datas(t.children); ds[k].DependsOnColumn() && Beyond(ds, k, e) && ShiftsAt(ds, k, e)
    ensures |EditTree(t, e).children| == |t.children|
    ensures EditTree(t, e).children[k].data.hasChanges
       <==> forall i :: 0 <= i < k ==> !Indifferent(t.data, Datas(t.children), i, e)
  {
    hide EditTree, Skips, Indifferent, Beyond, ShiftsAt, ColumnsOf;
    EditReaches(t.data, Datas(t.children), 0, e, e, k);
    ReachedIsMarked(t, e, k);
  }

  /** In a node that depends on columns, all of the first row beyond the replaced text is marked. */
  lemma FirstRowIsMarked(t: Tree, e: Edit, k: nat)
    requires !Skips(t.data, e) && e.Ordered() && MayBeMarked(t, k)
    requires var ds := Datas(t.children);
             && t.data.DependsOnColumn() && Beyond(ds, k, e)
             && Left(ds, k).extent.row <= EditData(t.data, e).padding.extent.row
    ensures |EditTree(t, e).children| == |t.children| && EditTree(t, e).children[k].data.hasChanges
  {
    hide EditTree, Skips, Indifferent, Beyond, ShiftsAt, ColumnsOf;
    EditReaches(t.data, Datas(t.children), 0, e, e, k);
    ReachedIsMarked(t, e, k);
  }

  // ----- a child that is left behind -----------------------------------------------------------

  const TWO_ROWS: Tree := Tree(PlainData(0, 0).(size := Length(4, Point(1, 2))), [])
  const INDENTED: Tree := Tree(PlainData(3, 0).(dependsOnColumn := true), [])
  const INSERTED: Edit := Edit(Length(3, Point(1, 1)), Length(3, Point(1, 1)), Length(4, Point(1, 2)))

  function ThreeOnTwoRows(lang: Language): Tree { Over(lang, [TWO_ROWS, Leaf(3), INDENTED]) }

  lemma OverPadding(lang: Language, ts: seq<Tree>)
    requires ts != []
    ensures Over(lang, ts).data.padding == ts[0].data.padding
  {
    hide Sum, SizeOf, AnyOnFirstRow;
  }

  lemma SumOfThree(a: Data, b: Data, c: Data)
    ensures SumBytes([a, b, c]) == a.Total().bytes + b.Total().bytes + c.Total().bytes
  {
    assert [a, b, c][1..] == [b, c] && [b, c][1..] == [c] && [c][1..] == [];
    assert SumBytes([c]) == c.Total().bytes && SumBytes([b, c]) == b.Total().bytes + SumBytes([c]);
  }

  lemma WithinTen(d: Data)
    requires d.padding == ZERO && d.Total().bytes == 10
    ensures !Skips(d, INSERTED) && EditData(d, INSERTED).padding == ZERO
  {
  }

  lemma FirstGrows()
    ensures EditTree(TWO_ROWS, INSERTED).data.Total() == Length(5, Point(1, 3))
  {
    hide PlainData, EditTree;
    PlainIs(0, 0);
    TwoRowsGrow(TWO_ROWS.data, INSERTED);
    EditedData(TWO_ROWS, INSERTED);
  }

  lemma TwoRowsGrow(d: Data, e: Edit)
    requires e == INSERTED && !d.inline && d.padding == ZERO && d.size == Length(4, Point(1, 2)) && d.lookaheadBytes == 0
    ensures !Skips(d, e) && EditData(d, e).Total() == Length(5, Point(1, 3))
  {
    hide Resized;
    PlainResized(d, ZERO, Length(5, Point(1, 3)));
  }

  lemma PlainIs(bytes: nat, childCount: nat)
    ensures var d := PlainData(bytes, childCount);
            && d.padding == ZERO && d.size == Length(bytes, Point(0, bytes)) && !d.inline && d.lookaheadBytes == 0
            && !d.hasChanges && !d.dependsOnColumn
  {
  }

  lemma PlainResized(d: Data, padding: Length, size: Length)
    requires !d.inline
    ensures Resized(d, padding, size).Total() == Add(padding, size)
  {
    hide PointAdd;
  }

  /** A first child that the edit starts in takes it in as it is. */
  lemma FirstTakes(d: Data, ds: seq<Data>, e: Edit)
    requires ds != [] && e.Ordered() && 0 < e.start.bytes < ds[0].Total().bytes
    ensures EditsOf(d, ds, e)[0] == Some(e)
  {
    hide ChildEdits, ColumnsOf;
    FirstEdit(ds, 0, ZERO, e, ColumnsOf(d, e), 0);
    LengthMonoid(e.start, e.start, e.start);
  }

  lemma SecondAndThird(ds: seq<Data>)
    requires |ds| >= 2
    ensures Left(ds, 1) == ds[0].Total() && Left(ds, 2) == Add(ds[0].Total(), ds[1].Total())
  {
    assert Left(ds, 0) == ZERO && Left(ds, 1) == Add(ZERO, ds[0].Total());
    LengthMonoid(ds[0].Total(), ds[1].Total(), ZERO);
  }

  /** Where the three children start. */
  lemma ThreeStarts(t: Tree)
    requires t.children == [TWO_ROWS, Leaf(3), INDENTED] && LaidOut(t)
    ensures Left(Datas(t.children), 1) == Length(4, Point(1, 2)) && Left(Datas(t.children), 2) == Length(7, Point(1, 5))
    ensures t.data.Total().bytes == 10
  {
    hide SumBytes, PlainData, LaidOut, Left;
    var ds := Datas(t.children);
    assert ds == [TWO_ROWS.data, Leaf(3).data, INDENTED.data];
    TheThree();
    ChildrenFill(t);
    SumOfThree(ds[0], ds[1], ds[2]);
    SecondAndThird(ds);
  }

  /** After the edit the third child starts after the first one as it is now and the second one as it was. */
  lemma ThirdStarts(u: Tree)
    requires |u.children| == 3 && u.children[0].data.Total() == Length(5, Point(1, 3)) && u.children[1] == Leaf(3)
    ensures Left(Datas(u.children), 2) == Length(8, Point(1, 6))
  {
    hide PlainData, Left;
    TheThree();
    SecondAndThird(Datas(u.children));
  }

  lemma IndifferentStops(d: Data, ds: seq<Data>, i: nat, e: Edit)
    requires i < |ds| && Indifferent(d, ds, i, e)
    ensures StopsBefore(ds[i], i, Left(ds, i), e.oldEnd, ColumnsOf(d, e))
  {
    hide ColumnsOf, EditData, Left;
    PaddingRow(d, e);
    assert ColumnsOf(d, e).parentDepends == d.DependsOnColumn() by { DependsIs(d, e); }
  }

  lemma DependsIs(d: Data, e: Edit)
    ensures ColumnsOf(d, e).parentDepends == d.DependsOnColumn()
  {
    hide Reshape;
  }

  /** An indifferent second child stops an edit inside of the first. */
  lemma SecondStops(t: Tree, e: Edit)
    requires |t.children| > 1 && !Skips(t.data, e) && e.Ordered() && 0 < e.start.bytes < t.children[0].data.Total().bytes
    requires Indifferent(t.data, Datas(t.children), 1, e)
    ensures var u := EditTree(t, e);
            |u.children| == |t.children| && u.children[0] == EditTree(t.children[0], e) && u.children[1] == t.children[1]
  {
    hide EditTree, EditData, Skips, ChildEdits, ColumnsOf, Indifferent, StopsBefore, ChildEdit;
    var ds, c := Datas(t.children), ColumnsOf(t.data, e);
    IndifferentStops(t.data, ds, 1, e);
    FirstTakes(t.data, ds, e);
    assert Left(ds, 0) == ZERO && Left(ds, 1) == Add(ZERO, ds[0].Total());
    FirstEdit(ds, 0, ZERO, e, c, 1);
    FirstEdit(ds, 1, Left(ds, 1), e, c, 1);
    FirstEdit(ds, 1, Left(ds, 1), e.(newEnd := e.start), c, 1);
    EditedChild(t, e, 0);
    EditedChild(t, e, 1);
  }

  /**
   * One byte is inserted on the second row, before a node that depends on no column and one that does.
   * The latter moves from column 5 to column 6 and is not marked.
   */
  lemma AColumnLeftBehind(lang: Language)
    ensures var t := ThreeOnTwoRows(lang);
            && Summarized(lang, t) && Unmarked(t) && INSERTED.Ordered() && |t.children| == 3
            && t.children[2].data.DependsOnColumn() && Left(Datas(t.children), 2).extent == Point(1, 5)
    ensures var u := EditTree(ThreeOnTwoRows(lang), INSERTED);
            |u.children| == 3 && Left(Datas(u.children), 2).extent == Point(1, 6) && !u.children[2].data.hasChanges
  {
    hide Over, Summarized, EditTree, EditsOf, Left, LaidOut, LooksAheadEnough, Unmarked;
    var ts := [TWO_ROWS, Leaf(3), INDENTED];
    var t := ThreeOnTwoRows(lang);
    LeavesAreFresh(lang);
    OverIsSummarized(lang, ts);
    OverHas(lang, ts);
    OverPadding(lang, ts);
    SummarizedIsLaidOut(lang, t);
    ThreeStarts(t);
    FirstGrows();
    WithinTen(t.data);
    ThirdIsPassed(t);
    ThirdStarts(EditTree(t, INSERTED));
  }

  lemma ThreeFacts(d: Data, ds: seq<Data>)
    requires ds == [TWO_ROWS.data, Leaf(3).data, INDENTED.data] && EditData(d, INSERTED).padding == ZERO
    requires Left(ds, 1) == Length(4, Point(1, 2)) && Left(ds, 2) == Length(7, Point(1, 5))
    ensures INSERTED.Ordered() && 0 < INSERTED.start.bytes < ds[0].Total().bytes && Indifferent(d, ds, 1, INSERTED)
    ensures ds[2].DependsOnColumn() && Beyond(ds, 2, INSERTED) && ShiftsAt(ds, 2, INSERTED)
    ensures !ds[2].hasChanges && !IsBlank(ds[2])
  {
    hide EditData, Left, PlainData;
    TheThree();
  }

  lemma TheThree()
    ensures TWO_ROWS.data.Total() == Length(4, Point(1, 2))
    ensures Leaf(3).data.Total() == INDENTED.data.Total() == Length(3, Point(0, 3))
    ensures !Leaf(3).data.DependsOnColumn() && INDENTED.data.DependsOnColumn() && !INDENTED.data.hasChanges
  {
    hide PlainData, Leaf;
    PlainLength(TWO_ROWS.data, 4, Point(1, 2)) by { PlainIs(0, 0); }
    TheSecond();
    TheThird();
  }

  lemma PlainLength(d: Data, bytes: nat, extent: Point)
    requires d.padding == ZERO && d.size == Length(bytes, extent)
    ensures d.Total() == Length(bytes, extent)
  {
  }

  lemma TheSecond()
    ensures Leaf(3).data.Total() == Length(3, Point(0, 3)) && !Leaf(3).data.DependsOnColumn()
  {
    hide PlainData;
    PlainIs(3, 0);
    PlainLength(PlainData(3, 0), 3, Point(0, 3));
  }

  lemma TheThird()
    ensures INDENTED.data.Total() == Length(3, Point(0, 3)) && INDENTED.data.DependsOnColumn() && !INDENTED.data.hasChanges
  {
    hide PlainData;
    PlainIs(3, 0);
    PlainLength(INDENTED.data, 3, Point(0, 3));
  }

  lemma ThirdIsPassed(t: Tree)
    requires t.children == [TWO_ROWS, Leaf(3), INDENTED] && !Skips(t.data, INSERTED) && EditData(t.data, INSERTED).padding == ZERO
    requires Left(Datas(t.children), 1) == Length(4, Point(1, 2)) && Left(Datas(t.children), 2) == Length(7, Point(1, 5))
    ensures var u := EditTree(t, INSERTED);
            && |u.children| == 3 && u.children[0] == EditTree(TWO_ROWS, INSERTED) && u.children[1] == Leaf(3)
            && !u.children[2].data.hasChanges
  {
    hide EditTree, EditData, Skips, Left, EditsOf, Indifferent, Beyond, ShiftsAt, PlainData;
    ThreeFacts(t.data, Datas(t.children));
    SecondStops(t, INSERTED);
    ColumnsAreMarked(t, INSERTED, 2);
  }

  lemma LeavesAreFresh(lang: Language)
    ensures forall u :: u in [TWO_ROWS, Leaf(3), INDENTED] ==> Summarized(lang, u) && Unmarked(u)
  {
  }
}
