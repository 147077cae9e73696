/** What the change marks left by an edit guarantee to whoever wants to reuse an unmarked node. */
module EditMarks {
  import opened Options
  import opened Lengths
  import opened Subtrees
  import opened Summaries
  import opened SubtreePools
  import opened Edits

  predicate Unmarked(t: Tree) {
    !t.data.hasChanges && forall i :: 0 <= i < |t.children| ==> Unmarked(t.children[i])
  }

  /** The bytes before the `i`th child, counted from the start of its parent. */
  function LeftOf(ds: seq<Data>, i: nat): nat
    requires i <= |ds|
  {
    if i == 0 then 0 else LeftOf(ds, i - 1) + ds[i - 1].Total().bytes
  }

  /** A node has looked ahead at least as far as any node inside it. */
  predicate LooksAheadEnough(t: Tree) {
    && (forall i :: 0 <= i < |t.children| ==>
          LeftOf(Datas(t.children), i) + t.children[i].data.Total().bytes + t.children[i].data.lookaheadBytes
          <= t.data.Total().bytes + t.data.lookaheadBytes)
    && forall i :: 0 <= i < |t.children| ==> LooksAheadEnough(t.children[i])
  }

  /**
   * Placed at byte `at`, the node and all that its lexer looked at end before `start` or begin
   * after `oldEnd`, and so does every node inside it.
   */
  ghost predicate Clear(t: Tree, at: nat, start: nat, oldEnd: nat)
    decreases t
  {
    && (at + t.data.Total().bytes + t.data.lookaheadBytes <= start || at >= oldEnd)
    && forall i :: 0 <= i < |t.children| ==> Clear(t.children[i], at + LeftOf(Datas(t.children), i), start, oldEnd)
  }

  /** An unmarked node of the edited tree is the old node, clear of the edit; only its marked ancestors changed. */
  ghost predicate MarksSound(t: Tree, t': Tree, at: nat, start: nat, oldEnd: nat)
    decreases t
  {
    if !t'.data.hasChanges then t' == t && Clear(t, at, start, oldEnd)
    else
      && |t'.children| == |t.children|
      && forall i :: 0 <= i < |t.children| ==>
           MarksSound(t.children[i], t'.children[i], at + LeftOf(Datas(t.children), i), start, oldEnd)
  }

  /**
   * No empty node that looked at nothing starts strictly inside the replaced text together with
   * its parent. Such a node is passed over although the text around it is gone.
   */
  ghost predicate NoneExposed(t: Tree, at: nat, start: nat, oldEnd: nat)
    decreases t
  {
    forall i :: 0 <= i < |t.children| ==>
      && !ExposedChild(t, i, at, start, oldEnd)
      && NoneExposed(t.children[i], at + LeftOf(Datas(t.children), i), start, oldEnd)
  }

  ghost predicate ExposedChild(t: Tree, i: nat, at: nat, start: nat, oldEnd: nat)
    requires i < |t.children|
  {
    LeftOf(Datas(t.children), i) == 0 && start < at < oldEnd && IsBlank(t.children[i].data)
  }

  predicate IsBlank(d: Data) { d.Total().bytes + d.lookaheadBytes == 0 }

  // ----- how a node's edit relates to the edit of the document --------------------------------

  /** In the coordinates of a node at `at`, `e` is the edit of the text from `start` to `oldEnd`. */
  predicate Faithful(e: Edit, at: nat, start: nat, oldEnd: nat) {
    && e.start.bytes == (if start > at then start - at else 0)
    && e.oldEnd.bytes == (if oldEnd > at then oldEnd - at else 0)
  }

  /** The node ends before the edit, of which it only sees where it starts. */
  predicate Before(e: Edit, at: nat, total: nat, start: nat) {
    at + total <= start && e.start.bytes == e.oldEnd.bytes == e.newEnd.bytes == start - at
  }

  /** The node is empty, strictly inside the replaced text, and sees none of the edit. */
  predicate Swallowed(e: Edit, at: nat, total: nat, start: nat, oldEnd: nat) {
    total == 0 && start < at < oldEnd && e.start.bytes == e.oldEnd.bytes == e.newEnd.bytes == 0
  }

  predicate Relates(e: Edit, at: nat, total: nat, start: nat, oldEnd: nat) {
    Faithful(e, at, start, oldEnd) || Before(e, at, total, start) || Swallowed(e, at, total, start, oldEnd)
  }

  lemma {:induction false} LeftPlusRest(ds: seq<Data>, i: nat)
    requires i <= |ds|
    ensures LeftOf(ds, i) + SumBytes(ds[i..]) == SumBytes(ds)
  {
    if i == 0 {
      assert ds[0..] == ds;
    } else {
      LeftPlusRest(ds, i - 1);
      assert ds[i - 1..][1..] == ds[i..];
    }
  }

  lemma {:induction false} LeftIsMonotone(ds: seq<Data>, i: nat, j: nat)
    requires i <= j <= |ds|
    ensures LeftOf(ds, i) <= LeftOf(ds, j)
  {
    if i < j {
      LeftIsMonotone(ds, i, j - 1);
    }
  }

  /** Where the parent is clear of the edit, so is everything inside it. */
  lemma {:induction false} ClearInside(t: Tree, at: nat, start: nat, oldEnd: nat)
    requires LooksAheadEnough(t)
    requires at + t.data.Total().bytes + t.data.lookaheadBytes <= start || at >= oldEnd
    ensures Clear(t, at, start, oldEnd)
    decreases t
  {
    hide PointAdd, LeftOf;
    forall i | 0 <= i < |t.children| ensures Clear(t.children[i], at + LeftOf(Datas(t.children), i), start, oldEnd) {
      assert LooksAheadEnough(t.children[i]);
      ClearInside(t.children[i], at + LeftOf(Datas(t.children), i), start, oldEnd);
    }
  }

  /** The edit given to a child that is reached while the edit relates to its parent. */
  lemma ChildRelates(d: Data, left: Length, e: Edit, at: nat, whole: nat, start: nat, oldEnd: nat)
    requires Relates(e, at, whole, start, oldEnd) && start <= oldEnd && e.Ordered()
    requires left.bytes + d.Total().bytes <= whole
    ensures var here, total := at + left.bytes, d.Total().bytes;
            var ce := ChildEdit(left, Add(left, d.Total()), e);
            && Relates(ce, here, total, start, oldEnd)
            && (Swallowed(ce, here, total, start, oldEnd) <==> left.bytes == 0 && start < at < oldEnd && total == 0)
  {
    hide PointAdd, PointSub;
  }

  lemma InsertionTaken(e: Edit, at: nat, total: nat, start: nat, oldEnd: nat)
    requires Relates(e, at, total, start, oldEnd) && e.Ordered()
    ensures Relates(e.(newEnd := e.start), at, total, start, oldEnd) && e.(newEnd := e.start).Ordered()
  {
  }

  /**
   * Each child gets an edit that relates to the same piece of text, or none at all because it is
   * clear of it. It sees nothing of an edit that swallows it exactly if it starts with its parent.
   */
  lemma {:induction false} ChildEditsRelate(ds: seq<Data>, i: nat, left: Length, e: Edit, c: Columns, k: nat,
                                           at: nat, start: nat, oldEnd: nat)
    requires i <= k < |ds| && left.bytes == LeftOf(ds, i) && start <= oldEnd && e.Ordered()
    requires Relates(e, at, SumBytes(ds), start, oldEnd)
    ensures var here, total := at + LeftOf(ds, k), ds[k].Total().bytes;
            match ChildEdits(ds, i, left, e, c)[k - i]
            case None => here + total + ds[k].lookaheadBytes <= start || here >= oldEnd
            case Some(ce) =>
              && Relates(ce, here, total, start, oldEnd)
              && (Swallowed(ce, here, total, start, oldEnd)
                  <==> LeftOf(ds, k) == 0 && start < at < oldEnd && total == 0)
    decreases k - i
  {
    hide PointAdd, PointSub, StopsBefore, ChildEdit, ChildEdits, Relates, Swallowed, LeftOf, SumBytes;
    var right, whole := Add(left, ds[i].Total()), SumBytes(ds);
    LeftFits(ds, i);
    FirstEdit(ds, i, left, e, c, k);
    if right.bytes + ds[i].lookaheadBytes >= e.start.bytes && StopsBefore(ds[i], i, left, e.oldEnd, c) {
      LeftIsMonotone(ds, i, k);
      StoppedIsPast(ds[i], i, left, e, c, at, whole, start, oldEnd);
    } else if i < k {
      InsertionTaken(e, at, whole, start, oldEnd);
      ChildEditsRelate(ds, i + 1, right, if Touches(right, e) then e.(newEnd := e.start) else e, c, k, at, start, oldEnd);
    } else if right.bytes + ds[i].lookaheadBytes < e.start.bytes {
      PassedIsBefore(ds[i], left, e, at, whole, start, oldEnd);
    } else {
      ChildRelates(ds[i], left, e, at, whole, start, oldEnd);
    }
  }

  lemma LeftFits(ds: seq<Data>, i: nat)
    requires i < |ds|
    ensures LeftOf(ds, i + 1) == LeftOf(ds, i) + ds[i].Total().bytes <= SumBytes(ds)
  {
    LeftPlusRest(ds, i + 1);
  }

  /** The edit of the first of some children, or of a later one. */
  lemma FirstEdit(ds: seq<Data>, i: nat, left: Length, e: Edit, c: Columns, k: nat)
    requires i <= k < |ds|
    ensures var edit, right := ChildEdits(ds, i, left, e, c)[k - i], Add(left, ds[i].Total());
            if right.bytes + ds[i].lookaheadBytes < e.start.bytes then
              edit == if i == k then None else ChildEdits(ds, i + 1, right, e, c)[k - i - 1]
            else if StopsBefore(ds[i], i, left, e.oldEnd, c) then edit == None
            else edit == if i == k then Some(ChildEdit(left, right, e))
                         else ChildEdits(ds, i + 1, right, if Touches(right, e) then e.(newEnd := e.start) else e, c)[k - i - 1]
  {
    hide PointAdd, PointSub, StopsBefore, ChildEdit;
  }

  lemma StoppedIsPast(d: Data, i: nat, left: Length, e: Edit, c: Columns, at: nat, whole: nat, start: nat, oldEnd: nat)
    requires StopsBefore(d, i, left, e.oldEnd, c) && left.bytes + d.Total().bytes <= whole
    requires Relates(e, at, whole, start, oldEnd)
    ensures at + left.bytes >= oldEnd
  {
    StopsPastOldEnd(d, i, left, e.oldEnd, c);
  }

  lemma PassedIsBefore(d: Data, left: Length, e: Edit, at: nat, whole: nat, start: nat, oldEnd: nat)
    requires left.bytes + d.Total().bytes + d.lookaheadBytes < e.start.bytes
    requires Relates(e, at, whole, start, oldEnd)
    ensures at + left.bytes + d.Total().bytes + d.lookaheadBytes <= start
  {
  }

  /** The children that an edit leaves alone, and the edits of the others. */
  lemma EditedChild(t: Tree, e: Edit, i: nat)
    requires i < |t.children| && !Skips(t.data, e) && e.Ordered()
    ensures var es := EditsOf(t.data, Datas(t.children), e);
            && EditTree(t, e).children[i] == EditChild(t.children[i], es[i])
            && (es[i].Some? ==> es[i].value.Ordered())
    ensures EditTree(t, e).data.hasChanges && |EditTree(t, e).children| == |t.children|
  {
    hide PointAdd, PointSub, StopsBefore, Reshape, CanInline;
    ChildEditsOrdered(Datas(t.children), 0, ZERO, e, ColumnsOf(t.data, e), i);
  }

  /** Without exposed nodes the marks are sound. */
  lemma {:induction false} MarksAreSound(t: Tree, e: Edit, at: nat, start: nat, oldEnd: nat)
    requires LaidOut(t) && LooksAheadEnough(t) && Unmarked(t)
    requires start <= oldEnd && e.Ordered() && Relates(e, at, t.data.Total().bytes, start, oldEnd)
    requires NoneExposed(t, at, start, oldEnd)
    requires Swallowed(e, at, t.data.Total().bytes, start, oldEnd) ==> !IsBlank(t.data)
    ensures MarksSound(t, EditTree(t, e), at, start, oldEnd)
    decreases t
  {
    hide PointAdd, PointSub, EditTree, EditsOf, LeftOf, LaidOut, LooksAheadEnough, Unmarked, NoneExposed, MarksSound, Relates,
         Swallowed, Skips;
    if Skips(t.data, e) {
      SkippedTree(t, e);
      SkippedIsClear(t.data, e, at, start, oldEnd);
      ClearInside(t, at, start, oldEnd);
      SameIsSound(t, at, start, oldEnd);
    } else {
      var ds, t' := Datas(t.children), EditTree(t, e);
      if ds != [] {
        EditedChild(t, e, 0);
      }
      forall i | 0 <= i < |ds|
        ensures MarksSound(t.children[i], t'.children[i], at + LeftOf(ds, i), start, oldEnd)
      {
        var u, here := t.children[i], at + LeftOf(ds, i);
        EditedChild(t, e, i);
        RelatedChild(t, e, i, at, start, oldEnd);
        ReadyInside(t, i, at, start, oldEnd);
        var ce := EditsOf(t.data, ds, e)[i];
        if ce.Some? {
          MarksAreSound(u, ce.value, here, start, oldEnd);
        } else {
          ClearInside(u, here, start, oldEnd);
          SameIsSound(u, here, start, oldEnd);
        }
      }
      if ds == [] {
        EditedLeaf(t, e);
      }
      MarkedIsSound(t, t', at, start, oldEnd);
    }
  }

  lemma SameIsSound(t: Tree, at: nat, start: nat, oldEnd: nat)
    requires Unmarked(t) && Clear(t, at, start, oldEnd)
    ensures MarksSound(t, t, at, start, oldEnd)
  {
    hide Clear;
  }

  lemma MarkedIsSound(t: Tree, t': Tree, at: nat, start: nat, oldEnd: nat)
    requires t'.data.hasChanges && |t'.children| == |t.children|
    requires forall i :: 0 <= i < |t.children| ==>
               MarksSound(t.children[i], t'.children[i], at + LeftOf(Datas(t.children), i), start, oldEnd)
    ensures MarksSound(t, t', at, start, oldEnd)
  {
    hide Clear, LeftOf;
  }

  lemma ReadyInside(t: Tree, i: nat, at: nat, start: nat, oldEnd: nat)
    requires LaidOut(t) && LooksAheadEnough(t) && Unmarked(t) && NoneExposed(t, at, start, oldEnd) && i < |t.children|
    ensures var u := t.children[i];
            && LaidOut(u) && LooksAheadEnough(u) && Unmarked(u)
            && NoneExposed(u, at + LeftOf(Datas(t.children), i), start, oldEnd)
            && !ExposedChild(t, i, at, start, oldEnd)
  {
    hide LeftOf, SumBytes, ExposedChild;
  }

  lemma SkippedIsClear(d: Data, e: Edit, at: nat, start: nat, oldEnd: nat)
    requires Skips(d, e) && Relates(e, at, d.Total().bytes, start, oldEnd)
    requires Swallowed(e, at, d.Total().bytes, start, oldEnd) ==> !IsBlank(d)
    ensures at + d.Total().bytes + d.lookaheadBytes <= start || at >= oldEnd
  {
  }

  lemma SkippedTree(t: Tree, e: Edit)
    requires Skips(t.data, e)
    ensures EditTree(t, e) == t
  {
  }

  lemma EditedLeaf(t: Tree, e: Edit)
    requires !Skips(t.data, e) && t.children == []
    ensures EditTree(t, e).data.hasChanges && EditTree(t, e).children == []
  {
    hide Reshape, CanInline, EditsOf, ColumnsOf, Skips;
  }

  lemma ChildrenFill(t: Tree)
    requires LaidOut(t) && t.children != []
    ensures t.data.Total().bytes == SumBytes(Datas(t.children)) && LeftOf(Datas(t.children), 0) == 0
  {
  }

  lemma RelatedChild(t: Tree, e: Edit, i: nat, at: nat, start: nat, oldEnd: nat)
    requires i < |t.children| && LaidOut(t) && start <= oldEnd && e.Ordered()
    requires Relates(e, at, t.data.Total().bytes, start, oldEnd)
    ensures var ds := Datas(t.children);
            var here, total := at + LeftOf(ds, i), ds[i].Total().bytes;
            match EditsOf(t.data, ds, e)[i]
            case None => here + total + ds[i].lookaheadBytes <= start || here >= oldEnd
            case Some(ce) =>
              && Relates(ce, here, total, start, oldEnd)
              && (Swallowed(ce, here, total, start, oldEnd)
                  <==> LeftOf(ds, i) == 0 && start < at < oldEnd && total == 0)
  {
    hide ChildEdits, Relates, Swallowed, SumBytes, ColumnsOf, LeftOf, LaidOut;
    ChildrenFill(t);
    ChildEditsRelate(Datas(t.children), 0, ZERO, e, ColumnsOf(t.data, e), i, at, start, oldEnd);
  }

  lemma FindExposed(t: Tree, at: nat, start: nat, oldEnd: nat) returns (i: nat)
    requires !NoneExposed(t, at, start, oldEnd)
    ensures i < |t.children|
    ensures ExposedChild(t, i, at, start, oldEnd)
         || !NoneExposed(t.children[i], at + LeftOf(Datas(t.children), i), start, oldEnd)
  {
    hide LeftOf;
    i :| i < |t.children|
      && !(!ExposedChild(t, i, at, start, oldEnd)
           && NoneExposed(t.children[i], at + LeftOf(Datas(t.children), i), start, oldEnd));
  }

  /** An exposed node is not clear of the edit. */
  lemma {:induction false} ExposedIsNotClear(t: Tree, at: nat, start: nat, oldEnd: nat)
    requires !NoneExposed(t, at, start, oldEnd)
    ensures !Clear(t, at, start, oldEnd)
    decreases t
  {
    hide LeftOf;
    var ds := Datas(t.children);
    var i := FindExposed(t, at, start, oldEnd);
    if !NoneExposed(t.children[i], at + LeftOf(ds, i), start, oldEnd) {
      ExposedIsNotClear(t.children[i], at + LeftOf(ds, i), start, oldEnd);
    }
    assert !Clear(t.children[i], at + LeftOf(ds, i), start, oldEnd);
  }

  lemma ExposedIsSkipped(t: Tree, e: Edit, at: nat, start: nat, oldEnd: nat)
    requires Unmarked(t) && Skips(t.data, e)
    requires !NoneExposed(t, at, start, oldEnd)
          || (Swallowed(e, at, t.data.Total().bytes, start, oldEnd) && IsBlank(t.data))
    ensures !MarksSound(t, EditTree(t, e), at, start, oldEnd)
  {
    hide EditTree, LeftOf;
    SkippedTree(t, e);
    if !NoneExposed(t, at, start, oldEnd) {
      ExposedIsNotClear(t, at, start, oldEnd);
    }
  }

  lemma BlankIsSkipped(d: Data, e: Edit, at: nat, start: nat, oldEnd: nat)
    requires Swallowed(e, at, d.Total().bytes, start, oldEnd) && IsBlank(d)
    ensures Skips(d, e)
  {
  }

  /** An exposed node is left unmarked, or lies inside one that is. */
  lemma {:induction false} ExposedIsUnsound(t: Tree, e: Edit, at: nat, start: nat, oldEnd: nat)
    requires LaidOut(t) && Unmarked(t)
    requires start <= oldEnd && e.Ordered() && Relates(e, at, t.data.Total().bytes, start, oldEnd)
    requires !NoneExposed(t, at, start, oldEnd)
          || (Swallowed(e, at, t.data.Total().bytes, start, oldEnd) && IsBlank(t.data))
    ensures !MarksSound(t, EditTree(t, e), at, start, oldEnd)
    decreases t
  {
    hide PointAdd, PointSub, EditTree, EditsOf, LeftOf, MarksSound, Clear, NoneExposed, Skips;
    if Skips(t.data, e) {
      ExposedIsSkipped(t, e, at, start, oldEnd);
    } else {
      if Swallowed(e, at, t.data.Total().bytes, start, oldEnd) && IsBlank(t.data) {
        BlankIsSkipped(t.data, e, at, start, oldEnd);
      }
      var ds := Datas(t.children);
      var i := FindExposed(t, at, start, oldEnd);
      var u, here := t.children[i], at + LeftOf(ds, i);
      EditedChild(t, e, i);
      RelatedChild(t, e, i, at, start, oldEnd);
      var ce := EditsOf(t.data, ds, e)[i];
      assert Unmarked(u) && LaidOut(u);
      hide Relates, Swallowed;
      if ce.Some? {
        ExposedIsUnsound(u, ce.value, here, start, oldEnd);
      } else {
        ExposedIsNotClear(u, here, start, oldEnd);
        UnclearIsUnsound(u, here, start, oldEnd);
      }
      UnsoundInside(t, EditTree(t, e), i, at, start, oldEnd);
    }
  }

  lemma UnclearIsUnsound(t: Tree, at: nat, start: nat, oldEnd: nat)
    requires Unmarked(t) && !Clear(t, at, start, oldEnd)
    ensures !MarksSound(t, t, at, start, oldEnd)
  {
  }

  lemma SoundInside(t: Tree, t': Tree, i: nat, at: nat, start: nat, oldEnd: nat)
    requires MarksSound(t, t', at, start, oldEnd) && t'.data.hasChanges && i < |t.children|
    ensures |t.children| == |t'.children|
    ensures MarksSound(t.children[i], t'.children[i], at + LeftOf(Datas(t.children), i), start, oldEnd)
  {
    hide Clear, LeftOf;
  }

  lemma UnsoundInside(t: Tree, t': Tree, i: nat, at: nat, start: nat, oldEnd: nat)
    requires t'.data.hasChanges && i < |t.children| == |t'.children|
    requires !MarksSound(t.children[i], t'.children[i], at + LeftOf(Datas(t.children), i), start, oldEnd)
    ensures !MarksSound(t, t', at, start, oldEnd)
  {
    hide Clear, LeftOf, MarksSound;
    if MarksSound(t, t', at, start, oldEnd) {
      SoundInside(t, t', i, at, start, oldEnd);
    }
  }

  // ----- freshly summarised trees -------------------------------------------------------------

  lemma {:induction false} SameLeft(xs: seq<Data>, ys: seq<Data>, i: nat)
    requires i <= |xs| <= |ys| && forall k :: 0 <= k < i ==> xs[k] == ys[k]
    ensures LeftOf(xs, i) == LeftOf(ys, i)
  {
    if i > 0 {
      SameLeft(xs, ys, i - 1);
    }
  }

  lemma {:induction false} SumReaches(lang: Language, inError: bool, p: nat, ds: seq<Data>, i: nat)
    requires i < |ds|
    ensures LeftOf(ds, |ds|) == Sum(lang, inError, p, ds).total.bytes
    ensures LeftOf(ds, i) + ds[i].Total().bytes + ds[i].lookaheadBytes <= Sum(lang, inError, p, ds).lookaheadEnd
    decreases |ds|
  {
    hide LeftOf, Sum;
    var n := |ds| - 1;
    SumBytesStep(lang, inError, p, ds);
    if n > 0 {
      SumReaches(lang, inError, p, ds[..n], if i < n then i else 0);
      SameLeft(ds[..n], ds, n);
      SameLeft(ds[..n], ds, if i < n then i else 0);
    }
  }

  lemma SumBytesStep(lang: Language, inError: bool, p: nat, ds: seq<Data>)
    requires ds != []
    ensures var n := |ds| - 1;
            var all, front, last := Sum(lang, inError, p, ds), Sum(lang, inError, p, ds[..n]), ds[n];
            && all.total.bytes == front.total.bytes + last.Total().bytes
            && all.lookaheadEnd >= front.lookaheadEnd
            && all.lookaheadEnd >= front.total.bytes + last.Total().bytes + last.lookaheadBytes
            && (n == 0 ==> front.total.bytes == 0) && LeftOf(ds, 0) == 0
            && LeftOf(ds, n + 1) == LeftOf(ds, n) + last.Total().bytes
  {
    hide Charge, EffectiveAlias, PointAdd;
  }

  /** A freshly summarised tree is laid out and has recorded enough lookahead. */
  lemma {:induction false} SummarizedIsLaidOut(lang: Language, t: Tree)
    requires Summarized(lang, t)
    ensures LaidOut(t) && LooksAheadEnough(t)
    decreases t
  {
    hide LeftOf, PointAdd, Sum, SumBytes;
    var ds := Datas(t.children);
    forall i | 0 <= i < |ds| ensures LaidOut(t.children[i]) && LooksAheadEnough(t.children[i]) {
      SummarizedIsLaidOut(lang, t.children[i]);
    }
    if ds != [] {
      SummaryFits(lang, t.data, ds);
    }
  }

  lemma SummaryFits(lang: Language, d: Data, ds: seq<Data>)
    requires ds != [] && Kept(d) == Kept(Summarize(lang, d, ds))
    ensures d.padding.bytes == ds[0].padding.bytes && d.Total().bytes == SumBytes(ds)
    ensures forall i :: 0 <= i < |ds| ==>
              LeftOf(ds, i) + ds[i].Total().bytes + ds[i].lookaheadBytes <= d.Total().bytes + d.lookaheadBytes
  {
    hide LeftOf, PointAdd, Sum, SumBytes;
    var inError, p := ChargesExtent(d.symbol), d.productionId;
    KeptFields(d, Summarize(lang, d, ds));
    SumTotals(lang, inError, p, ds);
    LeftIsSum(ds);
    forall i | 0 <= i < |ds|
      ensures LeftOf(ds, |ds|) == Sum(lang, inError, p, ds).total.bytes
      ensures LeftOf(ds, i) + ds[i].Total().bytes + ds[i].lookaheadBytes <= Sum(lang, inError, p, ds).lookaheadEnd
    {
      SumReaches(lang, inError, p, ds, i);
    }
    SumReaches(lang, inError, p, ds, 0);
  }

  lemma LeftIsSum(ds: seq<Data>)
    ensures LeftOf(ds, |ds|) == SumBytes(ds)
  {
    LeftPlusRest(ds, |ds|);
  }

  /**
   * After one edit of a freshly summarised, unmarked tree, each node without a mark is the node
   * that was there before and is clear of the edit: exactly when no node is exposed.
   */
  lemma FreshEditMarks(lang: Language, t: Tree, e: Edit)
    requires Summarized(lang, t) && Unmarked(t) && e.Ordered()
    ensures MarksSound(t, EditTree(t, e), 0, e.start.bytes, e.oldEnd.bytes)
       <==> NoneExposed(t, 0, e.start.bytes, e.oldEnd.bytes)
  {
    hide EditTree, MarksSound, NoneExposed, Clear;
    SummarizedIsLaidOut(lang, t);
    if NoneExposed(t, 0, e.start.bytes, e.oldEnd.bytes) {
      MarksAreSound(t, e, 0, e.start.bytes, e.oldEnd.bytes);
    } else {
      ExposedIsUnsound(t, e, 0, e.start.bytes, e.oldEnd.bytes);
    }
  }

  // ----- a tree with an exposed node ------------------------------------------------------------

  function PlainData(bytes: nat, childCount: nat): Data {
    Data(false, 1, 0, ZERO, Length(bytes, Point(0, bytes)), 0, 0, true, true, false, false, false, false, false,
         childCount, 0, 0, 0, 0, 0, 0, 0, 0)
  }

  function Leaf(bytes: nat): Tree { Tree(PlainData(bytes, 0), []) }

  function Over(lang: Language, ts: seq<Tree>): Tree
    requires ts != []
  {
    Tree(Summarize(lang, PlainData(0, |ts|), Datas(ts)), ts)
  }

  lemma OverIsSummarized(lang: Language, ts: seq<Tree>)
    requires ts != [] && forall i :: 0 <= i < |ts| ==> Summarized(lang, ts[i]) && Unmarked(ts[i])
    ensures Summarized(lang, Over(lang, ts)) && Unmarked(Over(lang, ts))
  {
    var d := PlainData(0, |ts|);
    assert SameIdentity(d, Summarize(lang, d, Datas(ts)));
    hide Summarize, Kept;
    SummarizeKept(lang, d, Summarize(lang, d, Datas(ts)), Datas(ts), Datas(ts));
  }

  function LateHalf(lang: Language): Tree { Over(lang, [Leaf(0), Leaf(5)]) }

  function TwoHalves(lang: Language): Tree { Over(lang, [Leaf(5), LateHalf(lang)]) }

  const MIDDLE: Edit := Edit(Length(3, Point(0, 3)), Length(8, Point(0, 8)), Length(4, Point(0, 4)))

  lemma TwoHalvesAreFresh(lang: Language)
    ensures Summarized(lang, TwoHalves(lang)) && Unmarked(TwoHalves(lang))
    ensures !NoneExposed(TwoHalves(lang), 0, 3, 8)
  {
    OverIsSummarized(lang, [Leaf(0), Leaf(5)]);
    OverIsSummarized(lang, [Leaf(5), LateHalf(lang)]);
    hide Summarized, Over, Unmarked, PointAdd, NoneExposed;
    OverHas(lang, [Leaf(0), Leaf(5)]);
    OverHas(lang, [Leaf(5), LateHalf(lang)]);
    BlankInSecond(TwoHalves(lang), 5, 3, 8);
  }

  /**
   * Replacing bytes 3 to 8 of two five-byte nodes, the second of which begins with an empty node,
   * leaves that empty node unmarked although the text around it is gone.
   */
  lemma AnExposedNode(lang: Language)
    ensures Summarized(lang, TwoHalves(lang)) && Unmarked(TwoHalves(lang)) && MIDDLE.Ordered()
    ensures !MarksSound(TwoHalves(lang), EditTree(TwoHalves(lang), MIDDLE), 0, 3, 8)
  {
    hide EditTree, MarksSound, Summarized, TwoHalves, Unmarked, NoneExposed;
    TwoHalvesAreFresh(lang);
    FreshEditMarks(lang, TwoHalves(lang), MIDDLE);
  }

  lemma BlankInSecond(t: Tree, n: nat, start: nat, oldEnd: nat)
    requires |t.children| == 2 && t.children[0].data.Total().bytes == n && start < n < oldEnd
    requires t.children[1].children != [] && IsBlank(t.children[1].children[0].data)
    ensures !NoneExposed(t, 0, start, oldEnd)
  {
    assert LeftOf(Datas(t.children), 1) == LeftOf(Datas(t.children), 0) + n;
    assert ExposedChild(t.children[1], 0, n, start, oldEnd);
    assert !NoneExposed(t.children[1], n, start, oldEnd);
  }

  lemma OverHas(lang: Language, ts: seq<Tree>)
    requires ts != []
    ensures Over(lang, ts).children == ts
  {
  }
}
