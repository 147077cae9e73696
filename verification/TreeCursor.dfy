/**
 * A cursor over the visible nodes of a tree. It keeps one entry for every ancestor, hidden ones
 * too, each with its position and with the number of visible nodes before it.
 */
module TreeCursors {
  import opened Options
  import opened Lengths
  import opened Subtrees
  import opened Summaries
  import opened Places
  import opened VisibleNodes

  datatype Entry = Entry(tree: Tree, position: Length, childIndex: nat, structuralChildIndex: nat, descendantIndex: nat)

  datatype Child = Child(entry: Entry, visible: bool)

  datatype Step = NoStep | HiddenStep | VisibleStep

  // ----- entries -------------------------------------------------------------------------------

  /** Child number `i` of a node at `pos` whose first visible descendant is number `first`. */
  function ChildEntry(lang: Language, parent: Tree, pos: Length, first: nat, i: nat): Entry
    requires i < |parent.children|
  {
    Entry(parent.children[i], ChildStart(parent, pos, i), i,
          StructuralIndex(Datas(parent.children)[..i]), first + |Below(lang, parent, i)|)
  }

  predicate EntryShown(lang: Language, stack: seq<Entry>, n: nat)
    requires n < |stack|
  {
    if n == 0 || stack[n].tree.data.visible then true
    else if !stack[n].tree.data.extra then
      AliasAt(lang, stack[n - 1].tree.data.productionId, stack[n].structuralChildIndex) != 0
    else false
  }

  /** The index of the first visible node inside an entry. */
  function FirstInside(lang: Language, stack: seq<Entry>, n: nat): nat
    requires n < |stack|
  {
    stack[n].descendantIndex + if EntryShown(lang, stack, n) then 1 else 0
  }

  predicate IsChild(lang: Language, stack: seq<Entry>, n: nat)
    requires 0 < n < |stack|
  {
    var up, i := stack[n - 1], stack[n].childIndex;
    && i < |up.tree.children|
    && stack[n] == ChildEntry(lang, up.tree, up.position, FirstInside(lang, stack, n - 1), i)
    && Counted(lang, stack[n].tree)
  }

  /** The entries lead down from the root, each one to a child of the one before. */
  predicate Linked(lang: Language, root: Tree, start: Length, stack: seq<Entry>) {
    && stack != [] && stack[0] == Entry(root, start, 0, 0, 0) && Counted(lang, root)
    && forall n :: 0 < n < |stack| ==> IsChild(lang, stack, n)
  }

  /** The path from one entry down to another. */
  function Between(stack: seq<Entry>, a: nat, b: nat): (path: Path)
    requires a <= b < |stack|
    ensures |path| == b - a
  {
    seq<nat>(b - a, k requires 0 <= k < b - a => stack[a + 1 + k].childIndex)
  }

  function Here(stack: seq<Entry>): Path
    requires stack != []
  {
    Between(stack, 0, |stack| - 1)
  }

  lemma BetweenMore(stack: seq<Entry>, a: nat, b: nat)
    requires a < b < |stack|
    ensures Between(stack, a, b) == Between(stack, a, b - 1) + [stack[b].childIndex]
    ensures Between(stack, a, b) == [stack[a + 1].childIndex] + Between(stack, a + 1, b)
  {
  }

  lemma BetweenJoins(stack: seq<Entry>, a: nat, b: nat, c: nat)
    requires a <= b <= c < |stack|
    ensures Between(stack, a, c) == Between(stack, a, b) + Between(stack, b, c)
  {
  }

  lemma BetweenPushed(stack: seq<Entry>, e: Entry, a: nat)
    requires a < |stack|
    ensures Between(stack + [e], a, |stack|) == Between(stack, a, |stack| - 1) + [e.childIndex]
  {
  }

  lemma ShownAsChild(lang: Language, stack: seq<Entry>, n: nat)
    requires 0 < n < |stack| && IsChild(lang, stack, n)
    ensures EntryShown(lang, stack, n) == Shows(lang, stack[n - 1].tree, stack[n].childIndex)
  {
  }

  lemma SameShown(lang: Language, xs: seq<Entry>, ys: seq<Entry>, n: nat)
    requires n < |xs| && n < |ys| && xs[..n + 1] == ys[..n + 1]
    ensures EntryShown(lang, xs, n) == EntryShown(lang, ys, n)
    ensures n > 0 ==> IsChild(lang, xs, n) == IsChild(lang, ys, n)
  {
    assert xs[n] == xs[..n + 1][n] == ys[n];
    if n > 0 {
      assert xs[n - 1] == xs[..n + 1][n - 1] == ys[n - 1];
      if n > 1 {
        assert xs[n - 2] == xs[..n + 1][n - 2] == ys[n - 2];
      }
    }
  }

  lemma TakeLinked(lang: Language, root: Tree, start: Length, stack: seq<Entry>, m: nat)
    requires Linked(lang, root, start, stack) && 0 < m <= |stack|
    ensures Linked(lang, root, start, stack[..m])
  {
    hide IsChild;
    forall n | 0 < n < m ensures IsChild(lang, stack[..m], n) {
      assert stack[..m][..n + 1] == stack[..n + 1];
      SameShown(lang, stack[..m], stack, n);
    }
  }

  lemma TopCounted(lang: Language, root: Tree, start: Length, stack: seq<Entry>, n: nat)
    requires Linked(lang, root, start, stack) && n < |stack|
    ensures Counted(lang, stack[n].tree)
  {
    if n > 0 {
      assert IsChild(lang, stack, n);
    }
  }

  lemma PushLinked(lang: Language, root: Tree, start: Length, stack: seq<Entry>, i: nat)
    requires Linked(lang, root, start, stack) && i < |stack[|stack| - 1].tree.children|
    ensures var top := stack[|stack| - 1];
            var e := ChildEntry(lang, top.tree, top.position, FirstInside(lang, stack, |stack| - 1), i);
            && Linked(lang, root, start, stack + [e])
            && EntryShown(lang, stack + [e], |stack|) == Shows(lang, top.tree, i)
            && Here(stack + [e]) == Here(stack) + [i]
            && Counted(lang, e.tree)
  {
    hide IsChild, EntryShown, Counted, Shows, ChildEntry, Between;
    var m, top := |stack|, stack[|stack| - 1];
    var e := ChildEntry(lang, top.tree, top.position, FirstInside(lang, stack, m - 1), i);
    TopCounted(lang, root, start, stack, m - 1);
    ChildPushed(lang, stack, i);
    BetweenPushed(stack, e, 0);
    var more := stack + [e];
    forall n | 0 < n < m ensures IsChild(lang, more, n) {
      assert more[..n + 1] == stack[..n + 1];
      SameShown(lang, more, stack, n);
    }
  }

  lemma ChildPushed(lang: Language, stack: seq<Entry>, i: nat)
    requires stack != [] && i < |stack[|stack| - 1].tree.children| && Counted(lang, stack[|stack| - 1].tree)
    ensures var top := stack[|stack| - 1];
            var e := ChildEntry(lang, top.tree, top.position, FirstInside(lang, stack, |stack| - 1), i);
            && IsChild(lang, stack + [e], |stack|) && Counted(lang, e.tree)
            && e.tree == top.tree.children[i] && e.childIndex == i
            && EntryShown(lang, stack + [e], |stack|) == Shows(lang, top.tree, i)
  {
    hide EntryShown, Below, Kids, AllKids, StructuralIndex, ChildStart;
    var m, top := |stack|, stack[|stack| - 1];
    var more := stack + [ChildEntry(lang, top.tree, top.position, FirstInside(lang, stack, m - 1), i)];
    assert more[..m] == stack[..m];
    SameShown(lang, more, stack, m - 1);
    ShownAsChild(lang, more, m);
  }

  // ----- what an entry says about its place ----------------------------------------------------

  lemma RootMeaning(lang: Language, root: Tree, start: Length)
    ensures HasPath(root, []) && NodeAt(root, []) == root && Rank(lang, root, [], true) == 0
    ensures StartAt(root, start, []) == start && ShownAt(lang, root, [], true)
  {
  }

  /** An entry's index is its rank among the visible nodes, and its position is where it starts. */
  lemma {:induction false} EntryMeaning(lang: Language, root: Tree, start: Length, stack: seq<Entry>, n: nat)
    requires Linked(lang, root, start, stack) && n < |stack|
    ensures var path := Between(stack, 0, n);
            && HasPath(root, path) && stack[n].tree == NodeAt(root, path)
            && stack[n].descendantIndex == Rank(lang, root, path, true)
            && stack[n].position == StartAt(root, start, path)
            && EntryShown(lang, stack, n) == ShownAt(lang, root, path, true)
    decreases n
  {
    hide Linked, HasPath, NodeAt, Rank, StartAt, ShownAt, Shows, Below, Counted, ChildStart, EntryShown, Between;
    if n == 0 {
      RootEntry(lang, root, start, stack);
      RootMeaning(lang, root, start);
      assert Between(stack, 0, 0) == [];
    } else {
      EntryMeaning(lang, root, start, stack, n - 1);
      LinkedStep(lang, root, start, stack, n);
      BetweenMore(stack, 0, n);
      var path, i := Between(stack, 0, n - 1), stack[n].childIndex;
      PathExtends(root, path, i);
      RankOfChild(lang, root, path, true, i);
      StartOfChild(root, start, path, i);
    }
  }

  /**
   * In every entry the index counts the visible nodes before it in preorder, and the position adds
   * up all leaves before it and its own padding.
   */
  lemma EveryEntryIsExact(lang: Language, root: Tree, origin: Length, stack: seq<Entry>, n: nat)
    requires Spanning(root) && Linked(lang, root, Add(origin, root.data.padding), stack) && n < |stack|
    ensures var path, all := Between(stack, 0, n), Visible(lang, root, true);
            && HasPath(root, path)
            && (forall j :: 0 <= j < |all| ==> (j < stack[n].descendantIndex <==> Precedes(all[j], path)))
            && (EntryShown(lang, stack, n) ==> stack[n].descendantIndex < |all| && all[stack[n].descendantIndex] == path)
            && stack[n].position == Add(Add(origin, LengthOf(LeavesBefore(root, path))), stack[n].tree.data.padding)
  {
    hide Rank, Visible, Precedes, ShownAt, HasPath, StartAt, Linked, NodeAt, LeavesBefore, EntryShown;
    EntryMeaning(lang, root, Add(origin, root.data.padding), stack, n);
    var path := Between(stack, 0, n);
    RankCounts(lang, root, path, true);
    StartIsPrefixSum(root, origin, path);
  }

  /** The visible nodes inside an entry, among those of the whole tree. */
  lemma {:induction false} InsideEntry(lang: Language, root: Tree, start: Length, stack: seq<Entry>, n: nat, j: nat)
    requires Linked(lang, root, start, stack) && n < |stack|
    requires j < |Visible(lang, stack[n].tree, EntryShown(lang, stack, n))|
    ensures var at, all := stack[n].descendantIndex + j, Visible(lang, root, true);
            at < |all| && all[at] == Between(stack, 0, n) + Visible(lang, stack[n].tree, EntryShown(lang, stack, n))[j]
    decreases n
  {
    hide Linked, IsChild, Visible, Below, Shows, EntryShown;
    var inside := Visible(lang, stack[n].tree, EntryShown(lang, stack, n));
    if n == 0 {
      RootEntry(lang, root, start, stack);
      assert Between(stack, 0, 0) + inside[j] == inside[j];
    } else {
      LinkedStep(lang, root, start, stack, n);
      var up, i := stack[n - 1], stack[n].childIndex;
      var self := if EntryShown(lang, stack, n - 1) then 1 else 0;
      InsideChild(lang, up.tree, EntryShown(lang, stack, n - 1), i, j);
      InsideEntry(lang, root, start, stack, n - 1, self + |Below(lang, up.tree, i)| + j);
      BetweenMore(stack, 0, n);
      assert Between(stack, 0, n - 1) + ([i] + inside[j]) == Between(stack, 0, n) + inside[j];
    }
  }

  lemma RootEntry(lang: Language, root: Tree, start: Length, stack: seq<Entry>)
    requires Linked(lang, root, start, stack)
    ensures stack != [] && stack[0] == Entry(root, start, 0, 0, 0) && EntryShown(lang, stack, 0) && Counted(lang, root)
  {
  }

  lemma LinkedStep(lang: Language, root: Tree, start: Length, stack: seq<Entry>, n: nat)
    requires Linked(lang, root, start, stack) && 0 < n < |stack|
    ensures var up, i := stack[n - 1], stack[n].childIndex;
            && i < |up.tree.children| && stack[n].tree == up.tree.children[i]
            && stack[n] == ChildEntry(lang, up.tree, up.position, FirstInside(lang, stack, n - 1), i)
            && EntryShown(lang, stack, n) == Shows(lang, up.tree, i)
            && Counted(lang, up.tree) && Counted(lang, stack[n].tree)
  {
    assert IsChild(lang, stack, n);
    TopCounted(lang, root, start, stack, n - 1);
    ShownAsChild(lang, stack, n);
  }

  // ----- the visible parent --------------------------------------------------------------------

  function NearestShown(lang: Language, stack: seq<Entry>, n: nat): (a: nat)
    requires n < |stack|
    ensures a <= n && EntryShown(lang, stack, a)
    ensures forall k :: a < k <= n ==> !EntryShown(lang, stack, k)
  {
    if EntryShown(lang, stack, n) then n else NearestShown(lang, stack, n - 1)
  }

  /** The entries down to the visible parent of the last one. */
  function ParentOf(lang: Language, stack: seq<Entry>): seq<Entry>
    requires |stack| > 1
  {
    stack[..NearestShown(lang, stack, |stack| - 2) + 1]
  }

  lemma ParentIsNearest(lang: Language, stack: seq<Entry>, a: nat)
    requires a + 1 < |stack| && EntryShown(lang, stack, a)
    requires forall k :: a < k < |stack| - 1 ==> !EntryShown(lang, stack, k)
    ensures ParentOf(lang, stack) == stack[..a + 1]
  {
  }

  /** The visible children of the visible parent that come after the last entry. */
  ghost function LaterSiblings(lang: Language, root: Tree, start: Length, stack: seq<Entry>): seq<Path>
    requires Linked(lang, root, start, stack) && |stack| > 1
  {
    LaterFrom(lang, root, start, stack, NearestShown(lang, stack, |stack| - 2), |stack| - 1)
  }

  /** The visible children of entry `a` that come after entry `b`, which is below it. */
  ghost function LaterFrom(lang: Language, root: Tree, start: Length, stack: seq<Entry>, a: nat, b: nat): seq<Path>
    requires Linked(lang, root, start, stack) && a <= b < |stack|
  {
    HasPathBetween(lang, root, start, stack, a, b);
    Rest(lang, stack[a].tree, Between(stack, a, b))
  }

  lemma LaterStep(lang: Language, root: Tree, start: Length, stack: seq<Entry>, a: nat, b: nat)
    requires Linked(lang, root, start, stack) && a < b < |stack|
    ensures var up := stack[b - 1].tree;
            && stack[b].childIndex < |up.children|
            && LaterFrom(lang, root, start, stack, a, b)
               == Under(Between(stack, a, b - 1), KidsAfter(lang, up, stack[b].childIndex))
                  + LaterFrom(lang, root, start, stack, a, b - 1)
  {
    hide Linked, EntryShown, Counted, Shows, Below, KidsAfter;
    HasPathBetween(lang, root, start, stack, a, b - 1);
    HasPathBetween(lang, root, start, stack, a, b);
    LinkedStep(lang, root, start, stack, b);
    BetweenMore(stack, a, b);
    RestOfChild(lang, stack[a].tree, Between(stack, a, b - 1), stack[b].childIndex);
  }

  /** A visible entry is one of the visible children of its visible parent. */
  lemma VisibleEntryIsKid(lang: Language, root: Tree, start: Length, stack: seq<Entry>)
    requires Linked(lang, root, start, stack) && |stack| > 1 && EntryShown(lang, stack, |stack| - 1)
    ensures var a := NearestShown(lang, stack, |stack| - 2);
            Between(stack, a, |stack| - 1) in AllKids(lang, stack[a].tree)
  {
    var a := NearestShown(lang, stack, |stack| - 2);
    LeadsDown(lang, root, start, stack, a);
    KidMembers(lang, stack[a].tree, Between(stack, a, |stack| - 1));
  }

  lemma {:induction false} LeadsDown(lang: Language, root: Tree, start: Length, stack: seq<Entry>, a: nat)
    requires Linked(lang, root, start, stack) && a + 1 < |stack| && EntryShown(lang, stack, |stack| - 1)
    requires forall k :: a < k < |stack| - 1 ==> !EntryShown(lang, stack, k)
    ensures LeadsToKid(lang, stack[a].tree, Between(stack, a, |stack| - 1))
    decreases |stack| - a
  {
    hide Linked, EntryShown, Counted, Shows, Below;
    LinkedStep(lang, root, start, stack, a + 1);
    BetweenMore(stack, a, |stack| - 1);
    if a + 2 < |stack| {
      LeadsDown(lang, root, start, stack, a + 1);
    }
  }

  /** If the entry is visible child `j` of its visible parent, the later ones are those after `j`. */
  lemma SiblingsOfKid(lang: Language, root: Tree, start: Length, stack: seq<Entry>, j: nat)
    requires Linked(lang, root, start, stack) && |stack| > 1
    requires var a := NearestShown(lang, stack, |stack| - 2);
             var kids := AllKids(lang, stack[a].tree);
             j < |kids| && Between(stack, a, |stack| - 1) == kids[j]
    ensures LaterSiblings(lang, root, start, stack)
         == AllKids(lang, stack[NearestShown(lang, stack, |stack| - 2)].tree)[j + 1..]
  {
    var a := NearestShown(lang, stack, |stack| - 2);
    HasPathBetween(lang, root, start, stack, a, |stack| - 1);
    RestOfKid(lang, stack[a].tree, j);
  }

  lemma {:induction false} HasPathBetween(lang: Language, root: Tree, start: Length, stack: seq<Entry>, a: nat, b: nat)
    requires Linked(lang, root, start, stack) && a <= b < |stack|
    ensures HasPath(stack[a].tree, Between(stack, a, b)) && NodeAt(stack[a].tree, Between(stack, a, b)) == stack[b].tree
    decreases b
  {
    hide Linked, EntryShown, Counted, Shows, Below;
    if a < b {
      HasPathBetween(lang, root, start, stack, a, b - 1);
      BetweenMore(stack, a, b);
      LinkedStep(lang, root, start, stack, b);
      PathExtends(stack[a].tree, Between(stack, a, b - 1), stack[b].childIndex);
    }
  }

  // ----- iterating over children ---------------------------------------------------------------

  class ChildIterator {
    const lang: Language
    const parent: Tree
    var position: Length
    var childIndex: nat
    var structuralChildIndex: nat
    var descendantIndex: nat
    ghost const start: Length
    ghost const first: nat

    ghost predicate Valid()
      reads this
    {
      && childIndex <= |parent.children|
      && structuralChildIndex == StructuralIndex(Datas(parent.children)[..childIndex])
      && (childIndex < |parent.children| ==> position == ChildStart(parent, start, childIndex))
      && (parent.children != [] ==> descendantIndex == first + |Below(lang, parent, childIndex)|)
      && forall i :: 0 <= i < |parent.children| ==> Counted(lang, parent.children[i])
    }

    /** Without children there is nothing to iterate over, and the index stays zero. */
    constructor (lang: Language, parent: Tree, position: Length, descendantIndex: nat)
      requires Counted(lang, parent)
      ensures Valid() && childIndex == 0 && this.lang == lang && this.parent == parent
      ensures start == position && first == descendantIndex
      ensures this.descendantIndex == if parent.children == [] then 0 else descendantIndex
    {
      this.lang, this.parent, this.start, this.first := lang, parent, position, descendantIndex;
      this.childIndex, this.structuralChildIndex := 0, 0;
      this.position := if |parent.children| == 0 then ZERO else position;
      this.descendantIndex := if |parent.children| == 0 then 0 else descendantIndex;
    }

    /** Go on from a child that the iterator could have come to. */
    method SkipTo(entry: Entry)
      requires Valid() && entry.childIndex < |parent.children|
      requires entry == ChildEntry(lang, parent, start, first, entry.childIndex)
      modifies this
      ensures Valid() && childIndex == entry.childIndex
    {
      childIndex, structuralChildIndex := entry.childIndex, entry.structuralChildIndex;
      position, descendantIndex := entry.position, entry.descendantIndex;
    }

    method Next() returns (next: Option<Child>)
      requires Valid()
      modifies this
      ensures Valid()
      ensures if old(childIndex) == |parent.children| then next == None && unchanged(this)
              else
                && childIndex == old(childIndex) + 1
                && next == Some(Child(ChildEntry(lang, parent, start, first, old(childIndex)),
                                      Shows(lang, parent, old(childIndex))))
    {
      hide Below, Visible, StructuralIndex, Counted, Shows, ChildStart;
      if childIndex == |parent.children| { return None; }
      var child := parent.children[childIndex];
      OneFurther(lang, parent, start, childIndex);
      var entry := Entry(child, position, childIndex, structuralChildIndex, descendantIndex);
      var visible := child.data.visible;
      if !child.data.extra {
        if parent.data.productionId != 0 {
          visible := visible || lang.aliasSequence(parent.data.productionId, structuralChildIndex) != 0;
        }
        structuralChildIndex := structuralChildIndex + 1;
      }
      descendantIndex := descendantIndex + child.data.VisibleDescendants();
      if visible {
        descendantIndex := descendantIndex + 1;
      }
      position := Add(position, child.data.size);
      childIndex := childIndex + 1;
      if childIndex < |parent.children| {
        position := Add(position, parent.children[childIndex].data.padding);
      }
      return Some(Child(entry, visible));
    }
  }

  /** What changes from one child to the next. */
  lemma OneFurther(lang: Language, t: Tree, pos: Length, i: nat)
    requires i < |t.children| && Counted(lang, t.children[i])
    ensures var d, ds := t.children[i].data, Datas(t.children);
            && StructuralIndex(ds[..i + 1]) == StructuralIndex(ds[..i]) + (if d.extra then 0 else 1)
            && |Below(lang, t, i + 1)|
               == |Below(lang, t, i)| + d.VisibleDescendants() + (if Shows(lang, t, i) then 1 else 0)
            && Shows(lang, t, i) == (d.visible
                 || (!d.extra && t.data.productionId != 0
                     && lang.aliasSequence(t.data.productionId, StructuralIndex(ds[..i])) != 0))
            && (i + 1 < |t.children| ==>
                  ChildStart(t, pos, i + 1) == Add(Add(ChildStart(t, pos, i), d.size), t.children[i + 1].data.padding))
  {
    assert Datas(t.children)[..i + 1][..i] == Datas(t.children)[..i];
  }

  // ----- searching for the first child past a goal ---------------------------------------------

  /** The end of a node lies beyond both the goal byte and the goal point. */
  predicate Past(end: Length, goalByte: nat, goalPoint: Point) {
    end.bytes > goalByte && !PointLte(end.extent, goalPoint)
  }

  /** From child number `i` on, the first one past the goal that is or has a visible child. */
  function FirstPast(lang: Language, t: Tree, pos: Length, goalByte: nat, goalPoint: Point, i: nat): (r: nat)
    requires i <= |t.children|
    ensures i <= r <= |t.children|
    decreases |t.children| - i
  {
    if i == |t.children| then i
    else if IsPastKid(lang, t, pos, goalByte, goalPoint, i) then i
    else FirstPast(lang, t, pos, goalByte, goalPoint, i + 1)
  }

  predicate IsPastKid(lang: Language, t: Tree, pos: Length, goalByte: nat, goalPoint: Point, i: nat)
    requires i < |t.children|
  {
    Past(Add(ChildStart(t, pos, i), t.children[i].data.size), goalByte, goalPoint) && KidsIn(lang, t, i) != []
  }

  /** The visible child that the search ends at: it never leaves the first hidden child it enters. */
  function Search(lang: Language, t: Tree, pos: Length, goalByte: nat, goalPoint: Point): Option<nat> {
    var i := FirstPast(lang, t, pos, goalByte, goalPoint, 0);
    if i == |t.children| then None
    else if Shows(lang, t, i) then Some(|Kids(lang, t, i)|)
    else
      match Search(lang, t.children[i], ChildStart(t, pos, i), goalByte, goalPoint)
      case None => None
      case Some(j) => Some(|Kids(lang, t, i)| + j)
  }

  // ----- the cursor ----------------------------------------------------------------------------

  class TreeCursor {
    const lang: Language
    var stack: seq<Entry>
    ghost const root: Tree
    ghost const start: Length

    ghost predicate Valid()
      reads this`stack
    {
      Linked(lang, root, start, stack)
    }

    constructor (lang: Language, tree: Tree, position: Length)
      requires Counted(lang, tree)
      ensures Valid() && this.lang == lang && root == tree && start == position && Here(stack) == []
    {
      this.lang, root, start := lang, tree, position;
      stack := [Entry(tree, position, 0, 0, 0)];
    }

    method IterateChildren() returns (children: ChildIterator)
      requires Valid()
      ensures fresh(children) && children.Valid() && children.childIndex == 0
      ensures var top := stack[|stack| - 1];
              && children.lang == lang && children.parent == top.tree && children.start == top.position
              && children.first == FirstInside(lang, stack, |stack| - 1)
              && children.descendantIndex == if top.tree.children == [] then 0 else children.first
    {
      hide IsChild, Counted, EntryShown;
      var last := stack[|stack| - 1];
      TopCounted(lang, root, start, stack, |stack| - 1);
      var descendantIndex := last.descendantIndex;
      if EntryShown(lang, stack, |stack| - 1) {
        descendantIndex := descendantIndex + 1;
      }
      children := new ChildIterator(lang, last.tree, last.position, descendantIndex);
    }

    /** Push the next child, from where the iterator is, that is visible or has visible children. */
    method PushNextChild(children: ChildIterator) returns (step: Step)
      requires Valid() && children.Valid()
      requires var top := stack[|stack| - 1];
               && children.lang == lang && children.parent == top.tree && children.start == top.position
               && children.first == FirstInside(lang, stack, |stack| - 1)
      modifies this`stack, children
      ensures Valid()
      ensures var t, n, m := children.parent, old(children.childIndex), old(|stack|);
              if step == NoStep then stack == old(stack) && AllKids(lang, t) == Kids(lang, t, n)
              else
                && |stack| == m + 1 && stack[..m] == old(stack)
                && var i := stack[m].childIndex;
                && n <= i < |t.children| && stack[m].tree == t.children[i] && Kids(lang, t, i) == Kids(lang, t, n)
                && Here(stack) == old(Here(stack)) + [i]
                && EntryShown(lang, stack, m) == (step == VisibleStep) == Shows(lang, t, i)
                && KidsIn(lang, t, i) != []
    {
      hide IsChild, Kids, KidsIn, AllKids, Counted, Below, EntryShown, Shows;
      ghost var t, i := children.parent, children.childIndex;
      while true
        invariant Valid() && stack == old(stack)
        invariant children.Valid() && old(children.childIndex) <= i == children.childIndex <= |t.children|
        invariant Kids(lang, t, i) == Kids(lang, t, old(children.childIndex))
        decreases |t.children| - i
      {
        var next := children.Next();
        if next.None? {
          AllKidsIs(lang, t);
          return NoStep;
        }
        PushLinked(lang, root, start, stack, i);
        KidsStep(lang, t, i);
        if next.value.visible {
          stack := stack + [next.value.entry];
          return VisibleStep;
        }
        if next.value.entry.tree.data.VisibleChildren() > 0 {
          stack := stack + [next.value.entry];
          return HiddenStep;
        }
        i := i + 1;
      }
    }

    /** Go to the first child that is visible or has visible children. */
    method GotoFirstChildInternal() returns (step: Step)
      requires Valid()
      modifies this`stack
      ensures Valid()
      ensures var t := old(stack[|stack| - 1].tree);
              if step == NoStep then stack == old(stack) && AllKids(lang, t) == []
              else
                && |stack| == old(|stack|) + 1 && stack[..old(|stack|)] == old(stack)
                && var i := stack[old(|stack|)].childIndex;
                && i < |t.children| && stack[old(|stack|)].tree == t.children[i] && Kids(lang, t, i) == []
                && Here(stack) == old(Here(stack)) + [i]
                && EntryShown(lang, stack, old(|stack|)) == (step == VisibleStep) == Shows(lang, t, i)
                && KidsIn(lang, t, i) != []
    {
      hide IsChild, Kids, KidsIn, AllKids, Counted, Below, EntryShown, Shows;
      NoKidsYet(lang, stack[|stack| - 1].tree);
      AllKidsIs(lang, stack[|stack| - 1].tree);
      var children := IterateChildren();
      step := PushNextChild(children);
    }

    /** Go to the first visible child. */
    method GotoFirstChild() returns (moved: bool)
      requires Valid()
      modifies this`stack
      ensures Valid()
      ensures var kids := AllKids(lang, old(stack[|stack| - 1].tree));
              && moved == (kids != [])
              && if moved then Here(stack) == old(Here(stack)) + kids[0] && EntryShown(lang, stack, |stack| - 1)
                 else stack == old(stack)
      ensures moved ==>
        && |stack| > |old(stack)| && old(stack) == stack[..old(|stack|)]
        && forall k :: old(|stack|) <= k < |stack| - 1 ==> !EntryShown(lang, stack, k)
      ensures moved && EntryShown(lang, old(stack), old(|stack|) - 1) ==> ParentOf(lang, stack) == old(stack)
    {
      hide IsChild, Kids, KidsIn, AllKids, Counted, Below, EntryShown, Shows;
      ghost var n, kids, top := |stack|, AllKids(lang, stack[|stack| - 1].tree), stack[|stack| - 1].tree;
      assert Here(stack) + [] == Here(stack) && (kids != [] ==> [] + kids[0] == kids[0]);
      ghost var hidden: Path := [];
      while true
        invariant Valid() && |stack| >= n && stack[..n] == old(stack)
        invariant top == stack[|stack| - 1].tree && (AllKids(lang, top) == [] ==> stack == old(stack) && kids == [])
        invariant Here(stack) == old(Here(stack)) + hidden
        invariant AllKids(lang, top) != [] ==> kids != [] && kids[0] == hidden + AllKids(lang, top)[0]
        invariant forall k :: n <= k < |stack| ==> !EntryShown(lang, stack, k)
        decreases top
      {
        ghost var before := stack;
        var step := GotoFirstChildInternal();
        if step == NoStep { return false; }
        ghost var m, i := |before|, stack[|stack| - 1].childIndex;
        FirstKid(lang, top, i);
        assert stack[..n] == stack[..m][..n];
        forall k | n <= k < m ensures !EntryShown(lang, stack, k) {
          assert before[..k + 1] == stack[..m][..k + 1] == stack[..k + 1];
          SameShown(lang, before, stack, k);
        }
        assert hidden + AllKids(lang, top)[0] == (hidden + [i]) + KidsIn(lang, top, i)[0];
        assert old(Here(stack)) + hidden + [i] == old(Here(stack)) + (hidden + [i]);
        hidden := hidden + [i];
        if step == VisibleStep {
          KidIsSelf(lang, top, i);
          assert hidden + [] == hidden;
          if EntryShown(lang, old(stack), n - 1) {
            SameShown(lang, old(stack), stack, n - 1);
            ParentIsNearest(lang, stack, n - 1);
          }
          return true;
        }
        KidsOfHidden(lang, top, i);
        top := top.children[i];
      }
    }

    /** Go to the last child that is visible or has visible children. */
    method GotoLastChildInternal() returns (step: Step)
      requires Valid()
      modifies this`stack
      ensures Valid()
      ensures var t := old(stack[|stack| - 1].tree);
              if step == NoStep then stack == old(stack) && AllKids(lang, t) == []
              else
                && |stack| == old(|stack|) + 1 && stack[..old(|stack|)] == old(stack)
                && var i := stack[old(|stack|)].childIndex;
                && i < |t.children| && stack[old(|stack|)].tree == t.children[i] && KidsAfter(lang, t, i) == []
                && Here(stack) == old(Here(stack)) + [i]
                && EntryShown(lang, stack, old(|stack|)) == (step == VisibleStep) == Shows(lang, t, i)
                && KidsIn(lang, t, i) != []
    {
      hide IsChild, Kids, KidsIn, AllKids, KidsAfter, Counted, Below, EntryShown, Shows, ChildStart, Between,
           StructuralIndex;
      ghost var t := stack[|stack| - 1].tree;
      var children := IterateChildren();
      NoKidsYet(lang, t);
      AllKidsIs(lang, t);
      if |children.parent.children| == 0 { return NoStep; }
      var last: Option<Entry> := None;
      step := NoStep;
      ghost var i: nat, l: nat := 0, 0;
      while true
        invariant Valid() && stack == old(stack)
        invariant fresh(children) && children.Valid() && children.childIndex == i <= |t.children|
        invariant step == NoStep ==> last == None && Kids(lang, t, i) == []
        invariant step != NoStep ==>
          && l < i && last == Some(ChildEntry(lang, t, children.start, children.first, l))
          && KidsIn(lang, t, l) != [] && Kids(lang, t, i) == Kids(lang, t, l + 1)
          && (step == VisibleStep) == Shows(lang, t, l)
        decreases |t.children| - i
      {
        var next := children.Next();
        if next.None? { break; }
        PushLinked(lang, root, start, stack, i);
        KidsStep(lang, t, i);
        if next.value.visible {
          last, step, l := Some(next.value.entry), VisibleStep, i;
        } else if next.value.entry.tree.data.VisibleChildren() > 0 {
          last, step, l := Some(next.value.entry), HiddenStep, i;
        }
        i := i + 1;
      }
      if last.Some? {
        PushLinked(lang, root, start, stack, l);
        NoneAfter(lang, t, l);
        stack := stack + [last.value];
      }
    }

    /** Go to the last visible child. */
    method GotoLastChild() returns (moved: bool)
      requires Valid()
      modifies this`stack
      ensures Valid()
      ensures var kids := AllKids(lang, old(stack[|stack| - 1].tree));
              && moved == (kids != [])
              && if moved then Here(stack) == old(Here(stack)) + kids[|kids| - 1] && EntryShown(lang, stack, |stack| - 1)
                 else stack == old(stack)
      ensures moved && EntryShown(lang, old(stack), old(|stack|) - 1) ==> |stack| > 1 && ParentOf(lang, stack) == old(stack)
    {
      hide IsChild, Kids, KidsIn, AllKids, KidsAfter, Counted, Below, EntryShown, Shows;
      ghost var n, kids, top := |stack|, AllKids(lang, stack[|stack| - 1].tree), stack[|stack| - 1].tree;
      assert Here(stack) + [] == Here(stack) && (kids != [] ==> [] + kids[|kids| - 1] == kids[|kids| - 1]);
      ghost var hidden: Path := [];
      while true
        invariant Valid() && |stack| >= n && stack[..n] == old(stack)
        invariant top == stack[|stack| - 1].tree && (AllKids(lang, top) == [] ==> stack == old(stack) && kids == [])
        invariant Here(stack) == old(Here(stack)) + hidden
        invariant var ks := AllKids(lang, top);
                  ks != [] ==> kids != [] && kids[|kids| - 1] == hidden + ks[|ks| - 1]
        invariant forall k :: n <= k < |stack| ==> !EntryShown(lang, stack, k)
        decreases top
      {
        ghost var before := stack;
        var step := GotoLastChildInternal();
        if step == NoStep { return false; }
        ghost var m, i := |before|, stack[|stack| - 1].childIndex;
        LastKid(lang, top, i);
        assert stack[..n] == stack[..m][..n];
        forall k | n <= k < m ensures !EntryShown(lang, stack, k) {
          assert before[..k + 1] == stack[..m][..k + 1] == stack[..k + 1];
          SameShown(lang, before, stack, k);
        }
        ghost var last := KidsIn(lang, top, i)[|KidsIn(lang, top, i)| - 1];
        assert hidden + ([i] + last) == (hidden + [i]) + last;
        assert old(Here(stack)) + hidden + [i] == old(Here(stack)) + (hidden + [i]);
        hidden := hidden + [i];
        if step == VisibleStep {
          KidIsSelf(lang, top, i);
          assert hidden + [] == hidden;
          if EntryShown(lang, old(stack), n - 1) {
            SameShown(lang, old(stack), stack, n - 1);
            ParentIsNearest(lang, stack, n - 1);
          }
          return true;
        }
        KidsOfHidden(lang, top, i);
        top := top.children[i];
      }
    }

    /** Go to the visible parent. */
    method GotoParent() returns (moved: bool)
      requires Valid()
      modifies this`stack
      ensures Valid() && moved == (old(|stack|) > 1)
      ensures stack == if moved then ParentOf(lang, old(stack)) else old(stack)
    {
      var i := |stack| - 2;
      while i >= 0
        invariant -1 <= i <= |stack| - 2 && stack == old(stack) && (|stack| > 1 ==> i >= 0)
        invariant forall k :: i < k < |stack| - 1 ==> !EntryShown(lang, stack, k)
      {
        if EntryShown(lang, stack, i) {
          ParentIsNearest(lang, stack, i);
          TakeLinked(lang, root, start, stack, i + 1);
          stack := stack[..i + 1];
          return true;
        }
        i := i - 1;
      }
      return false;
    }

    /** Go to the next sibling, of the node or of its hidden ancestors, that is visible or has visible children. */
    method GotoNextSiblingInternal() returns (step: Step)
      requires Valid()
      modifies this`stack
      ensures Valid()
      ensures step == NoStep ==>
        stack == old(stack) && (|stack| > 1 ==> LaterSiblings(lang, root, start, stack) == [])
      ensures step != NoStep ==> old(|stack|) > 1 && SiblingStep(lang, root, start, old(stack), stack, step)
    {
      hide Linked, Kids, KidsIn, AllKids, KidsAfter, Counted, Below, EntryShown, Shows, LaterFrom, LaterSiblings,
           SiblingStep, NearestShown, Here, Between, ChildStart;
      var initial := stack;
      RootEntry(lang, root, start, initial);
      ghost var a: nat := if |initial| > 1 then NearestShown(lang, initial, |initial| - 2) else 0;
      LaterStart(lang, root, start, initial, a);
      while |stack| > 1
        invariant Valid() && 1 <= |stack| <= |initial| && stack == initial[..|stack|]
        invariant |initial| > 1 ==> a < |stack| && LaterSiblings(lang, root, start, initial)
                                                   == LaterFrom(lang, root, start, initial, a, |stack| - 1)
        invariant |initial| > 1 ==> LaterFrom(lang, root, start, initial, a, a) == []
        decreases |stack|
      {
        ghost var m := |stack| - 1;
        var entry := stack[|stack| - 1];
        LinkedUpTo(lang, root, start, initial, m);
        stack := stack[..|stack| - 1];
        assert stack == initial[..m];
        var children := IterateChildren();
        children.SkipTo(entry);
        var next := children.Next();
        if next.value.visible && |stack| + 1 < |initial| {
          break;
        }
        LaterStep(lang, root, start, initial, a, m);
        step := PushNextChild(children);
        if step != NoStep {
          SiblingFound(lang, root, start, initial, stack, step, a);
          return step;
        }
        AllKidsIs(lang, children.parent);
        NoneAfter(lang, children.parent, entry.childIndex);
      }
      stack := initial;
      return NoStep;
    }

    /** Go to the next visible sibling. */
    method GotoNextSibling() returns (moved: bool)
      requires Valid()
      modifies this`stack
      ensures Valid()
      ensures moved == (old(|stack|) > 1 && LaterSiblings(lang, root, start, old(stack)) != [])
      ensures if moved then
                && Here(stack) == Between(old(stack), 0, NearestShown(lang, old(stack), old(|stack|) - 2))
                                  + LaterSiblings(lang, root, start, old(stack))[0]
                && EntryShown(lang, stack, |stack| - 1)
                && |stack| > 1 && ParentOf(lang, stack) == ParentOf(lang, old(stack))
              else stack == old(stack)
    {
      hide Linked, Kids, AllKids, EntryShown, LaterSiblings, Here, Between, NearestShown;
      var step := GotoNextSiblingInternal();
      if step == NoStep { return false; }
      ghost var a := NearestShown(lang, old(stack), old(|stack|) - 2);
      ghost var now := stack;
      SameParent(lang, old(stack), now, a);
      if step == HiddenStep {
        var found := GotoFirstChild();
        assert found;
        FurtherDown(lang, now, stack, a);
      } else {
        assert Here(now) + [] == Here(now);
      }
      return true;
    }

    /** Push the first child past the goal that is or has a visible child, and count those before it. */
    method PushFirstPast(goalByte: nat, goalPoint: Point, before: nat) returns (step: Step, index: nat)
      requires Valid()
      modifies this`stack
      ensures Valid()
      ensures var top, m := old(stack[|stack| - 1]), old(|stack|);
              var i := FirstPast(lang, top.tree, top.position, goalByte, goalPoint, 0);
              if step == NoStep then stack == old(stack) && i == |top.tree.children|
              else
                && |stack| == m + 1 && stack[..m] == old(stack)
                && i < |top.tree.children| && stack[m].tree == top.tree.children[i]
                && stack[m].position == ChildStart(top.tree, top.position, i)
                && Here(stack) == old(Here(stack)) + [i]
                && index == before + |Kids(lang, top.tree, i)|
                && EntryShown(lang, stack, m) == (step == VisibleStep) == Shows(lang, top.tree, i)
    {
      hide IsChild, Kids, KidsIn, AllKids, Counted, Below, EntryShown, Shows, FirstPast, IsPastKid, Past, ChildStart, Here;
      ghost var top, i := stack[|stack| - 1], 0;
      ghost var t := top.tree;
      index := before;
      var children := IterateChildren();
      NoKidsYet(lang, t);
      while true
        invariant stack == old(stack) && Valid()
        invariant fresh(children) && children.Valid() && children.childIndex == i <= |t.children|
        invariant index == before + |Kids(lang, t, i)|
        invariant FirstPast(lang, t, top.position, goalByte, goalPoint, 0)
               == FirstPast(lang, t, top.position, goalByte, goalPoint, i)
        decreases |t.children| - i
      {
        var next := children.Next();
        if next.None? {
          FirstPastEnds(lang, t, top.position, goalByte, goalPoint);
          return NoStep, index;
        }
        var entry := next.value.entry;
        var entryEnd := Add(entry.position, entry.tree.data.size);
        var visibleChildCount := entry.tree.data.VisibleChildren();
        PushLinked(lang, root, start, stack, i);
        KidsStep(lang, t, i);
        FirstPastStep(lang, t, top.position, goalByte, goalPoint, i);
        if Past(entryEnd, goalByte, goalPoint) {
          if next.value.visible {
            stack := stack + [entry];
            return VisibleStep, index;
          }
          if visibleChildCount > 0 {
            stack := stack + [entry];
            return HiddenStep, index;
          }
        } else if next.value.visible {
          index := index + 1;
        } else {
          index := index + visibleChildCount;
        }
        i := i + 1;
      }
    }

    /**
     * Go to the first visible child that ends beyond the goal, looking into hidden children that do,
     * and return its number among the visible children.
     */
    method GotoFirstChildForByteAndPoint(goalByte: nat, goalPoint: Point) returns (index: int)
      requires Valid()
      modifies this`stack
      ensures Valid()
      ensures var top := old(stack[|stack| - 1]);
              match Search(lang, top.tree, top.position, goalByte, goalPoint)
              case None => index == -1 && stack == old(stack)
              case Some(j) =>
                && index == j && j < |AllKids(lang, top.tree)|
                && Here(stack) == old(Here(stack)) + AllKids(lang, top.tree)[j]
                && EntryShown(lang, stack, |stack| - 1)
                && (EntryShown(lang, old(stack), old(|stack|) - 1) ==>
                      |stack| > 1 && ParentOf(lang, stack) == old(stack))
    {
      hide IsChild, Kids, KidsIn, AllKids, Counted, Below, EntryShown, Shows, Search, FirstPast, IsPastKid, Here, ListedFrom,
           ParentOf, Linked;
      var initial := stack;
      RootEntry(lang, root, start, initial);
      ghost var n, top := |stack|, stack[|stack| - 1];
      ghost var kids, sought := AllKids(lang, top.tree), Search(lang, top.tree, top.position, goalByte, goalPoint);
      ghost var hidden: Path := [];
      assert Here(stack) + [] == Here(stack);
      KidsListedAll(kids);
      var visibleChildIndex: nat := 0;
      var didDescend := true;
      while didDescend
        invariant Valid() && |stack| >= n && stack[..n] == initial && top == stack[|stack| - 1]
        invariant Here(stack) == Here(initial) + hidden
        invariant didDescend ==> sought == Later(visibleChildIndex, Search(lang, top.tree, top.position, goalByte, goalPoint))
        invariant !didDescend ==> sought == None
        invariant didDescend ==> ListedFrom(kids, visibleChildIndex, hidden, AllKids(lang, top.tree))
        invariant forall k :: n <= k < |stack| ==> !EntryShown(lang, stack, k)
        decreases top.tree, didDescend
      {
        ghost var before, base := stack, visibleChildIndex;
        ghost var i := FirstPast(lang, top.tree, top.position, goalByte, goalPoint, 0);
        var step;
        step, visibleChildIndex := PushFirstPast(goalByte, goalPoint, visibleChildIndex);
        SearchStep(lang, top.tree, top.position, goalByte, goalPoint);
        if step == VisibleStep {
          KidFound(lang, top.tree, i, kids, base, hidden, before, stack, initial);
          return visibleChildIndex;
        }
        didDescend := step == HiddenStep;
        if didDescend {
          KidsListed(lang, top.tree, i, kids, base, hidden);
          StillHidden(lang, before, stack, n);
          assert Here(initial) + hidden + [i] == Here(initial) + (hidden + [i]);
          hidden := hidden + [i];
          top := stack[|stack| - 1];
        }
      }
      stack := initial;
      return -1;
    }

    /** Push the child that the goal is in. */
    method PushContaining(children: ChildIterator, goal: nat) returns (step: Step)
      requires Valid() && InRange(lang, stack, goal)
      requires var top := stack[|stack| - 1];
               && children.Valid() && children.childIndex == 0 && children.descendantIndex <= goal
               && children.lang == lang && children.parent == top.tree && children.start == top.position
               && children.first == FirstInside(lang, stack, |stack| - 1)
      modifies this`stack, children
      ensures Valid() && stack != [] && InRange(lang, stack, goal)
      ensures if step == NoStep then stack == old(stack) && children.parent.children == []
              else
                && |stack| == old(|stack|) + 1 && stack[|stack| - 1].tree in children.parent.children
                && EntryShown(lang, stack, |stack| - 1) == (step == VisibleStep)
    {
      hide Linked, Visible, Below, Counted, Shows, EntryShown, Here, ChildStart;
      ghost var t, i := children.parent, 0;
      RootEntry(lang, root, start, stack);
      EntryCounts(lang, root, start, stack, |stack| - 1);
      NoneBelow(lang, t);
      while true
        invariant stack == old(stack) && Valid()
        invariant children.Valid() && children.childIndex == i <= |t.children|
        invariant children.descendantIndex <= goal
        decreases |t.children| - i
      {
        var next := children.Next();
        if next.None? {
          return NoStep;
        }
        if children.descendantIndex > goal {
          PushLinked(lang, root, start, stack, i);
          BelowStep(lang, t, i);
          stack := stack + [next.value.entry];
          return if next.value.visible then VisibleStep else HiddenStep;
        }
        i := i + 1;
      }
    }

    /** Go to the visible node with this number, in preorder from the root; past the last, stay at the root. */
    method GotoDescendant(goal: nat)
      requires Valid()
      modifies this`stack
      ensures Valid()
      ensures var all := Visible(lang, root, true);
              if goal < |all| then Here(stack) == all[goal] && EntryShown(lang, stack, |stack| - 1)
              else stack == old(stack)[..1]
    {
      hide Linked, Visible, Below, Counted, Shows, EntryShown, Here, ChildStart;
      ghost var all := Visible(lang, root, true);
      RootEntry(lang, root, start, stack);
      while true
        invariant Valid() && 0 < |stack| <= old(|stack|) && stack == old(stack)[..|stack|]
        decreases |stack|
      {
        var i := |stack| - 1;
        var entry := stack[i];
        var nextDescendantIndex :=
          entry.descendantIndex + (if EntryShown(lang, stack, i) then 1 else 0) + entry.tree.data.VisibleDescendants();
        EntryCounts(lang, root, start, stack, i);
        if entry.descendantIndex <= goal && nextDescendantIndex > goal {
          break;
        } else if |stack| <= 1 {
          RootRange(lang, root, start, stack);
          return;
        } else {
          TakeLinked(lang, root, start, stack, i);
          stack := stack[..i];
        }
      }
      InsideEntry(lang, root, start, stack, |stack| - 1, goal - stack[|stack| - 1].descendantIndex);
      assert goal < |all|;
      ghost var top := stack[|stack| - 1];
      var didDescend := true;
      while didDescend
        invariant Valid() && stack != [] && top == stack[|stack| - 1]
        invariant InRange(lang, stack, goal)
        invariant !didDescend ==> top.tree.children == []
        decreases top.tree, didDescend
      {
        didDescend := false;
        EntryCounts(lang, root, start, stack, |stack| - 1);
        var children := IterateChildren();
        if children.descendantIndex > goal {
          Arrived(lang, root, start, stack, goal);
          return;
        }
        var step := PushContaining(children, goal);
        if step == VisibleStep && stack[|stack| - 1].descendantIndex == goal {
          Arrived(lang, root, start, stack, goal);
          return;
        }
        didDescend := step != NoStep;
        top := stack[|stack| - 1];
      }
      Arrived(lang, root, start, stack, goal);
    }
  }

  lemma LinkedUpTo(lang: Language, root: Tree, start: Length, stack: seq<Entry>, n: nat)
    requires Linked(lang, root, start, stack) && 0 < n < |stack|
    ensures Linked(lang, root, start, stack[..n])
    ensures var up, i := stack[..n][n - 1], stack[n].childIndex;
            && up == stack[n - 1] && i < |up.tree.children|
            && stack[n] == ChildEntry(lang, up.tree, up.position, FirstInside(lang, stack[..n], n - 1), i)
            && EntryShown(lang, stack, n) == Shows(lang, up.tree, i)
  {
    hide Linked, IsChild, EntryShown, Counted, Shows, Below;
    LinkedStep(lang, root, start, stack, n);
    TakeLinked(lang, root, start, stack, n);
    SameInside(lang, stack, stack[..n], n - 1);
  }

  lemma SameInside(lang: Language, xs: seq<Entry>, ys: seq<Entry>, n: nat)
    requires n < |xs| && n < |ys| && xs[..n + 1] == ys[..n + 1]
    ensures xs[n] == ys[n] && FirstInside(lang, xs, n) == FirstInside(lang, ys, n)
  {
    SameShown(lang, xs, ys, n);
    assert xs[n] == xs[..n + 1][n];
  }

  lemma LaterStart(lang: Language, root: Tree, start: Length, stack: seq<Entry>, a: nat)
    requires Linked(lang, root, start, stack) && a < |stack|
    ensures LaterFrom(lang, root, start, stack, a, a) == []
    ensures |stack| > 1 && a == NearestShown(lang, stack, |stack| - 2) ==>
              LaterSiblings(lang, root, start, stack) == LaterFrom(lang, root, start, stack, a, |stack| - 1)
  {
  }

  /** The step from one stack of entries to another led to, or towards, the next visible sibling. */
  ghost predicate SiblingStep(lang: Language, root: Tree, start: Length, was: seq<Entry>, now: seq<Entry>, step: Step)
    requires Linked(lang, root, start, was) && |was| > 1
  {
    var a, later := NearestShown(lang, was, |was| - 2), LaterSiblings(lang, root, start, was);
    && |now| > a + 1 && now[..a + 1] == was[..a + 1]
    && (forall k :: a < k < |now| - 1 ==> !EntryShown(lang, now, k))
    && EntryShown(lang, now, |now| - 1) == (step == VisibleStep)
    && var inside := if step == VisibleStep then [[]] else AllKids(lang, now[|now| - 1].tree);
    && later != [] && inside != [] && Between(was, 0, a) + later[0] == Here(now) + inside[0]
  }

  lemma SiblingFound(lang: Language, root: Tree, start: Length, was: seq<Entry>, now: seq<Entry>, step: Step, a: nat)
    requires Linked(lang, root, start, was) && |was| > 1 && a == NearestShown(lang, was, |was| - 2)
    requires a + 1 < |now| <= |was| && now[..|now| - 1] == was[..|now| - 1] && step != NoStep
    requires var m := |now| - 1;
             var t, c := was[m - 1].tree, now[m].childIndex;
             && was[m].childIndex < c < |t.children| && now[m].tree == t.children[c]
             && KidsIn(lang, t, c) != [] && Kids(lang, t, c) == Kids(lang, t, was[m].childIndex + 1)
             && (EntryShown(lang, now, m) == (step == VisibleStep) == Shows(lang, t, c))
             && LaterSiblings(lang, root, start, was) == LaterFrom(lang, root, start, was, a, m)
    ensures SiblingStep(lang, root, start, was, now, step)
  {
    hide Linked, Kids, AllKids, KidsAfter, Counted, Below, EntryShown, Shows, LaterFrom, LaterSiblings, KidsIn;
    var m := |now| - 1;
    var t, i, c := was[m - 1].tree, was[m].childIndex, now[m].childIndex;
    LaterStep(lang, root, start, was, a, m);
    FirstAfter(lang, t, i, c);
    var later := LaterSiblings(lang, root, start, was);
    assert later[0] == Between(was, a, m - 1) + KidsAfter(lang, t, i)[0];
    forall k | a < k < m ensures !EntryShown(lang, now, k) {
      assert now[..k + 1] == now[..m][..k + 1] == was[..k + 1];
      SameShown(lang, now, was, k);
    }
    assert now[..a + 1] == now[..m][..a + 1] == was[..a + 1];
    if step == VisibleStep { KidIsSelf(lang, t, c); } else { KidsOfHidden(lang, t, c); }
    var inside := KidsIn(lang, t, c);
    assert Here(now) == Between(was, 0, m - 1) + [c] by {
      BetweenMore(now, 0, m);
      assert forall k :: 0 <= k < m ==> now[k] == now[..m][k] == was[k];
      assert Between(now, 0, m - 1) == Between(was, 0, m - 1);
    }
    BetweenJoins(was, 0, a, m - 1);
    assert Between(was, 0, a) + (Between(was, a, m - 1) + ([c] + inside[0]))
        == Between(was, 0, a) + Between(was, a, m - 1) + [c] + inside[0];
  }

  lemma SameParent(lang: Language, was: seq<Entry>, now: seq<Entry>, a: nat)
    requires a + 1 < |was| && a + 1 < |now| && now[..a + 1] == was[..a + 1]
    requires a == NearestShown(lang, was, |was| - 2)
    requires forall k :: a < k < |now| - 1 ==> !EntryShown(lang, now, k)
    ensures EntryShown(lang, now, a) && ParentOf(lang, now) == ParentOf(lang, was)
  {
    SameShown(lang, was, now, a);
    ParentIsNearest(lang, now, a);
  }

  lemma FurtherDown(lang: Language, now: seq<Entry>, more: seq<Entry>, a: nat)
    requires a + 1 < |now| < |more| && more[..|now|] == now && EntryShown(lang, now, a)
    requires forall k :: a < k < |now| ==> !EntryShown(lang, now, k)
    requires forall k :: |now| <= k < |more| - 1 ==> !EntryShown(lang, more, k)
    ensures ParentOf(lang, more) == ParentOf(lang, now)
  {
    forall k | a <= k < |now| ensures EntryShown(lang, more, k) == EntryShown(lang, now, k) {
      assert more[..k + 1] == more[..|now|][..k + 1] == now[..k + 1];
      SameShown(lang, more, now, k);
    }
    ParentIsNearest(lang, now, a);
    ParentIsNearest(lang, more, a);
    assert more[..a + 1] == more[..|now|][..a + 1];
  }

  // ----- what the search finds -----------------------------------------------------------------

  function Later(n: nat, found: Option<nat>): Option<nat> {
    match found case None => None case Some(j) => Some(n + j)
  }

  /** From `at` on, the visible children of the whole are those of a hidden part. */
  predicate ListedFrom(kids: seq<Path>, at: nat, prefix: Path, inside: seq<Path>) {
    at + |inside| <= |kids| && forall j :: 0 <= j < |inside| ==> kids[at + j] == prefix + inside[j]
  }

  lemma KidsListed(lang: Language, t: Tree, i: nat, kids: seq<Path>, at: nat, prefix: Path)
    requires ListedFrom(kids, at, prefix, AllKids(lang, t)) && i < |t.children|
    ensures ListedFrom(kids, at + |Kids(lang, t, i)|, prefix + [i], KidsIn(lang, t, i))
    ensures !Shows(lang, t, i) ==> KidsIn(lang, t, i) == AllKids(lang, t.children[i])
    ensures Shows(lang, t, i) ==> KidsIn(lang, t, i) == [[]]
  {
    hide Kids, AllKids, KidsIn, Shows;
    var start, inside := |Kids(lang, t, i)|, KidsIn(lang, t, i);
    if Shows(lang, t, i) { KidIsSelf(lang, t, i); } else { KidsOfHidden(lang, t, i); }
    KidsInside(lang, t, i);
    forall j | 0 <= j < |inside| ensures kids[at + start + j] == (prefix + [i]) + inside[j] {
      KidInside(lang, t, i, j);
      OneListed(kids, at, prefix, AllKids(lang, t), start + j, i, inside[j]);
    }
  }

  lemma OneListed(kids: seq<Path>, at: nat, prefix: Path, all: seq<Path>, k: nat, i: nat, path: Path)
    requires ListedFrom(kids, at, prefix, all) && k < |all| && all[k] == [i] + path
    ensures kids[at + k] == (prefix + [i]) + path
  {
    assert prefix + ([i] + path) == (prefix + [i]) + path;
  }

  lemma KidsInside(lang: Language, t: Tree, i: nat)
    requires i < |t.children|
    ensures |Kids(lang, t, i)| + |KidsIn(lang, t, i)| <= |AllKids(lang, t)|
  {
    KidsSplit(lang, t, i);
  }

  lemma FirstPastStep(lang: Language, t: Tree, pos: Length, goalByte: nat, goalPoint: Point, i: nat)
    requires i < |t.children| && Counted(lang, t.children[i])
    ensures FirstPast(lang, t, pos, goalByte, goalPoint, i)
         == if Past(Add(ChildStart(t, pos, i), t.children[i].data.size), goalByte, goalPoint)
               && (Shows(lang, t, i) || t.children[i].data.VisibleChildren() > 0)
            then i
            else FirstPast(lang, t, pos, goalByte, goalPoint, i + 1)
  {
    hide Counted, Below, Past;
    KidsStep(lang, t, i);
  }

  lemma FirstPastEnds(lang: Language, t: Tree, pos: Length, goalByte: nat, goalPoint: Point)
    ensures FirstPast(lang, t, pos, goalByte, goalPoint, |t.children|) == |t.children|
  {
  }

  lemma SearchStep(lang: Language, t: Tree, pos: Length, goalByte: nat, goalPoint: Point)
    ensures Search(lang, t, pos, goalByte, goalPoint) ==
              var i := FirstPast(lang, t, pos, goalByte, goalPoint, 0);
              if i == |t.children| then None
              else if Shows(lang, t, i) then Some(|Kids(lang, t, i)|)
              else Later(|Kids(lang, t, i)|, Search(lang, t.children[i], ChildStart(t, pos, i), goalByte, goalPoint))
  {
  }

  lemma KidsListedAll(kids: seq<Path>)
    ensures ListedFrom(kids, 0, [], kids)
  {
    forall j | 0 <= j < |kids| ensures kids[0 + j] == [] + kids[j] {
    }
  }

  lemma StillHidden(lang: Language, was: seq<Entry>, now: seq<Entry>, n: nat)
    requires |now| == |was| + 1 && now[..|was|] == was && n <= |was| && !EntryShown(lang, now, |was|)
    requires forall k :: n <= k < |was| ==> !EntryShown(lang, was, k)
    ensures forall k :: n <= k < |now| ==> !EntryShown(lang, now, k)
    ensures now[..n] == was[..n]
  {
    assert now[..n] == now[..|was|][..n];
    forall k | n <= k < |was| ensures !EntryShown(lang, now, k) {
      assert now[..k + 1] == now[..|was|][..k + 1] == was[..k + 1];
      SameShown(lang, now, was, k);
    }
  }

  lemma KidFound(lang: Language, t: Tree, i: nat, kids: seq<Path>, at: nat, hidden: Path,
                 was: seq<Entry>, now: seq<Entry>, initial: seq<Entry>)
    requires ListedFrom(kids, at, hidden, AllKids(lang, t)) && i < |t.children| && Shows(lang, t, i)
    requires initial != [] && |initial| <= |was| && was[..|initial|] == initial && Here(was) == Here(initial) + hidden
    requires |now| == |was| + 1 && now[..|was|] == was && Here(now) == Here(was) + [i]
    requires forall k :: |initial| <= k < |was| ==> !EntryShown(lang, was, k)
    ensures at + |Kids(lang, t, i)| < |kids| && Here(now) == Here(initial) + kids[at + |Kids(lang, t, i)|]
    ensures EntryShown(lang, initial, |initial| - 1) ==> ParentOf(lang, now) == initial
  {
    hide Kids, KidsIn, AllKids, Shows, EntryShown;
    KidsListed(lang, t, i, kids, at, hidden);
    var from, inside := at + |Kids(lang, t, i)|, KidsIn(lang, t, i);
    assert inside[0] == [] && kids[from + 0] == (hidden + [i]) + inside[0];
    assert now[..|initial|] == now[..|was|][..|initial|];
    forall k | |initial| - 1 <= k < |was|
      ensures EntryShown(lang, now, k) == if k < |initial| then EntryShown(lang, initial, k) else false
    {
      assert now[..k + 1] == now[..|was|][..k + 1] == was[..k + 1];
      SameShown(lang, now, was, k);
      if k < |initial| {
        assert was[..k + 1] == was[..|initial|][..k + 1];
        SameShown(lang, was, initial, k);
      }
    }
    if EntryShown(lang, initial, |initial| - 1) {
      ParentIsNearest(lang, now, |initial| - 1);
    }
  }

  /** Visible child number `k` ends beyond the goal. */
  ghost predicate KidPast(lang: Language, t: Tree, pos: Length, goalByte: nat, goalPoint: Point, k: nat)
    requires k < |AllKids(lang, t)|
  {
    var path := AllKids(lang, t)[k];
    HasPath(t, path) &&
    var end := EndAt(t, pos, path);
    && end.bytes > goalByte
    && (end.extent.row > goalPoint.row || (end.extent.row == goalPoint.row && end.extent.column > goalPoint.column))
  }

  ghost predicate AnyKidPast(lang: Language, t: Tree, pos: Length, goalByte: nat, goalPoint: Point) {
    exists k :: 0 <= k < |AllKids(lang, t)| && KidPast(lang, t, pos, goalByte, goalPoint, k)
  }

  /** A visible child inside child number `c` ends where it does as seen from there, and no later than `c`. */
  lemma KidPastInside(lang: Language, t: Tree, pos: Length, goalByte: nat, goalPoint: Point, c: nat, k: nat)
    requires Spanning(t) && c < |t.children| && k < |KidsIn(lang, t, c)|
    ensures |Kids(lang, t, c)| + k < |AllKids(lang, t)|
    ensures var past, start := KidPast(lang, t, pos, goalByte, goalPoint, |Kids(lang, t, c)| + k), ChildStart(t, pos, c);
            && (past ==> Past(Add(start, t.children[c].data.size), goalByte, goalPoint))
            && (Shows(lang, t, c) ==> past == Past(Add(start, t.children[c].data.size), goalByte, goalPoint))
            && (!Shows(lang, t, c) ==>
                  k < |AllKids(lang, t.children[c])|
                  && past == KidPast(lang, t.children[c], start, goalByte, goalPoint, k))
  {
    hide Kids, KidsIn, AllKids, Shows, Spanning, ChildStart;
    SpanningInside(t);
    KidInside(lang, t, c, k);
    if Shows(lang, t, c) { KidIsSelf(lang, t, c); } else { KidsOfHidden(lang, t, c); }
    var path, inside := AllKids(lang, t)[|Kids(lang, t, c)| + k], KidsIn(lang, t, c)[k];
    assert path[1..] == inside;
    if HasPath(t.children[c], inside) {
      Within(t.children[c], ChildStart(t, pos, c), inside);
    }
  }

  lemma SpanningInside(t: Tree)
    requires Spanning(t)
    ensures forall c :: 0 <= c < |t.children| ==> Spanning(t.children[c])
  {
  }

  lemma {:induction false} NoneBefore(lang: Language, t: Tree, pos: Length, goalByte: nat, goalPoint: Point, i: nat, c: nat)
    requires i <= |t.children| && i <= c < FirstPast(lang, t, pos, goalByte, goalPoint, i)
    ensures !IsPastKid(lang, t, pos, goalByte, goalPoint, c)
    decreases |t.children| - i
  {
    if i < c {
      NoneBefore(lang, t, pos, goalByte, goalPoint, i + 1, c);
    }
  }

  lemma {:induction false} FirstIsPast(lang: Language, t: Tree, pos: Length, goalByte: nat, goalPoint: Point, i: nat)
    requires i <= |t.children|
    ensures var at := FirstPast(lang, t, pos, goalByte, goalPoint, i);
            at < |t.children| ==> IsPastKid(lang, t, pos, goalByte, goalPoint, at)
    decreases |t.children| - i
  {
    if i < |t.children| && !IsPastKid(lang, t, pos, goalByte, goalPoint, i) {
      FirstIsPast(lang, t, pos, goalByte, goalPoint, i + 1);
    }
  }

  /** A visible child before the first child past the goal does not end beyond the goal. */
  lemma EarlierNotPast(lang: Language, t: Tree, pos: Length, goalByte: nat, goalPoint: Point, k: nat)
    requires Spanning(t) && k < |AllKids(lang, t)|
    requires k < |Kids(lang, t, FirstPast(lang, t, pos, goalByte, goalPoint, 0))|
    ensures !KidPast(lang, t, pos, goalByte, goalPoint, k)
  {
    hide KidPast, FirstPast, Past, Shows;
    var c := ChildOfKid(lang, t, FirstPast(lang, t, pos, goalByte, goalPoint, 0), k);
    NoneBefore(lang, t, pos, goalByte, goalPoint, 0, c);
    KidPastInside(lang, t, pos, goalByte, goalPoint, c, k - |Kids(lang, t, c)|);
  }

  /** What the search finds is the first visible child that ends beyond the goal. */
  lemma {:induction false} SearchIsSound(lang: Language, t: Tree, pos: Length, goalByte: nat, goalPoint: Point)
    requires Spanning(t) && Search(lang, t, pos, goalByte, goalPoint).Some?
    ensures var j := Search(lang, t, pos, goalByte, goalPoint).value;
            && j < |AllKids(lang, t)| && KidPast(lang, t, pos, goalByte, goalPoint, j)
            && forall k :: 0 <= k < j ==> !KidPast(lang, t, pos, goalByte, goalPoint, k)
    decreases t
  {
    hide Kids, KidsIn, AllKids, Shows, KidPast, FirstPast, Search, Past, ChildStart, Spanning;
    assert forall c :: 0 <= c < |t.children| ==> Spanning(t.children[c]) by { SpanningInside(t); }
    var i := FirstPast(lang, t, pos, goalByte, goalPoint, 0);
    SearchStep(lang, t, pos, goalByte, goalPoint);
    FirstIsPast(lang, t, pos, goalByte, goalPoint, 0);
    var front, j := |Kids(lang, t, i)|, Search(lang, t, pos, goalByte, goalPoint).value;
    var child, start := t.children[i], ChildStart(t, pos, i);
    if Shows(lang, t, i) {
      KidIsSelf(lang, t, i);
      KidPastInside(lang, t, pos, goalByte, goalPoint, i, 0);
    } else {
      KidsOfHidden(lang, t, i);
      SearchIsSound(lang, child, start, goalByte, goalPoint);
      KidPastInside(lang, t, pos, goalByte, goalPoint, i, j - front);
    }
    forall k | 0 <= k < j ensures !KidPast(lang, t, pos, goalByte, goalPoint, k) {
      if k < front {
        EarlierNotPast(lang, t, pos, goalByte, goalPoint, k);
      } else {
        KidPastInside(lang, t, pos, goalByte, goalPoint, i, k - front);
      }
    }
  }

  /**
   * The search goes wrong: some visible child ends beyond the goal, but the first child that does
   * is hidden, and none of its visible children does, or the search goes wrong inside it.
   */
  ghost predicate Misses(lang: Language, t: Tree, pos: Length, goalByte: nat, goalPoint: Point)
    decreases t
  {
    && AnyKidPast(lang, t, pos, goalByte, goalPoint)
    && var i := FirstPast(lang, t, pos, goalByte, goalPoint, 0);
    && i < |t.children| && !Shows(lang, t, i)
    && (!AnyKidPast(lang, t.children[i], ChildStart(t, pos, i), goalByte, goalPoint)
        || Misses(lang, t.children[i], ChildStart(t, pos, i), goalByte, goalPoint))
  }

  /** The search overlooks a visible child that ends beyond the goal exactly when it goes wrong like that. */
  lemma {:induction false} SearchMisses(lang: Language, t: Tree, pos: Length, goalByte: nat, goalPoint: Point)
    requires Spanning(t)
    ensures Search(lang, t, pos, goalByte, goalPoint) == None && AnyKidPast(lang, t, pos, goalByte, goalPoint)
       <==> Misses(lang, t, pos, goalByte, goalPoint)
    decreases t
  {
    hide Kids, KidsIn, AllKids, Shows, KidPast, FirstPast, Search;
    var i := FirstPast(lang, t, pos, goalByte, goalPoint, 0);
    SearchStep(lang, t, pos, goalByte, goalPoint);
    if AnyKidPast(lang, t, pos, goalByte, goalPoint) {
      var k :| 0 <= k < |AllKids(lang, t)| && KidPast(lang, t, pos, goalByte, goalPoint, k);
      AllKidsIs(lang, t);
      if i == |t.children| {
        EarlierNotPast(lang, t, pos, goalByte, goalPoint, k);
      } else {
        var child, start := t.children[i], ChildStart(t, pos, i);
        SearchMisses(lang, child, start, goalByte, goalPoint);
        if Search(lang, child, start, goalByte, goalPoint).Some? {
          SearchIsSound(lang, child, start, goalByte, goalPoint);
        }
      }
    }
  }

  /** One of the node's visible children ends where the node does. */
  predicate EndsWithKid(lang: Language, t: Tree)
    decreases t
  {
    exists i :: 0 <= i < |t.children| && (Shows(lang, t, i) || EndsWithKid(lang, t.children[i]))
      && SizeOf(Datas(t.children)[..i + 1]) == t.data.size
  }

  /** No hidden node goes on after its last visible child. */
  predicate NoHiddenTail(lang: Language, t: Tree)
    decreases t
  {
    forall i :: 0 <= i < |t.children| ==>
      && NoHiddenTail(lang, t.children[i])
      && (!Shows(lang, t, i) && KidsIn(lang, t, i) != [] ==> EndsWithKid(lang, t.children[i]))
  }

  lemma {:induction false} LastKidIsPast(lang: Language, t: Tree, pos: Length, goalByte: nat, goalPoint: Point)
    requires Spanning(t) && EndsWithKid(lang, t) && Past(Add(pos, t.data.size), goalByte, goalPoint)
    ensures AnyKidPast(lang, t, pos, goalByte, goalPoint)
    decreases t
  {
    hide Kids, KidsIn, AllKids, Shows, KidPast, Past, ChildStart, Spanning;
    SpanningInside(t);
    var i :| 0 <= i < |t.children| && (Shows(lang, t, i) || EndsWithKid(lang, t.children[i]))
      && SizeOf(Datas(t.children)[..i + 1]) == t.data.size;
    ChildEnd(t, pos, i);
    var child, start, k := t.children[i], ChildStart(t, pos, i), 0;
    if Shows(lang, t, i) {
      KidIsSelf(lang, t, i);
    } else {
      KidsOfHidden(lang, t, i);
      LastKidIsPast(lang, child, start, goalByte, goalPoint);
      k :| 0 <= k < |AllKids(lang, child)| && KidPast(lang, child, start, goalByte, goalPoint, k);
    }
    KidPastInside(lang, t, pos, goalByte, goalPoint, i, k);
    assert KidPast(lang, t, pos, goalByte, goalPoint, |Kids(lang, t, i)| + k);
  }

  lemma {:induction false} NothingIsMissed(lang: Language, t: Tree, pos: Length, goalByte: nat, goalPoint: Point)
    requires Spanning(t) && NoHiddenTail(lang, t)
    ensures !Misses(lang, t, pos, goalByte, goalPoint)
    decreases t
  {
    hide Kids, KidsIn, AllKids, Shows, KidPast, Past, ChildStart, Spanning, FirstPast, EndsWithKid, AnyKidPast;
    SpanningInside(t);
    FirstIsPast(lang, t, pos, goalByte, goalPoint, 0);
    var i := FirstPast(lang, t, pos, goalByte, goalPoint, 0);
    if i < |t.children| && !Shows(lang, t, i) {
      var child, start := t.children[i], ChildStart(t, pos, i);
      LastKidIsPast(lang, child, start, goalByte, goalPoint);
      NothingIsMissed(lang, child, start, goalByte, goalPoint);
    }
  }

  /** In a tree without hidden tails the search finds a visible child that ends beyond the goal whenever there is one. */
  lemma SearchIsComplete(lang: Language, t: Tree, pos: Length, goalByte: nat, goalPoint: Point)
    requires Spanning(t) && NoHiddenTail(lang, t)
    ensures Search(lang, t, pos, goalByte, goalPoint).Some? <==> AnyKidPast(lang, t, pos, goalByte, goalPoint)
  {
    hide Search, AnyKidPast, Misses, KidPast, AllKids, Spanning, NoHiddenTail;
    NothingIsMissed(lang, t, pos, goalByte, goalPoint);
    SearchMisses(lang, t, pos, goalByte, goalPoint);
    if Search(lang, t, pos, goalByte, goalPoint).Some? {
      SearchIsSound(lang, t, pos, goalByte, goalPoint);
      FoundIsPast(lang, t, pos, goalByte, goalPoint, Search(lang, t, pos, goalByte, goalPoint).value);
    }
  }

  lemma FoundIsPast(lang: Language, t: Tree, pos: Length, goalByte: nat, goalPoint: Point, k: nat)
    requires k < |AllKids(lang, t)| && KidPast(lang, t, pos, goalByte, goalPoint, k)
    ensures AnyKidPast(lang, t, pos, goalByte, goalPoint)
  {
  }

  const ONE_BYTE: Length := Length(1, Point(0, 1))

  function Node(visible: bool, size: Length, visibleInside: nat, children: seq<Tree>): Tree {
    Tree(Data(false, 1, 0, ZERO, size, 0, 0, visible, visible, false, false, false, false, false,
              |children|, visibleInside, visibleInside, visibleInside, 0, 0, 0, 1, 0), children)
  }

  /** A visible byte and a hidden one, in a hidden node. */
  const HIDDEN_TAIL: Tree := Node(false, Length(2, Point(0, 2)), 1, [Node(true, ONE_BYTE, 0, []), Node(false, ONE_BYTE, 0, [])])

  /** That node, and another visible byte. */
  const AFTER_HIDDEN_TAIL: Tree := Node(true, Length(3, Point(0, 3)), 2, [HIDDEN_TAIL, Node(true, ONE_BYTE, 0, [])])

  lemma KidsOfTwo(lang: Language, t: Tree)
    requires |t.children| == 2
    ensures AllKids(lang, t) == Under([0], KidsIn(lang, t, 0)) + Under([1], KidsIn(lang, t, 1))
  {
    assert Kids(lang, t, 0) == [];
    assert Kids(lang, t, 1) == [] + Under([0], KidsIn(lang, t, 0));
  }

  lemma UnderOne(i: nat, path: Path)
    ensures Under([i], [path]) == [[i] + path] && [i] + [] == [i] && [0] + [0] == [0, 0]
  {
  }

  lemma SpanOfTwo(t: Tree)
    requires |t.children| == 2 && Spanning(t.children[0]) && Spanning(t.children[1])
    requires t.data.padding == t.children[0].data.padding
    requires t.data.size == Add(t.children[0].data.size, t.children[1].data.Total())
    ensures Spanning(t)
  {
    assert SizeOf(Datas(t.children)[..1]) == t.children[0].data.size;
  }

  lemma TailKids(lang: Language)
    ensures AllKids(lang, HIDDEN_TAIL) == [[0]]
    ensures !Shows(lang, AFTER_HIDDEN_TAIL, 0) && AllKids(lang, AFTER_HIDDEN_TAIL) == [[0, 0], [1]]
  {
    var t, h := AFTER_HIDDEN_TAIL, HIDDEN_TAIL;
    assert Shows(lang, h, 0) && !Shows(lang, h, 1) && !Shows(lang, t, 0) && Shows(lang, t, 1);
    assert AllKids(lang, h.children[1]) == [];
    KidIsSelf(lang, h, 0);
    KidsOfHidden(lang, h, 1);
    KidsOfHidden(lang, t, 0);
    KidIsSelf(lang, t, 1);
    hide AllKids, KidsIn, Shows;
    KidsOfTwo(lang, h);
    KidsOfTwo(lang, t);
    UnderOne(0, []);
    UnderOne(1, []);
    UnderOne(0, [0]);
    assert Under([1], []) == [] && [[0]] + [] == [[0]];
  }

  lemma TailSpans()
    ensures Spanning(HIDDEN_TAIL) && Spanning(AFTER_HIDDEN_TAIL)
  {
    var t, h := AFTER_HIDDEN_TAIL, HIDDEN_TAIL;
    assert Spanning(h.children[0]) && Spanning(h.children[1]) && Spanning(t.children[1]);
    SpanOfTwo(h);
    SpanOfTwo(t);
  }

  lemma TailIsCounted(lang: Language)
    ensures Counted(lang, AFTER_HIDDEN_TAIL)
  {
    var t, h := AFTER_HIDDEN_TAIL, HIDDEN_TAIL;
    TailKids(lang);
    assert Counted(lang, h.children[0]) && Counted(lang, h.children[1]) && Counted(lang, t.children[1]);
    BelowOfTwo(lang, h);
    BelowOfTwo(lang, t);
  }

  lemma BelowOfTwo(lang: Language, t: Tree)
    requires |t.children| == 2
    ensures |Below(lang, t, 2)| == |Visible(lang, t.children[0], Shows(lang, t, 0))| + |Visible(lang, t.children[1], Shows(lang, t, 1))|
  {
    assert Below(lang, t, 0) == [];
  }

  lemma TailEnds()
    ensures HasPath(HIDDEN_TAIL, [0]) && EndAt(HIDDEN_TAIL, ZERO, [0]) == ONE_BYTE
    ensures HasPath(AFTER_HIDDEN_TAIL, [1]) && EndAt(AFTER_HIDDEN_TAIL, ZERO, [1]) == Length(3, Point(0, 3))
    ensures ChildStart(AFTER_HIDDEN_TAIL, ZERO, 0) == ZERO
  {
    TailParts();
    hide EndAt, HasPath, ChildStart, Node;
    EndsOfTwo(HIDDEN_TAIL);
    EndsOfTwo(AFTER_HIDDEN_TAIL);
  }

  lemma TailParts()
    ensures var h, t := HIDDEN_TAIL, AFTER_HIDDEN_TAIL;
            && |h.children| == 2 && h.children[0].data.size == ONE_BYTE
            && |t.children| == 2 && t.children[0].data.size == Length(2, Point(0, 2))
            && t.children[1].data.padding == ZERO && t.children[1].data.size == ONE_BYTE
  {
  }

  lemma EndsOfTwo(t: Tree)
    requires |t.children| == 2
    ensures ChildStart(t, ZERO, 0) == ZERO
    ensures HasPath(t, [0]) && EndAt(t, ZERO, [0]) == Add(ZERO, t.children[0].data.size)
    ensures HasPath(t, [1]) && EndAt(t, ZERO, [1]) == Add(Add(Add(ZERO, t.children[0].data.size), t.children[1].data.padding), t.children[1].data.size)
  {
    hide EndAt, HasPath;
    EndOfChild(t, ZERO, 0);
    EndOfChild(t, ZERO, 1);
    assert ChildStart(t, ZERO, 1) == Add(Add(ChildStart(t, ZERO, 0), t.children[0].data.size), t.children[1].data.padding);
  }

  lemma EndOfChild(t: Tree, pos: Length, i: nat)
    requires i < |t.children|
    ensures HasPath(t, [i]) && EndAt(t, pos, [i]) == Add(ChildStart(t, pos, i), t.children[i].data.size)
  {
    assert [i][1..] == [];
    assert StartAt(t.children[i], ChildStart(t, pos, i), []) == ChildStart(t, pos, i);
    assert NodeAt(t, [i]) == t.children[i];
  }

  lemma FirstIsHidden(lang: Language)
    ensures FirstPast(lang, AFTER_HIDDEN_TAIL, ZERO, 1, Point(0, 0), 0) == 0
  {
    TailKids(lang);
    KidsOfHidden(lang, AFTER_HIDDEN_TAIL, 0);
    hide AllKids, Kids, KidsIn, Shows;
    assert IsPastKid(lang, AFTER_HIDDEN_TAIL, ZERO, 1, Point(0, 0), 0);
  }

  /** From byte 1 on, the search looks in the hidden node, finds nothing, and overlooks the node after it. */
  lemma AnOverlookedChild(lang: Language)
    ensures Spanning(AFTER_HIDDEN_TAIL) && Counted(lang, AFTER_HIDDEN_TAIL)
    ensures Search(lang, AFTER_HIDDEN_TAIL, ZERO, 1, Point(0, 0)) == None
    ensures |AllKids(lang, AFTER_HIDDEN_TAIL)| == 2 && KidPast(lang, AFTER_HIDDEN_TAIL, ZERO, 1, Point(0, 0), 1)
  {
    hide AllKids, Kids, KidsIn, Shows, Search, FirstPast, Spanning, Counted, EndAt, HasPath, ChildStart;
    TailKids(lang);
    TailSpans();
    TailIsCounted(lang);
    TailEnds();
    FirstIsHidden(lang);
    assert KidPast(lang, AFTER_HIDDEN_TAIL, ZERO, 1, Point(0, 0), 1);
    assert !AnyKidPast(lang, HIDDEN_TAIL, ZERO, 1, Point(0, 0));
    assert Misses(lang, AFTER_HIDDEN_TAIL, ZERO, 1, Point(0, 0));
    SearchMisses(lang, AFTER_HIDDEN_TAIL, ZERO, 1, Point(0, 0));
  }

  // ----- going to a descendant -----------------------------------------------------------------

  /** The goal is the number of the last entry or of a node inside it. */
  predicate InRange(lang: Language, stack: seq<Entry>, goal: nat)
    requires stack != []
  {
    var n := |stack| - 1;
    stack[n].descendantIndex <= goal < stack[n].descendantIndex + |Visible(lang, stack[n].tree, EntryShown(lang, stack, n))|
  }

  lemma EntryCounts(lang: Language, root: Tree, start: Length, stack: seq<Entry>, n: nat)
    requires Linked(lang, root, start, stack) && n < |stack|
    ensures var t, self := stack[n].tree, if EntryShown(lang, stack, n) then 1 else 0;
            && |Visible(lang, t, EntryShown(lang, stack, n))| == self + t.data.VisibleDescendants()
            && |Below(lang, t, |t.children|)| == t.data.VisibleDescendants()
  {
    TopCounted(lang, root, start, stack, n);
  }

  lemma RootRange(lang: Language, root: Tree, start: Length, stack: seq<Entry>)
    requires Linked(lang, root, start, stack)
    ensures stack[0].descendantIndex == 0 && stack[0].tree == root && EntryShown(lang, stack, 0)
  {
  }

  lemma NoneBelow(lang: Language, t: Tree)
    ensures Below(lang, t, 0) == []
  {
  }

  /** A node in range that is visible and has the goal for its number, or has no children, is the goal. */
  lemma Arrived(lang: Language, root: Tree, start: Length, stack: seq<Entry>, goal: nat)
    requires Linked(lang, root, start, stack) && InRange(lang, stack, goal)
    requires var n := |stack| - 1;
             || (EntryShown(lang, stack, n) && stack[n].descendantIndex == goal)
             || stack[n].tree.children == []
    ensures var all := Visible(lang, root, true);
            goal < |all| && Here(stack) == all[goal] && EntryShown(lang, stack, |stack| - 1)
  {
    var n := |stack| - 1;
    InsideEntry(lang, root, start, stack, n, goal - stack[n].descendantIndex);
    hide Linked;
    assert Here(stack) + [] == Here(stack);
  }
}
