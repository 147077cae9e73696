/**
 * An edit of a tree follows the edit of its text: at every node, bytes, rows and columns are those
 * of the piece of the new text that the node stands for.
 */
module EditTexts {
  import opened Options
  import opened Lengths
  import opened Subtrees
  import opened Edits

  // ----- measuring text ------------------------------------------------------------------------

  /** Where a text ends, if it starts at the beginning of a line; one character is one byte. */
  function Extent(text: string): Point {
    if text == "" then Point(0, 0)
    else
      var p := Extent(text[..|text| - 1]);
      if text[|text| - 1] == '\n' then Point(p.row + 1, 0) else Point(p.row, p.column + 1)
  }

  function Measure(text: string): Length { Length(|text|, Extent(text)) }

  lemma ExtentStep(text: string, c: char)
    ensures Extent(text + [c])
         == if c == '\n' then Point(Extent(text).row + 1, 0) else Point(Extent(text).row, Extent(text).column + 1)
    ensures Extent("") == Point(0, 0)
  {
    assert (text + [c])[..|text|] == text;
  }

  lemma {:induction false} MeasureJoins(x: string, y: string)
    ensures Measure(x + y) == Add(Measure(x), Measure(y))
    decreases |y|
  {
    hide Extent;
    if y == "" {
      assert x + y == x;
      ExtentStep("", ' ');
    } else {
      var front, c := y[..|y| - 1], y[|y| - 1];
      assert x + y == (x + front) + [c] && y == front + [c];
      MeasureJoins(x, front);
      assert Extent(x + front) == Measure(x + front).extent && Extent(x) == Measure(x).extent;
      ExtentStep(x + front, c);
      ExtentStep(front, c);
    }
  }

  /** Taking off what a text begins with. */
  lemma MeasureCuts(x: string, y: string)
    ensures Sub(Measure(x + y), Measure(x)) == Measure(y) == SaturatingSub(Measure(x + y), Measure(x))
    ensures SaturatingSub(Measure(x), Measure(x + y)) == ZERO == Measure("")
  {
    hide Extent, PointAdd, PointSub;
    MeasureJoins(x, y);
    LengthMonoid(Measure(x), Measure(y), ZERO);
    ExtentStep("", ' ');
    assert y == "" ==> x + y == x;
  }

  lemma {:induction false} FlatExtent(text: string)
    ensures Extent(text).row == 0 ==> Extent(text) == Point(0, |text|)
  {
    if text != "" {
      FlatExtent(text[..|text| - 1]);
    }
  }

  // ----- the text of a tree --------------------------------------------------------------------

  /** The node stands for this text, its children for the pieces of it one after the other. */
  predicate Spells(t: Tree, text: string)
    decreases t, 0
  {
    && t.data.Total() == Measure(text)
    && t.data.padding.bytes <= |text| && t.data.padding == Measure(text[..t.data.padding.bytes])
    && (t.children != [] ==> SpellAll(t.children, text))
  }

  predicate SpellAll(ts: seq<Tree>, text: string)
    decreases ts, 1
  {
    if ts == [] then text == ""
    else
      var k := ts[0].data.Total().bytes;
      k <= |text| && Spells(ts[0], text[..k]) && SpellAll(ts[1..], text[k..])
  }

  /** The edit puts `inserted` in the place of `doc[a..b]`. */
  ghost predicate Describes(e: Edit, doc: string, a: nat, b: nat, inserted: string) {
    && a <= b <= |doc|
    && e == Edit(Measure(doc[..a]), Measure(doc[..b]), Measure(doc[..a] + inserted))
  }

  /** What becomes of the first part of a text: what is inserted just behind it belongs to it only if nothing is replaced. */
  function EditedText(text: string, a: nat, b: nat, inserted: string): string
    requires a <= b
  {
    if a < |text| || (a == |text| && a == b) then text[..a] + inserted + text[if b < |text| then b else |text|..]
    else text
  }

  // ----- one node ------------------------------------------------------------------------------

  lemma Prefixes(doc: string, i: nat, j: nat)
    requires i <= j <= |doc|
    ensures doc[..j] == doc[..i] + doc[i..j] && doc[..i] == doc[..j][..i]
    ensures Sub(Measure(doc[..j]), Measure(doc[..i])) == Measure(doc[i..j]) == SaturatingSub(Measure(doc[..j]), Measure(doc[..i]))
    ensures SaturatingSub(Measure(doc[..i]), Measure(doc[..j])) == ZERO
  {
    assert doc[..j] == doc[..i] + doc[i..j];
    MeasureCuts(doc[..i], doc[i..j]);
  }

  /** The padding and size computed for a node measure its new text. */
  lemma ReshapeSpells(d: Data, e: Edit, doc: string, n: nat, a: nat, b: nat, inserted: string)
    requires Describes(e, doc, a, b, inserted) && d.padding.bytes <= n <= |doc|
    requires d.Total() == Measure(doc[..n]) && d.padding == Measure(doc[..d.padding.bytes])
    ensures var text, p := EditedText(doc[..n], a, b, inserted), EditedPadding(d.padding.bytes, e);
            && p <= |text| && Reshape(d, e) == (Measure(text[..p]), Measure(text[p..]))
  {
    hide Measure, Add, Sub, SaturatingSub;
    var p := d.padding.bytes;
    MeasuredSizes(doc, n, a, b, inserted, p);
    Prefixes(doc, p, n);
    assert d.size == Measure(doc[p..n]) by {
      LengthMonoid(d.padding, d.size, ZERO);
    }
    var text := EditedText(doc[..n], a, b, inserted);
    if b <= p {
      Prefixes(doc, b, p);
      MeasureJoins(doc[..a] + inserted, doc[b..p]);
      assert text == doc[..a] + inserted + doc[b..p] + doc[p..n];
      var q := a + |inserted| + (p - b);
      assert text[..q] == doc[..a] + inserted + doc[b..p] && text[q..] == doc[p..n];
    } else if a < p {
      var q := a + |inserted|;
      Prefixes(doc, p, b);
      assert text[..q] == doc[..a] + inserted;
      if b < n {
        assert doc[p..n] == doc[p..b] + doc[b..n];
        MeasureCuts(doc[p..b], doc[b..n]);
        assert text[q..] == doc[b..n];
      } else {
        assert doc[p..b] == doc[p..n] + doc[n..b];
        MeasureCuts(doc[p..n], doc[n..b]);
        assert text[q..] == "";
      }
    } else {
      assert text[..p] == doc[..p];
      if a < n || (a == n && a == b) {
        assert doc[..a] + inserted == doc[..p] + (doc[p..a] + inserted);
        MeasureCuts(doc[..p], doc[p..a] + inserted);
        if b < n {
          Prefixes(doc, b, n);
          assert text == doc[..p] + ((doc[p..a] + inserted) + doc[b..n]);
          MeasureJoins(doc[p..a] + inserted, doc[b..n]);
          assert text[p..] == (doc[p..a] + inserted) + doc[b..n];
        } else {
          Prefixes(doc, n, b);
          assert text == doc[..p] + (doc[p..a] + inserted);
          assert text[p..] == doc[p..a] + inserted;
          LengthMonoid(Measure(doc[p..a] + inserted), ZERO, ZERO);
        }
      } else {
        assert text[p..] == doc[p..n];
      }
    }
  }

  lemma MeasuredSizes(doc: string, n: nat, a: nat, b: nat, inserted: string, p: nat)
    requires a <= b <= |doc| && p <= n <= |doc|
    ensures Measure(doc[..a]).bytes == a && Measure(doc[..b]).bytes == b && Measure(doc[..n]).bytes == n
    ensures Measure(doc[..p]).bytes == p && Measure(doc[..a] + inserted).bytes == a + |inserted|
  {
  }

  /** The node's new data measure its new text: an inline leaf has no rows and a column for each byte. */
  lemma DataSpells(d: Data, e: Edit, doc: string, n: nat, a: nat, b: nat, inserted: string)
    requires Describes(e, doc, a, b, inserted) && d.padding.bytes <= n <= |doc|
    requires d.Total() == Measure(doc[..n]) && d.padding == Measure(doc[..d.padding.bytes])
    ensures var text, x := EditedText(doc[..n], a, b, inserted), EditData(d, e);
            x.Total() == Measure(text) && x.padding.bytes <= |text| && x.padding == Measure(text[..x.padding.bytes])
  {
    hide Reshape, Add, Extent, EditedPadding;
    ReshapeSpells(d, e, doc, n, a, b, inserted);
    var text, p := EditedText(doc[..n], a, b, inserted), EditedPadding(d.padding.bytes, e);
    assert text == text[..p] + text[p..];
    MeasureJoins(text[..p], text[p..]);
    FlatExtent(text[p..]);
  }

  /** Text that the edit does not touch stays. */
  lemma SkippedText(d: Data, e: Edit, doc: string, n: nat, a: nat, b: nat, inserted: string)
    requires Describes(e, doc, a, b, inserted) && n <= |doc| && d.Total().bytes == n && Skips(d, e)
    ensures EditedText(doc[..n], a, b, inserted) == doc[..n]
  {
    hide Extent;
    if a == n && a == b {
      assert doc[..n][..a] + inserted + doc[..n][n..] == doc[..n];
    }
  }

  lemma EditedData(t: Tree, e: Edit)
    requires !Skips(t.data, e)
    ensures EditTree(t, e).data == EditData(t.data, e)
  {
    hide EditData, EditsOf, EditChild;
  }

  lemma ResizedLengths(d: Data, padding: Length, size: Length)
    ensures var x := Resized(d, padding, size); x.padding == padding && (!d.inline ==> x.size == size)
  {
  }

  /** In terms of lengths: what follows the replaced text follows the new text, by as many rows and columns. */
  lemma EditMovesLengths(t: Tree, e: Edit, r: Length)
    requires !Skips(t.data, e) && e.Ordered()
    ensures var d, x := t.data, EditTree(t, e).data;
      && (d.padding == Add(e.oldEnd, r) ==> x.padding == Add(e.newEnd, r) && (x.size == d.size || d.inline))
      && (e.start.bytes < d.padding.bytes < e.oldEnd.bytes ==> x.padding == e.newEnd)
      && (e.start.bytes >= d.padding.bytes && e.oldEnd.bytes > d.padding.bytes ==> x.padding == d.padding)
      && (&& d.padding.bytes <= e.start.bytes < d.Total().bytes && d.padding.bytes < e.oldEnd.bytes
          && d.Total() == Add(e.oldEnd, r) && r.bytes > 0 && PointLte(d.padding.extent, e.newEnd.extent) && !d.inline ==>
            x.Total() == Add(e.newEnd, r))
      && (e.start.bytes > d.Total().bytes && !d.inline ==> x.padding == d.padding && x.size == d.size)
  {
    hide PointAdd, PointSub, PointLte, EditTree, Resized, Skips;
    EditedData(t, e);
    ResizedLengths(t.data, Reshape(t.data, e).0, Reshape(t.data, e).1);
    LengthMonoid(e.oldEnd, r, ZERO);
    if PointLte(t.data.padding.extent, e.newEnd.extent) && t.data.padding.bytes <= e.newEnd.bytes {
      SubCancels(e.newEnd, t.data.padding);
      LengthMonoid(t.data.padding, Sub(e.newEnd, t.data.padding), r);
    }
  }

  // ----- the children --------------------------------------------------------------------------

  /** Children after the edits they are given. */
  function EditRest(ts: seq<Tree>, es: seq<Option<Edit>>): seq<Tree>
    requires |ts| == |es|
  {
    seq(|ts|, i requires 0 <= i < |ts| => EditChild(ts[i], es[i]))
  }

  lemma FirstSpelled(ts: seq<Tree>, text: string)
    requires ts != [] && SpellAll(ts, text)
    ensures var k := ts[0].data.Total().bytes;
            k <= |text| && Spells(ts[0], text[..k]) && SpellAll(ts[1..], text[k..]) && ts[0].data.Total() == Measure(text[..k])
  {
  }

  lemma SpelledSize(t: Tree, text: string)
    requires Spells(t, text)
    ensures t.data.Total() == Measure(text) && t.data.Total().bytes == |text|
  {
  }

  lemma MoreSpelled(x: Tree, first: string, rest: seq<Tree>, text: string)
    requires Spells(x, first) && SpellAll(rest, text)
    ensures SpellAll([x] + rest, first + text)
  {
    hide Spells;
    SpelledSize(x, first);
    assert ([x] + rest)[1..] == rest && (first + text)[..|first|] == first && (first + text)[|first|..] == text;
  }

  lemma RestIs(ts: seq<Tree>, i: nat, e: Option<Edit>, es: seq<Option<Edit>>)
    requires i < |ts| && |es| == |ts| - i - 1
    ensures EditRest(ts[i..], [e] + es) == [EditChild(ts[i], e)] + EditRest(ts[i + 1..], es)
    ensures ts[i..][0] == ts[i] && ts[i..][1..] == ts[i + 1..]
  {
    hide EditTree;
    var all := EditRest(ts[i..], [e] + es);
    assert ts[i..][1..] == ts[i + 1..];
    forall k | 0 <= k < |all| ensures all[k] == ([EditChild(ts[i], e)] + EditRest(ts[i + 1..], es))[k] {
      if k > 0 {
        assert ts[i..][k] == ts[i + 1..][k - 1];
      }
    }
  }

  lemma RestStays(ts: seq<Tree>)
    ensures EditRest(ts, NoEdits(|ts|)) == ts
  {
    hide EditTree;
  }

  /** The part of a piece of text behind what is replaced. */
  function Behind(doc: string, l: nat, n: nat, b: nat): string
    requires l <= n <= |doc|
  {
    doc[if b <= l then l else if b <= n then b else n..n]
  }

  /** A child's edit describes what happens to the text from where the child begins. */
  lemma ChildDescribed(e: Edit, doc: string, l: nat, k: nat, a: nat, b: nat, inserted: string)
    requires Describes(e, doc, a, b, inserted) && l + k <= |doc| && (a < l ==> inserted == "")
    ensures var right := Add(Measure(doc[..l]), Measure(doc[l..l + k]));
            var a' := if a > l then a - l else 0;
            && right == Measure(doc[..l + k])
            && if Touches(right, e)
               then Describes(ChildEdit(Measure(doc[..l]), right, e), doc[l..], a', if b > l then b - l else 0,
                              if a < l then "" else inserted)
               else Describes(ChildEdit(Measure(doc[..l]), right, e), doc[l..], a', a', "")
  {
    hide Extent, Add, Sub;
    assert doc[..l + k] == doc[..l] + doc[l..l + k];
    MeasureJoins(doc[..l], doc[l..l + k]);
    FromHere(doc, l, a);
    FromHere(doc, l, b);
    FromHereInserted(doc, l, a, inserted);
    var a' := if a > l then a - l else 0;
    assert doc[l..][..a'] + "" == doc[l..][..a'];
  }

  lemma FromHere(doc: string, l: nat, a: nat)
    requires l <= |doc| && a <= |doc|
    ensures SaturatingSub(Measure(doc[..a]), Measure(doc[..l])) == Measure(doc[l..][..if a > l then a - l else 0])
  {
    hide Add, Sub;
    MeasureCuts("", "");
    if a > l {
      Prefixes(doc, l, a);
      assert doc[l..][..a - l] == doc[l..a];
    } else {
      assert doc[l..][..0] == "";
    }
  }

  lemma FromHereInserted(doc: string, l: nat, a: nat, inserted: string)
    requires l <= |doc| && a <= |doc| && (a < l ==> inserted == "")
    ensures SaturatingSub(Measure(doc[..a] + inserted), Measure(doc[..l]))
         == Measure(doc[l..][..if a > l then a - l else 0] + if a < l then "" else inserted)
  {
    hide Extent, Add, Sub;
    MeasureCuts("", "");
    if a >= l {
      assert doc[..a] + inserted == doc[..l] + (doc[l..a] + inserted);
      MeasureCuts(doc[..l], doc[l..a] + inserted);
      assert doc[l..][..a - l] == doc[l..a];
    } else {
      assert doc[..a] + inserted == doc[..a];
      FromHere(doc, l, a);
      assert doc[l..][..0] + "" == doc[l..][..0];
    }
  }

  /** A child that the edit reaches. */
  lemma {:induction false} ChildSpells(t: Tree, i: nat, e: Edit, doc: string, l: nat, k: nat, a: nat, b: nat, inserted: string)
    requires i < |t.children| && l + k <= |doc| && Spells(t.children[i], doc[l..l + k])
    requires Describes(e, doc, a, b, inserted) && (a < l ==> inserted == "")
    ensures var right := Add(Measure(doc[..l]), t.children[i].data.Total());
            && right == Measure(doc[..l + k])
            && Spells(EditTree(t.children[i], ChildEdit(Measure(doc[..l]), right, e)),
                      if !Touches(right, e) then doc[l..l + k]
                      else if a < l then Behind(doc, l, l + k, b)
                      else doc[l..a] + inserted + Behind(doc, l, l + k, b))
    decreases t, 0, 0
  {
    hide Spells, EditTree, Extent, Add, Sub;
    var child := t.children[i];
    SpelledSize(child, doc[l..l + k]);
    ChildDescribed(e, doc, l, k, a, b, inserted);
    var right := Add(Measure(doc[..l]), child.data.Total());
    var ce := ChildEdit(Measure(doc[..l]), right, e);
    var a' := if a > l then a - l else 0;
    assert doc[l..][..k] == doc[l..l + k];
    if Touches(right, e) {
      var b' := if b > l then b - l else 0;
      EditSpells(child, ce, doc[l..], k, a', b', if a < l then "" else inserted);
      TouchedText(doc, l, k, a, b, inserted);
    } else {
      EditSpells(child, ce, doc[l..], k, a', a', "");
      UntouchedText(doc[l..l + k], a');
    }
  }

  lemma TouchedText(doc: string, l: nat, k: nat, a: nat, b: nat, inserted: string)
    requires l + k <= |doc| && a <= b && (l + k > a || (l + k == a && a == b))
    ensures EditedText(doc[l..l + k], if a > l then a - l else 0, if b > l then b - l else 0, if a < l then "" else inserted)
         == if a < l then Behind(doc, l, l + k, b) else doc[l..a] + inserted + Behind(doc, l, l + k, b)
  {
    var x := doc[l..l + k];
    var b' := if b > l then b - l else 0;
    var cut := if b' < k then b' else k;
    assert x[cut..] == Behind(doc, l, l + k, b);
    if a >= l {
      assert x[..a - l] == doc[l..a];
    } else {
      assert x[..0] + "" + x[cut..] == x[cut..];
    }
  }

  lemma UntouchedText(x: string, a: nat)
    ensures EditedText(x, a, a, "") == x
  {
    if a < |x| {
      assert x[..a] + "" + x[a..] == x;
    } else if a == |x| {
      assert x[..a] + "" + x[a..] == x;
    }
  }

  /** From child `i` on, with the inserted text given away: what is replaced is cut off. */
  lemma {:induction false} SpellsAfter(t: Tree, i: nat, e: Edit, doc: string, l: nat, n: nat, a: nat, b: nat, c: Columns)
    requires i <= |t.children| && l <= n <= |doc| && SpellAll(t.children[i..], doc[l..n])
    requires Describes(e, doc, a, b, "") && a <= l
    ensures SpellAll(EditRest(t.children[i..], ChildEdits(Datas(t.children), i, Measure(doc[..l]), e, c)), Behind(doc, l, n, b))
    decreases t, 1, |t.children| - i
  {
    hide Spells, SpellAll, EditTree, Extent, Add, Sub, StopsBefore, ChildEdit, Behind, EditRest;
    var ts, ds := t.children, Datas(t.children);
    if i == |ts| {
      NoneLeft(ts, doc[l..n]);
      NothingBehind(doc, l, n, b);
    } else {
      FirstSpelled(ts[i..], doc[l..n]);
      var k := ts[i].data.Total().bytes;
      PiecesOf(doc, l, k, n);
      assert ts[i..][0] == ts[i] && ts[i..][1..] == ts[i + 1..];
      ChildSpells(t, i, e, doc, l, k, a, b, "");
      var right := Add(Measure(doc[..l]), ds[i].Total());
      if StopsBefore(ds[i], i, Measure(doc[..l]), e.oldEnd, c) {
        StopsPastOldEnd(ds[i], i, Measure(doc[..l]), e.oldEnd, c);
        RestStays(ts[i..]);
        AllBehind(doc, l, n, b);
      } else {
        var e' := if Touches(right, e) then e.(newEnd := e.start) else e;
        assert doc[..a] + "" == doc[..a];
        SpellsAfter(t, i + 1, e', doc, l + k, n, a, b, c);
        var first := Some(ChildEdit(Measure(doc[..l]), right, e));
        var es := ChildEdits(ds, i + 1, right, e', c);
        RestIs(ts, i, first, es);
        SameBehind(doc, l, k, n, b, a);
        MoreSpelled(EditChild(ts[i], first), Behind(doc, l, l + k, b), EditRest(ts[i + 1..], es), Behind(doc, l + k, n, b));
        BehindJoins(doc, l, k, n, b);
      }
    }
  }

  lemma NoneLeft(ts: seq<Tree>, text: string)
    requires SpellAll(ts[|ts|..], text)
    ensures text == "" && ts[|ts|..] == [] && EditRest([], []) == [] && SpellAll([], "")
  {
  }

  lemma NothingBehind(doc: string, l: nat, n: nat, b: nat)
    requires l <= n <= |doc| && doc[l..n] == ""
    ensures l == n && Behind(doc, l, n, b) == ""
  {
    assert |doc[l..n]| == n - l;
  }

  lemma PiecesOf(doc: string, l: nat, k: nat, n: nat)
    requires l <= n <= |doc| && k <= |doc[l..n]|
    ensures l + k <= n && doc[l..n][..k] == doc[l..l + k] && doc[l..n][k..] == doc[l + k..n]
    ensures doc[l..n] == doc[l..l + k] + doc[l + k..n]
  {
  }

  lemma AllBehind(doc: string, l: nat, n: nat, b: nat)
    requires b <= l <= n <= |doc|
    ensures Behind(doc, l, n, b) == doc[l..n]
  {
  }

  /** A child before which nothing is left to insert and which the edit does not touch has no text. */
  lemma SameBehind(doc: string, l: nat, k: nat, n: nat, b: nat, a: nat)
    requires l + k <= n <= |doc| && a <= l
    ensures l + k <= a ==> doc[l..l + k] == Behind(doc, l, l + k, b)
    ensures a == l ==> doc[l..a] + "" + Behind(doc, l, l + k, b) == Behind(doc, l, l + k, b)
  {
  }

  lemma BehindJoins(doc: string, l: nat, k: nat, n: nat, b: nat)
    requires l + k <= n <= |doc|
    ensures Behind(doc, l, n, b) == Behind(doc, l, l + k, b) + Behind(doc, l + k, n, b)
  {
  }

  /** From child `i` on, with the inserted text still to be given away. */
  lemma {:induction false} SpellsBefore(t: Tree, i: nat, e: Edit, doc: string, l: nat, n: nat, a: nat, b: nat, inserted: string,
                                        c: Columns)
    requires i <= |t.children| && t.children != [] && l <= n <= |doc| && SpellAll(t.children[i..], doc[l..n])
    requires Describes(e, doc, a, b, inserted) && l <= a && (i == 0 || (a == b ==> l < a))
    ensures l <= |EditedText(doc[..n], a, b, inserted)|
    ensures SpellAll(EditRest(t.children[i..], ChildEdits(Datas(t.children), i, Measure(doc[..l]), e, c)),
                     EditedText(doc[..n], a, b, inserted)[l..])
    decreases t, 1, |t.children| - i
  {
    hide Spells, SpellAll, EditTree, Extent, Add, Sub, StopsBefore, ChildEdit, Behind, EditRest;
    var ts, ds := t.children, Datas(t.children);
    if i == |ts| {
      NoneLeft(ts, doc[l..n]);
      assert |doc[l..n]| == n - l;
    } else {
      FirstSpelled(ts[i..], doc[l..n]);
      var k := ts[i].data.Total().bytes;
      PiecesOf(doc, l, k, n);
      assert ts[i..][0] == ts[i] && ts[i..][1..] == ts[i + 1..];
      var right := Add(Measure(doc[..l]), ds[i].Total());
      ChildSpells(t, i, e, doc, l, k, a, b, inserted);
      KeptText(doc, l, k, n, a, b, inserted);
      if right.bytes + ds[i].lookaheadBytes < e.start.bytes {
        SpellsBefore(t, i + 1, e, doc, l + k, n, a, b, inserted, c);
        var es := ChildEdits(ds, i + 1, right, e, c);
        RestIs(ts, i, None, es);
        MoreSpelled(ts[i], doc[l..l + k], EditRest(ts[i + 1..], es), EditedText(doc[..n], a, b, inserted)[l + k..]);
      } else if StopsBefore(ds[i], i, Measure(doc[..l]), e.oldEnd, c) {
        StopsPastOldEnd(ds[i], i, Measure(doc[..l]), e.oldEnd, c);
        assert false;
      } else {
        var first := Some(ChildEdit(Measure(doc[..l]), right, e));
        if Touches(right, e) {
          assert doc[..a] + "" == doc[..a];
          SpellsAfter(t, i + 1, e.(newEnd := e.start), doc, l + k, n, a, b, c);
          var es := ChildEdits(ds, i + 1, right, e.(newEnd := e.start), c);
          RestIs(ts, i, first, es);
          MoreSpelled(EditChild(ts[i], first), doc[l..a] + inserted + Behind(doc, l, l + k, b),
                      EditRest(ts[i + 1..], es), Behind(doc, l + k, n, b));
          GivenText(doc, l, k, n, a, b, inserted);
        } else {
          SpellsBefore(t, i + 1, e, doc, l + k, n, a, b, inserted, c);
          var es := ChildEdits(ds, i + 1, right, e, c);
          RestIs(ts, i, first, es);
          MoreSpelled(EditChild(ts[i], first), doc[l..l + k], EditRest(ts[i + 1..], es),
                      EditedText(doc[..n], a, b, inserted)[l + k..]);
        }
      }
    }
  }

  /** The text of a child that ends before the edit. */
  lemma KeptText(doc: string, l: nat, k: nat, n: nat, a: nat, b: nat, inserted: string)
    requires l + k <= n <= |doc| && a <= b && l <= a
    ensures l <= |EditedText(doc[..n], a, b, inserted)|
    ensures l + k <= a ==> l + k <= |EditedText(doc[..n], a, b, inserted)|
                           && EditedText(doc[..n], a, b, inserted)[l..] == doc[l..l + k] + EditedText(doc[..n], a, b, inserted)[l + k..]
  {
  }

  /** The text from a child that the inserted text goes to. */
  lemma GivenText(doc: string, l: nat, k: nat, n: nat, a: nat, b: nat, inserted: string)
    requires l <= a <= l + k <= n <= |doc| && a <= b && (l + k > a || a == b)
    ensures l <= |EditedText(doc[..n], a, b, inserted)|
    ensures EditedText(doc[..n], a, b, inserted)[l..]
         == (doc[l..a] + inserted + Behind(doc, l, l + k, b)) + Behind(doc, l + k, n, b)
  {
    BehindJoins(doc, l, k, n, b);
    var text := EditedText(doc[..n], a, b, inserted);
    assert text == doc[..a] + inserted + Behind(doc, l, n, b);
    assert text[l..] == doc[l..a] + inserted + Behind(doc, l, n, b);
  }

  /**
   * At every node of the tree, the length and the padding after an edit are those of the node's piece
   * of the new text, in bytes, rows and columns.
   */
  lemma {:induction false} EditSpells(t: Tree, e: Edit, doc: string, n: nat, a: nat, b: nat, inserted: string)
    requires n <= |doc| && Spells(t, doc[..n]) && Describes(e, doc, a, b, inserted)
    ensures Spells(EditTree(t, e), EditedText(doc[..n], a, b, inserted))
    decreases t, 2, 0
  {
    hide Extent, Add, Sub, ChildEdits, EditData, SpellAll;
    SpelledSize(t, doc[..n]);
    if Skips(t.data, e) {
      SkippedText(t.data, e, doc, n, a, b, inserted);
    } else {
      assert doc[..n][..t.data.padding.bytes] == doc[..t.data.padding.bytes];
      DataSpells(t.data, e, doc, n, a, b, inserted);
      if t.children != [] {
        assert t.children[0..] == t.children && doc[0..n] == doc[..n];
        ZeroIs(doc);
        SpellsBefore(t, 0, e, doc, 0, n, a, b, inserted, ColumnsOf(t.data, e));
        var es := EditsOf(t.data, Datas(t.children), e);
        assert EditTree(t, e).children == EditRest(t.children, es);
        assert EditedText(doc[..n], a, b, inserted)[0..] == EditedText(doc[..n], a, b, inserted);
      }
    }
  }

  lemma ZeroIs(doc: string)
    ensures Measure(doc[..0]) == ZERO
  {
  }
}
