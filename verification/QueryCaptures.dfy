/** Lists of captured nodes, and when one list is known to contain another. */
module QueryCaptures {
  /** A captured node, by its identity and its bytes, and the capture it is for. */
  datatype Capture = Capture(node: nat, startByte: nat, endByte: nat, index: nat)

  predicate SameCapture(a: Capture, b: Capture) { a.node == b.node && a.index == b.index }

  /** Which of two nodes comes first in a depth-first traversal: the first, neither, or the second. */
  function CompareNodes(a: Capture, b: Capture): int {
    if a.node == b.node then 0
    else if a.startByte < b.startByte then -1
    else if a.startByte > b.startByte then 1
    else if a.endByte > b.endByte then -1
    else if a.endByte < b.endByte then 1
    else 0
  }

  /** `part` can be got from `whole` by leaving captures out. */
  predicate Contains(whole: seq<Capture>, part: seq<Capture>) {
    part == [] ||
    (whole != [] &&
     ((SameCapture(whole[0], part[0]) && Contains(whole[1..], part[1..])) || Contains(whole[1..], part)))
  }

  lemma {:induction false} ContainsItself(xs: seq<Capture>)
    ensures Contains(xs, xs)
  {
    if xs != [] {
      ContainsItself(xs[1..]);
    }
  }

  lemma {:induction false} ContainsRest(whole: seq<Capture>, part: seq<Capture>)
    requires part != [] && Contains(whole, part)
    ensures Contains(whole, part[1..])
  {
    if !(SameCapture(whole[0], part[0]) && Contains(whole[1..], part[1..])) {
      ContainsRest(whole[1..], part);
    }
  }

  lemma {:induction false} ContainsTransitive(xs: seq<Capture>, ys: seq<Capture>, zs: seq<Capture>)
    requires Contains(xs, ys) && Contains(ys, zs)
    ensures Contains(xs, zs)
    decreases |xs| + |ys|
  {
    if zs != [] {
      if SameCapture(xs[0], ys[0]) && Contains(xs[1..], ys[1..]) {
        if SameCapture(ys[0], zs[0]) && Contains(ys[1..], zs[1..]) {
          ContainsTransitive(xs[1..], ys[1..], zs[1..]);
        } else {
          ContainsTransitive(xs[1..], ys[1..], zs);
        }
      } else {
        ContainsTransitive(xs[1..], ys, zs);
      }
    }
  }

  /** What the comparison of two lists finds, from the rest of each on. */
  function Compared(left: seq<Capture>, right: seq<Capture>): (bool, bool)
    decreases |left| + |right|
  {
    if left == [] then (right == [], true)
    else if right == [] then (true, false)
    else if SameCapture(left[0], right[0]) then Compared(left[1..], right[1..])
    else
      var c := CompareNodes(left[0], right[0]);
      if c == -1 then (Compared(left[1..], right).0, false)
      else if c == 1 then (false, Compared(left, right[1..]).1)
      else (false, false)
  }

  /** Walk over two capture lists side by side: does either contain the other? */
  method CompareCaptures(left: seq<Capture>, right: seq<Capture>)
    returns (leftContainsRight: bool, rightContainsLeft: bool)
    ensures (leftContainsRight, rightContainsLeft) == Compared(left, right)
  {
    leftContainsRight, rightContainsLeft := true, true;
    var i, j := 0, 0;
    assert left[0..] == left && right[0..] == right;
    while true
      invariant i <= |left| && j <= |right|
      invariant Compared(left, right).0 == (leftContainsRight && Compared(left[i..], right[j..]).0)
      invariant Compared(left, right).1 == (rightContainsLeft && Compared(left[i..], right[j..]).1)
      decreases |left| - i + |right| - j
    {
      if i < |left| {
        assert left[i..][1..] == left[i + 1..];
        if j < |right| {
          assert right[j..][1..] == right[j + 1..];
          if SameCapture(left[i], right[j]) {
            i, j := i + 1, j + 1;
          } else {
            var c := CompareNodes(left[i], right[j]);
            if c == -1 {
              rightContainsLeft := false;
              i := i + 1;
            } else if c == 1 {
              leftContainsRight := false;
              j := j + 1;
            } else {
              rightContainsLeft, leftContainsRight := false, false;
              i, j := i + 1, j + 1;
            }
          }
        } else {
          rightContainsLeft := false;
          break;
        }
      } else {
        if j < |right| {
          leftContainsRight := false;
        }
        break;
      }
    }
  }

  /** What the comparison calls contained is contained. */
  lemma {:induction false} ComparedIsSound(left: seq<Capture>, right: seq<Capture>)
    ensures Compared(left, right).0 ==> Contains(left, right)
    ensures Compared(left, right).1 ==> Contains(right, left)
    decreases |left| + |right|
  {
    if left != [] && right != [] {
      if SameCapture(left[0], right[0]) {
        ComparedIsSound(left[1..], right[1..]);
      } else if CompareNodes(left[0], right[0]) == -1 {
        ComparedIsSound(left[1..], right);
      } else if CompareNodes(left[0], right[0]) == 1 {
        ComparedIsSound(left, right[1..]);
      }
    }
  }

  /** No two captures have the same span, and they come in traversal order. */
  predicate InOrder(xs: seq<Capture>) {
    forall i, j :: 0 <= i < j < |xs| ==> CompareNodes(xs[i], xs[j]) == -1
  }

  /** Identities and positions determine each other across the two lists. */
  predicate Consistent(xs: seq<Capture>, ys: seq<Capture>) {
    forall i, j :: 0 <= i < |xs| && 0 <= j < |ys| ==>
      (xs[i].node == ys[j].node <==> xs[i].startByte == ys[j].startByte && xs[i].endByte == ys[j].endByte)
  }

  predicate Occurs(xs: seq<Capture>, c: Capture) { exists i :: 0 <= i < |xs| && SameCapture(xs[i], c) }

  lemma {:induction false} ContainedOccurs(whole: seq<Capture>, part: seq<Capture>, k: nat)
    requires Contains(whole, part) && k < |part|
    ensures Occurs(whole, part[k])
  {
    if SameCapture(whole[0], part[0]) && Contains(whole[1..], part[1..]) {
      if k > 0 {
        ContainedOccurs(whole[1..], part[1..], k - 1);
        var i :| 0 <= i < |whole[1..]| && SameCapture(whole[1..][i], part[k]);
        assert SameCapture(whole[i + 1], part[k]);
      }
    } else {
      ContainedOccurs(whole[1..], part, k);
      var i :| 0 <= i < |whole[1..]| && SameCapture(whole[1..][i], part[k]);
      assert SameCapture(whole[i + 1], part[k]);
    }
  }

  /** When no two captures of a list have the same span, the comparison misses nothing. */
  lemma {:induction false} ComparedIsComplete(left: seq<Capture>, right: seq<Capture>)
    requires InOrder(left) && InOrder(right) && Consistent(left, right)
    ensures Compared(left, right).0 <==> Contains(left, right)
    ensures Compared(left, right).1 <==> Contains(right, left)
    decreases |left| + |right|
  {
    ComparedIsSound(left, right);
    if left != [] && right != [] {
      var l, r := left[0], right[0];
      if SameCapture(l, r) {
        ComparedIsComplete(left[1..], right[1..]);
        FirstTogether(left, right);
        FirstTogether(right, left);
      } else if CompareNodes(l, r) == -1 {
        ComparedIsComplete(left[1..], right);
        if Contains(right, left) { ContainedOccurs(right, left, 0); }
      } else if CompareNodes(l, r) == 1 {
        ComparedIsComplete(left, right[1..]);
        if Contains(left, right) { ContainedOccurs(left, right, 0); }
      } else {
        if Contains(right, left) { ContainedOccurs(right, left, 0); }
        if Contains(left, right) { ContainedOccurs(left, right, 0); }
      }
    }
  }

  /** Lists that begin alike contain each other just when their rests do. */
  lemma FirstTogether(whole: seq<Capture>, part: seq<Capture>)
    requires whole != [] && part != [] && SameCapture(whole[0], part[0])
    ensures Contains(whole, part) <==> Contains(whole[1..], part[1..])
  {
    if Contains(whole, part) && !Contains(whole[1..], part[1..]) {
      ContainsRest(whole[1..], part);
    }
  }

  // ----- what the comparison finds exactly -----------------------------------------------------

  /** The span of `a` comes before that of `b`: it begins earlier, or ends later. */
  predicate SpanBefore(a: Capture, b: Capture) {
    a.startByte < b.startByte || (a.startByte == b.startByte && a.endByte > b.endByte)
  }

  predicate SpanIs(c: Capture, start: nat, end: nat) { c.startByte == start && c.endByte == end }

  /** Captures come in traversal order of their spans; several may have the same span. */
  predicate InSpanOrder(xs: seq<Capture>) {
    forall i, j :: 0 <= i < j < |xs| ==> !SpanBefore(xs[j], xs[i])
  }

  /** A node has the same span in both lists. */
  predicate SpansAgree(xs: seq<Capture>, ys: seq<Capture>) {
    forall i, j :: 0 <= i < |xs| && 0 <= j < |ys| && xs[i].node == ys[j].node ==> SpanIs(xs[i], ys[j].startByte, ys[j].endByte)
  }

  /** The captures with a span, each by its node and what it is for. */
  function On(xs: seq<Capture>, start: nat, end: nat): seq<(nat, nat)> {
    if xs == [] then []
    else (if SpanIs(xs[0], start, end) then [(xs[0].node, xs[0].index)] else []) + On(xs[1..], start, end)
  }

  /** On each span the captures of `part` are the first ones of `whole`. */
  ghost predicate LeadsWith(whole: seq<Capture>, part: seq<Capture>) {
    forall start: nat, end: nat :: On(part, start, end) <= On(whole, start, end)
  }

  lemma {:induction false} NoneOn(xs: seq<Capture>, start: nat, end: nat)
    requires forall i :: 0 <= i < |xs| ==> !SpanIs(xs[i], start, end)
    ensures On(xs, start, end) == []
  {
    if xs != [] {
      NoneOn(xs[1..], start, end);
    }
  }

  /** The first capture of an ordered list comes after every span that comes before it. */
  lemma NoneEarlier(xs: seq<Capture>, c: Capture)
    requires xs != [] && InSpanOrder(xs) && SpanBefore(c, xs[0])
    ensures On(xs, c.startByte, c.endByte) == []
  {
    forall i | 0 <= i < |xs| ensures !SpanIs(xs[i], c.startByte, c.endByte) {
      if i > 0 {
        assert !SpanBefore(xs[i], xs[0]);
      }
    }
    NoneOn(xs, c.startByte, c.endByte);
  }

  lemma OnStep(xs: seq<Capture>, start: nat, end: nat)
    requires xs != []
    ensures On(xs, start, end)
         == if SpanIs(xs[0], start, end) then [(xs[0].node, xs[0].index)] + On(xs[1..], start, end) else On(xs[1..], start, end)
  {
  }

  /**
   * The comparison calls a list contained exactly when, on each span, its captures are the first
   * ones of the other list.
   */
  lemma {:induction false} ComparedExactly(left: seq<Capture>, right: seq<Capture>)
    requires InSpanOrder(left) && InSpanOrder(right) && SpansAgree(left, right)
    ensures Compared(left, right).0 <==> LeadsWith(left, right)
    ensures Compared(left, right).1 <==> LeadsWith(right, left)
    decreases |left| + |right|
  {
    hide On;
    OnNothing();
    if left == [] || right == [] {
      if right != [] { FirstIsOn(right); }
      if left != [] { FirstIsOn(left); }
    } else if SameCapture(left[0], right[0]) {
      assert SpanIs(left[0], right[0].startByte, right[0].endByte);
      ComparedExactly(left[1..], right[1..]);
      BothStep(left, right);
      BothStep(right, left);
    } else if SpanBefore(left[0], right[0]) {
      ComparedExactly(left[1..], right);
      OneStep(left, right);
    } else if SpanBefore(right[0], left[0]) {
      ComparedExactly(left, right[1..]);
      OneStep(right, left);
    } else {
      NeitherLeads(left, right);
      NeitherLeads(right, left);
    }
  }

  lemma OnNothing()
    ensures forall start: nat, end: nat :: On([], start, end) == []
  {
  }

  lemma FirstIsOn(xs: seq<Capture>)
    requires xs != []
    ensures On(xs, xs[0].startByte, xs[0].endByte) != []
  {
  }

  lemma BothStep(whole: seq<Capture>, part: seq<Capture>)
    requires whole != [] && part != [] && SameCapture(whole[0], part[0])
    requires SpanIs(whole[0], part[0].startByte, part[0].endByte)
    ensures LeadsWith(whole, part) <==> LeadsWith(whole[1..], part[1..])
  {
    hide On;
    forall start: nat, end: nat
      ensures On(part, start, end) <= On(whole, start, end) <==> On(part[1..], start, end) <= On(whole[1..], start, end)
    {
      OnStep(whole, start, end);
      OnStep(part, start, end);
      SameFirst((part[0].node, part[0].index), On(part[1..], start, end), On(whole[1..], start, end));
    }
  }

  lemma SameFirst<T>(x: T, xs: seq<T>, ys: seq<T>)
    ensures [x] + xs <= [x] + ys <==> xs <= ys
  {
    if [x] + xs <= [x] + ys {
      assert ([x] + xs)[1..] == xs && ([x] + ys)[1..|xs| + 1] == ys[..|xs|];
    }
  }

  /** A capture before all of `part` makes no difference to what `part` leads with, and `part` lacks it. */
  lemma OneStep(whole: seq<Capture>, part: seq<Capture>)
    requires whole != [] && part != [] && InSpanOrder(part) && SpanBefore(whole[0], part[0])
    ensures LeadsWith(whole, part) <==> LeadsWith(whole[1..], part)
    ensures !LeadsWith(part, whole)
  {
    hide On;
    var c := whole[0];
    NoneEarlier(part, c);
    FirstIsOn(whole);
    forall start: nat, end: nat
      ensures On(part, start, end) <= On(whole, start, end) <==> On(part, start, end) <= On(whole[1..], start, end)
    {
      OnStep(whole, start, end);
      if SpanIs(c, start, end) {
        assert On(part, start, end) == [];
      }
    }
    assert !(On(whole, c.startByte, c.endByte) <= On(part, c.startByte, c.endByte));
  }

  lemma NeitherLeads(whole: seq<Capture>, part: seq<Capture>)
    requires whole != [] && part != [] && !SameCapture(whole[0], part[0])
    requires SpanIs(whole[0], part[0].startByte, part[0].endByte)
    ensures !LeadsWith(whole, part)
  {
    hide On;
    var start, end := part[0].startByte, part[0].endByte;
    OnStep(whole, start, end);
    OnStep(part, start, end);
    assert On(part, start, end)[0] != On(whole, start, end)[0];
  }

  /** A node captured twice hides a contained list from the comparison. */
  lemma TwoCapturesOfANode(n: nat, start: nat, end: nat)
    ensures var left, right := [Capture(n, start, end, 1), Capture(n, start, end, 2)], [Capture(n, start, end, 2)];
            Contains(left, right) && !Compared(left, right).0
  {
    var left, right := [Capture(n, start, end, 1), Capture(n, start, end, 2)], [Capture(n, start, end, 2)];
    assert left[1..] == right && right[1..] == [];
    ContainsItself(right);
  }

  /** So do two nodes of the same span, such as a parent and its only child, captured once each. */
  lemma TwoNodesOfASpan(start: nat, end: nat)
    ensures var left, right := [Capture(1, start, end, 1), Capture(2, start, end, 2)], [Capture(2, start, end, 2)];
            && InSpanOrder(left) && InSpanOrder(right) && SpansAgree(left, right)
            && Contains(left, right) && !Compared(left, right).0
  {
    var left, right := [Capture(1, start, end, 1), Capture(2, start, end, 2)], [Capture(2, start, end, 2)];
    assert left[1..] == right && right[1..] == [];
    ContainsItself(right);
  }
}
