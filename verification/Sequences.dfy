/** Inserting into a list and removing from it. */
module Sequences {
  function InsertAt<T>(xs: seq<T>, i: nat, x: T): seq<T>
    requires i <= |xs|
  {
    xs[..i] + [x] + xs[i..]
  }

  lemma InsertedMembers<T>(xs: seq<T>, at: nat, x: T)
    requires at <= |xs|
    ensures |InsertAt(xs, at, x)| == |xs| + 1
    ensures InsertAt(xs, at, x)[at] == x
    ensures forall k :: 0 <= k < at ==> InsertAt(xs, at, x)[k] == xs[k]
    ensures forall k :: at < k <= |xs| ==> InsertAt(xs, at, x)[k] == xs[k - 1]
    ensures forall y :: y in xs ==> y in InsertAt(xs, at, x)
    ensures x in InsertAt(xs, at, x)
  {
    var ys := InsertAt(xs, at, x);
    assert ys[at] == x;
    forall y | y in xs ensures y in ys {
      var k :| 0 <= k < |xs| && xs[k] == y;
      assert ys[if k < at then k else k + 1] == y;
    }
  }

  function Erase<T>(xs: seq<T>, i: nat): seq<T>
    requires i < |xs|
  {
    xs[..i] + xs[i + 1..]
  }

  lemma ErasedMembers<T>(xs: seq<T>, i: nat)
    requires i < |xs|
    ensures |Erase(xs, i)| == |xs| - 1
    ensures forall k :: 0 <= k < |xs| - 1 ==> Erase(xs, i)[k] == xs[if k < i then k else k + 1]
    ensures forall y :: y in Erase(xs, i) ==> y in xs
    ensures forall y :: y in xs ==> y in Erase(xs, i) || y == xs[i]
    ensures multiset(Erase(xs, i)) + multiset{xs[i]} == multiset(xs)
  {
    assert xs == xs[..i] + [xs[i]] + xs[i + 1..];
  }

  /** Removing what has just been inserted leaves what there was. */
  lemma InsertedErased<T>(xs: seq<T>, at: nat, x: T)
    requires at <= |xs|
    ensures |InsertAt(xs, at, x)| == |xs| + 1 && Erase(InsertAt(xs, at, x), at) == xs
  {
    var ys := InsertAt(xs, at, x);
    assert ys[..at] == xs[..at] && ys[at + 1..] == xs[at..];
    assert xs == xs[..at] + xs[at..];
  }

  /** Putting back what has been removed restores what there was. */
  lemma ErasedInserted<T>(xs: seq<T>, i: nat)
    requires i < |xs|
    ensures |Erase(xs, i)| == |xs| - 1 && InsertAt(Erase(xs, i), i, xs[i]) == xs
  {
    var ys := Erase(xs, i);
    assert ys[..i] == xs[..i] && ys[i..] == xs[i + 1..];
    assert xs == xs[..i] + [xs[i]] + xs[i + 1..];
  }
}
