/** The multiset union of what each element of a list contributes. */
module Gathering {
  ghost function Gather<C, T>(xs: seq<C>, f: C -> multiset<T>): multiset<T> {
    if xs == [] then multiset{} else Gather(xs[..|xs| - 1], f) + f(xs[|xs| - 1])
  }

  lemma GatherAppend<C, T>(xs: seq<C>, y: C, f: C -> multiset<T>)
    ensures Gather(xs + [y], f) == Gather(xs, f) + f(y)
  {
    assert (xs + [y])[..|xs|] == xs;
  }

  lemma {:induction false} GatherConcat<C, T>(xs: seq<C>, ys: seq<C>, f: C -> multiset<T>)
    ensures Gather(xs + ys, f) == Gather(xs, f) + Gather(ys, f)
    decreases |ys|
  {
    if ys == [] {
      assert xs + ys == xs;
    } else {
      var n := |ys| - 1;
      GatherConcat(xs, ys[..n], f);
      assert xs + ys == (xs + ys[..n]) + [ys[n]] && ys == ys[..n] + [ys[n]];
      GatherAppend(xs + ys[..n], ys[n], f);
    }
  }

  lemma GatherOne<C, T>(x: C, f: C -> multiset<T>)
    ensures Gather([x], f) == f(x)
  {
    assert [] + [x] == [x];
    GatherAppend([], x, f);
  }

  /** Taking one element out takes out what it contributes. */
  lemma GatherAround<C, T>(xs: seq<C>, i: nat, f: C -> multiset<T>)
    requires i < |xs|
    ensures Gather(xs, f) == Gather(xs[..i], f) + f(xs[i]) + Gather(xs[i + 1..], f)
    ensures f(xs[i]) <= Gather(xs, f)
    ensures Gather(xs, f) == Gather(xs[..i] + xs[i + 1..], f) + f(xs[i])
  {
    hide Gather;
    assert xs == (xs[..i] + [xs[i]]) + xs[i + 1..];
    GatherConcat(xs[..i] + [xs[i]], xs[i + 1..], f);
    GatherConcat(xs[..i], xs[i + 1..], f);
    GatherAppend(xs[..i], xs[i], f);
  }

  lemma GatherUpdate<C, T>(xs: seq<C>, i: nat, y: C, f: C -> multiset<T>)
    requires i < |xs|
    ensures Gather(xs[i := y], f) + f(xs[i]) == Gather(xs, f) + f(y)
    ensures f(xs[i]) <= Gather(xs, f)
  {
    GatherAround(xs, i, f);
    GatherAround(xs[i := y], i, f);
    assert xs[i := y][..i] == xs[..i] && xs[i := y][i + 1..] == xs[i + 1..];
  }

  lemma {:induction false} GatheredFrom<C, T>(xs: seq<C>, x: T, f: C -> multiset<T>) returns (i: nat)
    requires x in Gather(xs, f)
    ensures i < |xs| && x in f(xs[i])
  {
    var n := |xs| - 1;
    if x in f(xs[n]) {
      i := n;
    } else {
      i := GatheredFrom(xs[..n], x, f);
    }
  }

  lemma {:induction false} GatherSame<C, D, T>(xs: seq<C>, ys: seq<D>, f: C -> multiset<T>, g: D -> multiset<T>)
    requires |xs| == |ys| && forall i :: 0 <= i < |xs| ==> f(xs[i]) == g(ys[i])
    ensures Gather(xs, f) == Gather(ys, g)
  {
    if xs != [] {
      GatherSame(xs[..|xs| - 1], ys[..|ys| - 1], f, g);
    }
  }

  /** Two elements contribute side by side. */
  lemma {:induction false} GatherTwo<C, T>(xs: seq<C>, i: nat, j: nat, f: C -> multiset<T>)
    requires i < j < |xs|
    ensures f(xs[i]) + f(xs[j]) <= Gather(xs, f)
  {
    GatherAround(xs, j, f);
    GatherAround(xs[..j], i, f);
  }

  /** The order of the elements does not matter. */
  lemma {:induction false} GatherPermuted<C, T>(xs: seq<C>, ys: seq<C>, f: C -> multiset<T>)
    requires multiset(xs) == multiset(ys)
    ensures Gather(xs, f) == Gather(ys, f)
    decreases |xs|
  {
    if xs == [] {
      NothingPermuted(xs, ys);
    } else {
      var n := |xs| - 1;
      var j := Found(xs, ys);
      GatherAround(ys, j, f);
      RestPermuted(xs, ys, j);
      GatherPermuted(xs[..n], ys[..j] + ys[j + 1..], f);
    }
  }

  lemma NothingPermuted<C>(xs: seq<C>, ys: seq<C>)
    requires multiset(xs) == multiset(ys) && xs == []
    ensures ys == []
  {
    assert |multiset(ys)| == |ys| && |multiset(xs)| == |xs|;
  }

  lemma Found<C>(xs: seq<C>, ys: seq<C>) returns (j: nat)
    requires multiset(xs) == multiset(ys) && xs != []
    ensures j < |ys| && ys[j] == xs[|xs| - 1]
  {
    assert xs[|xs| - 1] in multiset(ys);
    j :| 0 <= j < |ys| && ys[j] == xs[|xs| - 1];
  }

  lemma RestPermuted<C>(xs: seq<C>, ys: seq<C>, j: nat)
    requires multiset(xs) == multiset(ys) && xs != [] && j < |ys| && ys[j] == xs[|xs| - 1]
    ensures multiset(xs[..|xs| - 1]) == multiset(ys[..j] + ys[j + 1..])
  {
    assert ys == ys[..j] + [ys[j]] + ys[j + 1..];
    assert xs == xs[..|xs| - 1] + [xs[|xs| - 1]];
    var before, after := multiset(xs[..|xs| - 1]), multiset(ys[..j] + ys[j + 1..]);
    assert multiset(xs) == before + multiset{ys[j]} && multiset(ys) == after + multiset{ys[j]};
    forall c ensures before[c] == after[c] {
      assert (before + multiset{ys[j]})[c] == (after + multiset{ys[j]})[c];
    }
  }

  lemma CancelRight<T>(a: multiset<T>, b: multiset<T>, c: multiset<T>)
    requires a + c == b + c
    ensures a == b
  {
    forall x ensures a[x] == b[x] {
      assert (a + c)[x] == (b + c)[x];
    }
  }
}
