/** Insertion sort as a function: what it keeps and what it establishes. */
module StableSorts {
  import opened FinishedHeaps

  /** `x` goes before everything at the end of the list that it precedes. */
  function Insert<T(!new)>(xs: seq<T>, x: T, precedes: (T, T) -> bool): seq<T> {
    if xs == [] || !precedes(x, xs[|xs| - 1]) then xs + [x]
    else Insert(xs[..|xs| - 1], x, precedes) + [xs[|xs| - 1]]
  }

  function StableSort<T(!new)>(xs: seq<T>, precedes: (T, T) -> bool): seq<T> {
    if xs == [] then [] else Insert(StableSort(xs[..|xs| - 1], precedes), xs[|xs| - 1], precedes)
  }

  ghost predicate Sorted<T(!new)>(xs: seq<T>, precedes: (T, T) -> bool) {
    forall i, j :: 0 <= i < j < |xs| ==> !precedes(xs[j], xs[i])
  }

  lemma {:induction false} InsertKeeps<T(!new)>(xs: seq<T>, x: T, precedes: (T, T) -> bool)
    ensures multiset(Insert(xs, x, precedes)) == multiset(xs) + multiset{x}
    decreases |xs|
  {
    if xs != [] && precedes(x, xs[|xs| - 1]) {
      InsertKeeps(xs[..|xs| - 1], x, precedes);
      assert xs == xs[..|xs| - 1] + [xs[|xs| - 1]];
    }
  }

  lemma InsertMember<T(!new)>(xs: seq<T>, x: T, precedes: (T, T) -> bool, y: T)
    requires y in Insert(xs, x, precedes)
    ensures y in xs || y == x
  {
    InsertKeeps(xs, x, precedes);
    assert y in multiset(Insert(xs, x, precedes));
    assert y in multiset(xs) + multiset{x};
  }

  lemma {:induction false} InsertSorts<T(!new)>(xs: seq<T>, x: T, precedes: (T, T) -> bool)
    requires StrictWeak(precedes) && Sorted(xs, precedes)
    ensures Sorted(Insert(xs, x, precedes), precedes)
    decreases |xs|
  {
    hide StrictWeak;
    if xs != [] {
      var n := |xs| - 1;
      if precedes(x, xs[n]) {
        InsertSorts(xs[..n], x, precedes);
        var ys := Insert(xs[..n], x, precedes);
        forall i | 0 <= i < |ys| ensures !precedes(xs[n], ys[i]) {
          InsertMember(xs[..n], x, precedes, ys[i]);
          if ys[i] == x {
            Asymmetric(x, xs[n], precedes);
          } else {
            var k :| 0 <= k < n && xs[k] == ys[i];
          }
        }
      } else {
        forall i | 0 <= i < n ensures !precedes(x, xs[i]) {
          NegativelyTransitive(x, xs[n], xs[i], precedes);
        }
      }
    }
  }

  lemma Asymmetric<T(!new)>(x: T, y: T, precedes: (T, T) -> bool)
    requires StrictWeak(precedes) && precedes(x, y)
    ensures !precedes(y, x)
  {
  }

  lemma NegativelyTransitive<T(!new)>(x: T, y: T, z: T, precedes: (T, T) -> bool)
    requires StrictWeak(precedes) && !precedes(x, y) && !precedes(y, z)
    ensures !precedes(x, z)
  {
  }

  lemma {:induction false} SortSorts<T(!new)>(xs: seq<T>, precedes: (T, T) -> bool)
    requires StrictWeak(precedes)
    ensures Sorted(StableSort(xs, precedes), precedes) && multiset(StableSort(xs, precedes)) == multiset(xs)
    decreases |xs|
  {
    hide StrictWeak;
    if xs != [] {
      var n := |xs| - 1;
      SortSorts(xs[..n], precedes);
      InsertSorts(StableSort(xs[..n], precedes), xs[n], precedes);
      InsertKeeps(StableSort(xs[..n], precedes), xs[n], precedes);
      assert xs == xs[..n] + [xs[n]];
    }
  }

  function Filter<T(!new)>(xs: seq<T>, p: T -> bool): seq<T> {
    if xs == [] then [] else Filter(xs[..|xs| - 1], p) + if p(xs[|xs| - 1]) then [xs[|xs| - 1]] else []
  }

  lemma {:induction false} InsertIsStable<T(!new)>(xs: seq<T>, x: T, precedes: (T, T) -> bool, p: T -> bool)
    requires forall y, z :: p(y) && p(z) ==> !precedes(y, z)
    ensures Filter(Insert(xs, x, precedes), p) == Filter(xs, p) + if p(x) then [x] else []
    decreases |xs|
  {
    var n := |xs| - 1;
    if xs != [] && precedes(x, xs[n]) {
      InsertIsStable(xs[..n], x, precedes, p);
      var ys := Insert(xs[..n], x, precedes);
      assert (ys + [xs[n]])[..|ys|] == ys;
    } else {
      assert (xs + [x])[..|xs|] == xs;
    }
  }

  /** Elements that rank alike keep their order. */
  lemma {:induction false} SortIsStable<T(!new)>(xs: seq<T>, precedes: (T, T) -> bool, p: T -> bool)
    requires forall y, z :: p(y) && p(z) ==> !precedes(y, z)
    ensures Filter(StableSort(xs, precedes), p) == Filter(xs, p)
    decreases |xs|
  {
    if xs != [] {
      SortIsStable(xs[..|xs| - 1], precedes, p);
      InsertIsStable(StableSort(xs[..|xs| - 1], precedes), xs[|xs| - 1], precedes, p);
    }
  }

  /** Where insertion puts an element: before those at the end that it precedes. */
  lemma {:induction false} InsertSplits<T(!new)>(xs: seq<T>, x: T, j: nat, precedes: (T, T) -> bool)
    requires j <= |xs| && (j == 0 || !precedes(x, xs[j - 1]))
    requires forall k :: j <= k < |xs| ==> precedes(x, xs[k])
    ensures Insert(xs, x, precedes) == xs[..j] + [x] + xs[j..]
    decreases |xs|
  {
    InsertStep(xs, x, precedes);
    hide Insert;
    if j == |xs| {
      assert xs[..j] == xs;
    } else {
      var n := |xs| - 1;
      InsertSplits(xs[..n], x, j, precedes);
      assert xs[..n][..j] == xs[..j] && xs[j..] == xs[..n][j..] + [xs[n]];
    }
  }

  lemma InsertStep<T(!new)>(xs: seq<T>, x: T, precedes: (T, T) -> bool)
    ensures Insert(xs, x, precedes)
         == if xs == [] || !precedes(x, xs[|xs| - 1]) then xs + [x]
            else Insert(xs[..|xs| - 1], x, precedes) + [xs[|xs| - 1]]
  {
  }
}
