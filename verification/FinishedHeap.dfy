/**
 * Finished states in the order in which their next captures come: a binary heap that new states
 * join only when it is consulted.
 */
module FinishedHeaps {
  /** An order in which some elements may rank alike. */
  ghost predicate StrictWeak<T(!new)>(precedes: (T, T) -> bool) {
    && (forall x :: !precedes(x, x))
    && (forall x, y, z :: precedes(x, y) && precedes(y, z) ==> precedes(x, z))
    && forall x, y, z :: !precedes(x, y) && !precedes(y, z) ==> !precedes(x, z)
  }

  function Parent(i: nat): nat
    requires i > 0
  {
    (i - 1) / 2
  }

  ghost predicate Below<T>(items: seq<T>, precedes: (T, T) -> bool, i: nat)
    requires 0 < i < |items|
  {
    !precedes(items[i], items[Parent(i)])
  }

  /** Among the first `n` elements none precedes its parent. */
  ghost predicate Heap<T>(items: seq<T>, n: nat, precedes: (T, T) -> bool) {
    n <= |items| && forall i :: 0 < i < n ==> Below(items, precedes, i)
  }

  /** The root of a heap is preceded by no element. */
  lemma {:induction false} RootIsFirst<T(!new)>(items: seq<T>, n: nat, precedes: (T, T) -> bool, i: nat)
    requires StrictWeak(precedes) && Heap(items, n, precedes) && i < n
    ensures !precedes(items[i], items[0])
  {
    if i > 0 {
      RootIsFirst(items, n, precedes, Parent(i));
      assert Below(items, precedes, i);
    }
  }

  function Swapped<T>(items: seq<T>, i: nat, j: nat): (s: seq<T>)
    requires i < |items| && j < |items|
    ensures |s| == |items|
  {
    items[i := items[j]][j := items[i]]
  }

  lemma SwapKeeps<T>(items: seq<T>, i: nat, j: nat)
    requires i < |items| && j < |items|
    ensures multiset(Swapped(items, i, j)) == multiset(items)
  {
  }

  /** Only the element at `hole` may precede its parent; its children would not precede that parent. */
  ghost predicate HeapButUp<T>(items: seq<T>, n: nat, hole: nat, precedes: (T, T) -> bool) {
    && hole < n <= |items|
    && (forall i :: 0 < i < n && i != hole ==> Below(items, precedes, i))
    && forall i :: 0 < i < n && hole > 0 && Parent(i) == hole ==> !precedes(items[i], items[Parent(hole)])
  }

  /** Only the children of the element at `hole` may precede it. */
  ghost predicate HeapButDown<T>(items: seq<T>, n: nat, hole: nat, precedes: (T, T) -> bool) {
    && hole < n <= |items|
    && (forall i :: 0 < i < n && Parent(i) != hole ==> Below(items, precedes, i))
    && forall i :: 0 < i < n && hole > 0 && Parent(i) == hole ==> !precedes(items[i], items[Parent(hole)])
  }

  lemma StepUp<T(!new)>(items: seq<T>, n: nat, hole: nat, precedes: (T, T) -> bool)
    requires StrictWeak(precedes) && HeapButUp(items, n, hole, precedes) && hole > 0
    requires precedes(items[hole], items[Parent(hole)])
    ensures HeapButUp(Swapped(items, hole, Parent(hole)), n, Parent(hole), precedes)
  {
    var p := Parent(hole);
    var s := Swapped(items, hole, p);
    forall i | 0 < i < n && i != p ensures Below(s, precedes, i) {
      if i != hole {
        assert Below(items, precedes, i);
      }
    }
    forall i | 0 < i < n && p > 0 && Parent(i) == p ensures !precedes(s[i], s[Parent(p)]) {
      assert Below(items, precedes, p);
      if i != hole {
        assert Below(items, precedes, i);
      }
    }
  }

  lemma EndUp<T>(items: seq<T>, n: nat, hole: nat, precedes: (T, T) -> bool)
    requires HeapButUp(items, n, hole, precedes) && (hole == 0 || !precedes(items[hole], items[Parent(hole)]))
    ensures Heap(items, n, precedes)
  {
    forall i | 0 < i < n ensures Below(items, precedes, i) {
    }
  }

  lemma StepDown<T(!new)>(items: seq<T>, n: nat, hole: nat, child: nat, precedes: (T, T) -> bool)
    requires StrictWeak(precedes) && HeapButDown(items, n, hole, precedes) && hole < child < n && Parent(child) == hole
    requires precedes(items[child], items[hole])
    requires forall i :: 0 < i < n && Parent(i) == hole ==> !precedes(items[i], items[child])
    ensures HeapButDown(Swapped(items, hole, child), n, child, precedes)
  {
    var s := Swapped(items, hole, child);
    forall i | 0 < i < n && Parent(i) != child ensures Below(s, precedes, i) {
      if i != hole && Parent(i) != hole {
        assert Below(items, precedes, i);
      }
    }
    forall i | 0 < i < n && Parent(i) == child ensures !precedes(s[i], s[Parent(child)]) {
      assert Below(items, precedes, i);
    }
  }

  lemma EndDown<T>(items: seq<T>, n: nat, hole: nat, precedes: (T, T) -> bool)
    requires HeapButDown(items, n, hole, precedes)
    requires forall i :: 0 < i < n && Parent(i) == hole ==> !precedes(items[i], items[hole])
    ensures Heap(items, n, precedes)
  {
    forall i | 0 < i < n ensures Below(items, precedes, i) {
    }
  }

  lemma RemoveLast<T>(items: seq<T>, index: nat)
    requires index < |items|
    ensures var last := |items| - 1;
            multiset(items[index := items[last]][..last]) + multiset{items[index]} == multiset(items)
  {
    var last := |items| - 1;
    assert items == items[..last] + [items[last]];
    if index < last {
      assert items[index := items[last]][..last] == items[..last][index := items[last]];
      assert items[..last] == items[..index] + [items[index]] + items[index + 1..last];
      assert items[..last][index := items[last]] == items[..index] + [items[last]] + items[index + 1..last];
    } else {
      assert items[index := items[last]][..last] == items[..last];
    }
  }

  class FinishedStates<T(==, !new)> {
    var items: seq<T>
    /** How many of the items have been sifted into place; none while the list is not consulted as a heap. */
    var heapSize: nat

    constructor ()
      ensures items == [] && heapSize == 0
    {
      items, heapSize := [], 0;
    }

    method SiftUp(index: nat, ghost n: nat, precedes: (T, T) -> bool)
      requires StrictWeak(precedes) && HeapButUp(items, n, index, precedes)
      modifies this`items
      ensures Heap(items, n, precedes) && multiset(items) == multiset(old(items)) && |items| == |old(items)|
      ensures items[n..] == old(items[n..])
    {
      hide StrictWeak, HeapButUp, Heap, Swapped;
      var i: nat := index;
      HoleInside(items, n, i, precedes);
      while i > 0
        invariant i < n <= |items| && |items| == |old(items)| && HeapButUp(items, n, i, precedes)
        invariant multiset(items) == multiset(old(items)) && items[n..] == old(items[n..])
      {
        var parent := Parent(i);
        if precedes(items[i], items[parent]) {
          StepUp(items, n, i, precedes);
          SwapKeeps(items, i, parent);
          SwapBelow(items, i, parent, n);
          items := Swapped(items, i, parent);
          i := parent;
        } else {
          break;
        }
      }
      EndUp(items, n, i, precedes);
    }

    method SiftDown(index: nat, precedes: (T, T) -> bool)
      requires StrictWeak(precedes) && HeapButDown(items, |items|, index, precedes)
      modifies this`items
      ensures Heap(items, |items|, precedes) && multiset(items) == multiset(old(items)) && |items| == |old(items)|
    {
      hide HeapButDown, Heap, Swapped;
      var size, i := |items|, index;
      HoleDown(items, size, i, precedes);
      while true
        invariant i < size == |items| == |old(items)| && HeapButDown(items, size, i, precedes)
        invariant multiset(items) == multiset(old(items))
        decreases size - i
      {
        var smallest, left, right := i, 2 * i + 1, 2 * i + 2;
        if left < size && precedes(items[left], items[smallest]) {
          smallest := left;
        }
        if right < size && precedes(items[right], items[smallest]) {
          smallest := right;
        }
        assert forall k :: 0 < k < size && Parent(k) == i ==> k == left || k == right;
        if smallest == i { break; }
        StepDown(items, size, i, smallest, precedes);
        SwapKeeps(items, i, smallest);
        items := Swapped(items, i, smallest);
        i := smallest;
      }
      EndDown(items, size, i, precedes);
    }

    /** Sift what has been added since the heap was last consulted into place. */
    method Heapify(precedes: (T, T) -> bool)
      requires StrictWeak(precedes) && Heap(items, heapSize, precedes)
      modifies this
      ensures heapSize == |items| && Heap(items, heapSize, precedes)
      ensures multiset(items) == multiset(old(items)) && |items| == |old(items)|
    {
      hide StrictWeak;
      while heapSize < |items|
        invariant heapSize <= |items| && Heap(items, heapSize, precedes)
        invariant multiset(items) == multiset(old(items)) && |items| == |old(items)|
      {
        SiftUp(heapSize, heapSize + 1, precedes);
        heapSize := heapSize + 1;
      }
    }

    /** Remove the root, which is not compared any more. */
    method Pop(precedes: (T, T) -> bool)
      requires StrictWeak(precedes) && items != [] && InOrderAround(items, 0, precedes)
      modifies this
      ensures Heap(items, |items|, precedes) && heapSize == |items| == |old(items)| - 1
      ensures multiset(items) + multiset{old(items)[0]} == multiset(old(items))
    {
      hide StrictWeak, HeapButUp, HeapButDown, Heap, InOrderAround;
      RemoveLast(items, 0);
      ghost var before := items;
      if |items| > 1 {
        items := items[0 := items[|items| - 1]];
      }
      items := items[..|items| - 1];
      assert items == before[0 := before[|before| - 1]][..|before| - 1];
      if |items| > 0 {
        AroundHole(before, items, 0, precedes);
        GoesDown(items, 0, precedes);
        SiftDown(0, precedes);
      } else {
        EmptyHeap(items, precedes);
      }
      heapSize := |items|;
    }

    /** Remove the element at an index; what takes its place may have to go up or down. */
    method Erase(index: nat, precedes: (T, T) -> bool)
      requires StrictWeak(precedes) && index < |items| && InOrderAround(items, index, precedes)
      modifies this
      ensures Heap(items, |items|, precedes) && heapSize == |items| == |old(items)| - 1
      ensures multiset(items) + multiset{old(items)[index]} == multiset(old(items))
    {
      hide StrictWeak, HeapButUp, HeapButDown, Heap, InOrderAround;
      RemoveLast(items, index);
      ghost var before := items;
      if index == |items| - 1 {
        assert items[index := items[index]] == items;
        HeapPrefix(items, index, precedes);
        items := items[..index];
        heapSize := |items|;
        return;
      }
      items := items[index := items[|items| - 1]];
      items := items[..|items| - 1];
      AroundHole(before, items, index, precedes);
      if index > 0 && precedes(items[index], items[Parent(index)]) {
        GoesUp(items, index, precedes);
        SiftUp(index, |items|, precedes);
      } else {
        GoesDown(items, index, precedes);
        SiftDown(index, precedes);
      }
      heapSize := |items|;
    }
  }

  lemma EmptyHeap<T>(items: seq<T>, precedes: (T, T) -> bool)
    requires items == []
    ensures Heap(items, 0, precedes)
  {
  }

  lemma HeapPrefix<T>(items: seq<T>, n: nat, precedes: (T, T) -> bool)
    requires InOrderAround(items, n, precedes) && |items| == n + 1
    ensures Heap(items[..n], n, precedes)
  {
    forall i | 0 < i < n ensures Below(items[..n], precedes, i) {
      assert Below(items, precedes, i);
    }
  }

  lemma HoleInside<T>(items: seq<T>, n: nat, hole: nat, precedes: (T, T) -> bool)
    requires HeapButUp(items, n, hole, precedes)
    ensures hole < n <= |items|
  {
  }

  lemma HoleDown<T>(items: seq<T>, n: nat, hole: nat, precedes: (T, T) -> bool)
    requires HeapButDown(items, n, hole, precedes)
    ensures hole < n <= |items|
  {
  }

  lemma SwapBelow<T>(items: seq<T>, i: nat, j: nat, n: nat)
    requires i < n <= |items| && j < n
    ensures Swapped(items, i, j)[n..] == items[n..]
  {
  }

  /** A heap with one element replaced is in order away from that element. */
  ghost predicate InOrderAround<T>(items: seq<T>, hole: nat, precedes: (T, T) -> bool) {
    && hole < |items|
    && (forall i :: 0 < i < |items| && i != hole && Parent(i) != hole ==> Below(items, precedes, i))
    && forall i :: 0 < i < |items| && hole > 0 && Parent(i) == hole ==> !precedes(items[i], items[Parent(hole)])
  }

  lemma AroundHole<T>(before: seq<T>, items: seq<T>, hole: nat, precedes: (T, T) -> bool)
    requires InOrderAround(before, hole, precedes) && hole < |items| <= |before|
    requires forall i :: 0 <= i < |items| && i != hole ==> items[i] == before[i]
    ensures InOrderAround(items, hole, precedes)
  {
    forall i | 0 < i < |items| && i != hole && Parent(i) != hole ensures Below(items, precedes, i) {
      assert Below(before, precedes, i);
    }
  }

  /** What a heap is in order around: any element, even once that element's rank has been lost. */
  lemma HeapAround<T(!new)>(items: seq<T>, hole: nat, precedes: (T, T) -> bool, precedes': (T, T) -> bool)
    requires StrictWeak(precedes) && Heap(items, |items|, precedes) && hole < |items|
    requires forall i, j :: 0 <= i < |items| && 0 <= j < |items| && i != hole && j != hole ==>
               precedes'(items[i], items[j]) == precedes(items[i], items[j])
    ensures InOrderAround(items, hole, precedes')
  {
    forall i | 0 < i < |items| && i != hole && Parent(i) != hole ensures Below(items, precedes', i) {
      assert Below(items, precedes, i);
    }
    forall i | 0 < i < |items| && hole > 0 && Parent(i) == hole ensures !precedes'(items[i], items[Parent(hole)]) {
      assert Below(items, precedes, i) && Below(items, precedes, hole);
    }
  }

  /** The root may change its rank: a sift down repairs the heap. */
  lemma RootChanges<T(!new)>(items: seq<T>, x: T, precedes: (T, T) -> bool)
    requires items != [] && Heap(items, |items|, precedes)
    ensures HeapButDown(items[0 := x], |items|, 0, precedes)
  {
    forall i | 0 < i < |items| && Parent(i) != 0 ensures Below(items[0 := x], precedes, i) {
      assert Below(items, precedes, i);
    }
  }

  lemma GoesUp<T(!new)>(items: seq<T>, hole: nat, precedes: (T, T) -> bool)
    requires StrictWeak(precedes) && InOrderAround(items, hole, precedes) && hole > 0
    requires precedes(items[hole], items[Parent(hole)])
    ensures HeapButUp(items, |items|, hole, precedes)
  {
    forall i | 0 < i < |items| && i != hole ensures Below(items, precedes, i) {
      if Parent(i) == hole {
        assert !precedes(items[Parent(hole)], items[hole]);
      }
    }
  }

  lemma GoesDown<T(!new)>(items: seq<T>, hole: nat, precedes: (T, T) -> bool)
    requires InOrderAround(items, hole, precedes) && (hole > 0 ==> !precedes(items[hole], items[Parent(hole)]))
    ensures HeapButDown(items, |items|, hole, precedes)
  {
    forall i | 0 < i < |items| && Parent(i) != hole ensures Below(items, precedes, i) {
    }
  }
}
