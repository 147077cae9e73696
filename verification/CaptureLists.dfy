/** The pool of capture lists that the states of a query share, up to a limit. */
module CaptureLists {
  import opened QueryCaptures

  const CAPTURE_LIST_NONE: nat := 0xFFFF_FFFF

  /** A list in the pool is free or in use. */
  datatype Entry = Free | Used(captures: seq<Capture>)

  type Lists = seq<Entry>

  /** The captures under an id; there are none under an id that is not in the pool. */
  function CapturesOf(lists: Lists, id: nat): seq<Capture> {
    if id < |lists| && lists[id].Used? then lists[id].captures else []
  }

  function FreeCount(lists: Lists): nat {
    if lists == [] then 0 else FreeCount(lists[..|lists| - 1]) + if lists[|lists| - 1].Free? then 1 else 0
  }

  lemma {:induction false} FreeCountUpdate(lists: Lists, i: nat, e: Entry)
    requires i < |lists|
    ensures FreeCount(lists[i := e]) + (if lists[i].Free? then 1 else 0) == FreeCount(lists) + (if e.Free? then 1 else 0)
  {
    var n := |lists| - 1;
    if i == n {
      assert lists[i := e][..n] == lists[..n];
    } else {
      FreeCountUpdate(lists[..n], i, e);
      assert lists[i := e][..n] == lists[..n][i := e];
    }
  }

  lemma {:induction false} SomeFree(lists: Lists)
    requires FreeCount(lists) > 0
    ensures exists i :: 0 <= i < |lists| && lists[i].Free?
  {
    var n := |lists| - 1;
    if !lists[n].Free? {
      SomeFree(lists[..n]);
      var i :| 0 <= i < n && lists[..n][i].Free?;
      assert lists[i].Free?;
    }
  }

  lemma {:induction false} AllFree(lists: Lists)
    requires forall i :: 0 <= i < |lists| ==> lists[i].Free?
    ensures FreeCount(lists) == |lists|
  {
    if lists != [] {
      AllFree(lists[..|lists| - 1]);
    }
  }

  class CaptureListPool {
    var list: Lists
    var maxCaptureListCount: nat
    var freeCaptureListCount: nat
    /** The highest limit there has been. */
    ghost var highest: nat

    ghost predicate Valid()
      reads this
    {
      && freeCaptureListCount == FreeCount(list)
      && |list| <= highest && maxCaptureListCount <= highest <= CAPTURE_LIST_NONE
    }

    constructor ()
      ensures Valid() && list == [] && maxCaptureListCount == highest == CAPTURE_LIST_NONE
    {
      list, maxCaptureListCount, freeCaptureListCount, highest := [], CAPTURE_LIST_NONE, 0, CAPTURE_LIST_NONE;
    }

    /** Limit the number of lists; what is allocated already stays. */
    method SetLimit(limit: nat)
      requires Valid() && limit <= CAPTURE_LIST_NONE
      modifies this`maxCaptureListCount, this`highest
      ensures Valid() && maxCaptureListCount == limit && highest == (if |list| > limit then |list| else limit)
    {
      maxCaptureListCount := limit;
      highest := if |list| > limit then |list| else limit;
    }

    method Reset()
      requires Valid()
      modifies this`list, this`freeCaptureListCount
      ensures Valid() && |list| == |old(list)| && forall i :: 0 <= i < |list| ==> list[i].Free?
    {
      for i := 0 to |list|
        invariant |list| == |old(list)| && forall k :: 0 <= k < i ==> list[k].Free?
      {
        list := list[i := Free];
      }
      freeCaptureListCount := |list|;
      AllFree(list);
    }

    predicate IsEmpty()
      reads this
    {
      freeCaptureListCount == 0 && |list| >= maxCaptureListCount
    }

    /** An empty list for a state: one that is free, or a new one while the limit allows it. */
    method Acquire() returns (id: nat)
      requires Valid()
      modifies this`list, this`freeCaptureListCount
      ensures Valid() && (id == CAPTURE_LIST_NONE <==> old(IsEmpty()))
      ensures old(IsEmpty()) ==> list == old(list) && freeCaptureListCount == old(freeCaptureListCount)
      ensures !old(IsEmpty()) && old(freeCaptureListCount) > 0 ==>
                id < |old(list)| && old(list)[id].Free? && list == old(list)[id := Used([])]
      ensures !old(IsEmpty()) && old(freeCaptureListCount) == 0 ==>
                id == |old(list)| < maxCaptureListCount && list == old(list) + [Used([])]
    {
      if freeCaptureListCount > 0 {
        SomeFree(list);
        var i := 0;
        while i < |list|
          invariant i <= |list| && exists k :: i <= k < |list| && list[k].Free?
        {
          if list[i].Free? {
            FreeCountUpdate(list, i, Used([]));
            list := list[i := Used([])];
            freeCaptureListCount := freeCaptureListCount - 1;
            return i;
          }
          i := i + 1;
        }
      }
      id := |list|;
      if id >= maxCaptureListCount {
        return CAPTURE_LIST_NONE;
      }
      assert (list + [Used([])])[..|list|] == list;
      list := list + [Used([])];
    }

    method Release(id: nat)
      requires Valid() && (id < |list| ==> list[id].Used?)
      modifies this`list, this`freeCaptureListCount
      ensures Valid() && list == if id < |old(list)| then old(list)[id := Free] else old(list)
    {
      if id >= |list| { return; }
      FreeCountUpdate(list, id, Free);
      list := list[id := Free];
      freeCaptureListCount := freeCaptureListCount + 1;
    }

    method Clear(id: nat)
      requires Valid() && id < |list| && list[id].Used?
      modifies this`list
      ensures Valid() && list == old(list)[id := Used([])]
    {
      FreeCountUpdate(list, id, Used([]));
      list := list[id := Used([])];
    }

    method Push(id: nat, captures: seq<Capture>)
      requires Valid() && id < |list| && list[id].Used?
      modifies this`list
      ensures Valid() && list == old(list)[id := Used(old(list)[id].captures + captures)]
    {
      FreeCountUpdate(list, id, Used(list[id].captures + captures));
      list := list[id := Used(list[id].captures + captures)];
    }
  }
}
