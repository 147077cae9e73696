/** Lists of document ranges: adding to one, intersecting one, and where two of them differ. */
module Ranges {
  import opened Lengths

  const UINT32_MAX: nat := 0xFFFF_FFFF
  const LENGTH_MAX: Length := Length(UINT32_MAX, Point(UINT32_MAX, UINT32_MAX))

  datatype Range = Range(start: Length, end: Length)

  /** Ranges in order; they may touch and they may be empty. */
  predicate InOrder(ranges: seq<Range>) {
    && (forall i :: 0 <= i < |ranges| ==> ranges[i].start.bytes <= ranges[i].end.bytes <= UINT32_MAX)
    && forall i, j :: 0 <= i < j < |ranges| ==> ranges[i].end.bytes <= ranges[j].start.bytes
  }

  /** No range begins where the sentinel is. */
  predicate BelowSentinel(ranges: seq<Range>) {
    forall i :: 0 <= i < |ranges| ==> ranges[i].start.bytes < UINT32_MAX
  }

  /** No range is empty and there is a gap after each. */
  predicate Separated(ranges: seq<Range>) {
    && (forall i :: 0 <= i < |ranges| ==> ranges[i].start.bytes < ranges[i].end.bytes)
    && forall i, j :: 0 <= i < j < |ranges| ==> ranges[i].end.bytes < ranges[j].start.bytes
  }

  predicate Has(range: Range, b: nat) { range.start.bytes <= b < range.end.bytes }

  predicate Covers(ranges: seq<Range>, b: nat) { exists i :: 0 <= i < |ranges| && Has(ranges[i], b) }

  /** The list with a range added that begins where or after the last one ends. */
  function Added(ranges: seq<Range>, start: Length, end: Length): seq<Range> {
    if ranges != [] && start.bytes <= ranges[|ranges| - 1].end.bytes then
      ranges[|ranges| - 1 := ranges[|ranges| - 1].(end := end)]
    else if start.bytes < end.bytes then ranges + [Range(start, end)]
    else ranges
  }

  predicate EndsBy(ranges: seq<Range>, position: nat) {
    ranges != [] ==> ranges[|ranges| - 1].end.bytes <= position
  }

  lemma AddedCovers(ranges: seq<Range>, start: Length, end: Length)
    requires Separated(ranges) && EndsBy(ranges, start.bytes) && start.bytes <= end.bytes
    ensures Separated(Added(ranges, start, end)) && EndsBy(Added(ranges, start, end), end.bytes)
    ensures forall b: nat :: Covers(Added(ranges, start, end), b) <==> Covers(ranges, b) || start.bytes <= b < end.bytes
  {
    hide Covers;
    forall b: nat ensures Covers(Added(ranges, start, end), b) <==> Covers(ranges, b) || start.bytes <= b < end.bytes {
      AddedCoversByte(ranges, start, end, b);
    }
  }

  lemma AddedCoversByte(ranges: seq<Range>, start: Length, end: Length, b: nat)
    requires Separated(ranges) && EndsBy(ranges, start.bytes) && start.bytes <= end.bytes
    ensures Covers(Added(ranges, start, end), b) <==> Covers(ranges, b) || start.bytes <= b < end.bytes
  {
    var n, added := |ranges| - 1, Added(ranges, start, end);
    if Covers(ranges, b) {
      var i :| 0 <= i < |ranges| && Has(ranges[i], b);
      assert Has(added[i], b);
    }
    if start.bytes <= b < end.bytes {
      assert Has(added[|added| - 1], b);
    }
    if Covers(added, b) {
      var i :| 0 <= i < |added| && Has(added[i], b);
      assert i < |ranges| && added[i] == ranges[i] ==> Has(ranges[i], b);
      assert i == n && n < |ranges| && added[i] != ranges[i] ==> Has(ranges[n], b) || start.bytes <= b < end.bytes;
    }
  }

  /** Whether any of the ranges from an index on overlaps the bytes from `start` to `end`. */
  method Intersects(ranges: seq<Range>, startIndex: nat, start: nat, end: nat) returns (found: bool)
    requires InOrder(ranges)
    ensures found <==> exists i :: startIndex <= i < |ranges| && ranges[i].end.bytes > start && ranges[i].start.bytes < end
  {
    var i := startIndex;
    while i < |ranges|
      invariant startIndex <= i
      invariant forall k :: startIndex <= k < i && k < |ranges| ==> ranges[k].end.bytes <= start
    {
      if ranges[i].end.bytes > start {
        if ranges[i].start.bytes >= end {
          assert forall k :: i <= k < |ranges| ==> ranges[k].start.bytes >= end;
          break;
        }
        return true;
      }
      i := i + 1;
    }
    return false;
  }

  // ----- the sweep -----------------------------------------------------------------------------

  /** Where the sweep is in one list: before the range at `index`, or inside it. */
  ghost predicate At(ranges: seq<Range>, index: nat, inside: bool, position: nat) {
    && index <= |ranges|
    && (forall k :: 0 <= k < index ==> ranges[k].end.bytes <= position)
    && (index < |ranges| ==>
          if inside then ranges[index].start.bytes <= position <= ranges[index].end.bytes
          else position <= ranges[index].start.bytes)
    && (position < UINT32_MAX ==> (inside ==> index < |ranges|))
    && (position == UINT32_MAX ==> index == |ranges|)
  }

  function NextPosition(ranges: seq<Range>, index: nat, inside: bool): Length {
    if inside && index < |ranges| then ranges[index].end
    else if index < |ranges| then ranges[index].start
    else LENGTH_MAX
  }

  /** Up to the next boundary a list covers all bytes or none, as the sweep says. */
  lemma UpToNext(ranges: seq<Range>, index: nat, inside: bool, position: nat, b: nat)
    requires InOrder(ranges) && At(ranges, index, inside, position) && position < UINT32_MAX
    requires position <= b < NextPosition(ranges, index, inside).bytes
    ensures Covers(ranges, b) <==> inside
  {
    if inside {
      assert Has(ranges[index], b);
    }
  }

  lemma NextIsAhead(ranges: seq<Range>, index: nat, inside: bool, position: nat)
    requires InOrder(ranges) && BelowSentinel(ranges) && At(ranges, index, inside, position) && position < UINT32_MAX
    ensures position <= NextPosition(ranges, index, inside).bytes <= UINT32_MAX
  {
  }

  /** The sweep passes a boundary of the list. */
  lemma PassBoundary(ranges: seq<Range>, index: nat, inside: bool, position: nat, position': nat)
    requires InOrder(ranges) && BelowSentinel(ranges) && At(ranges, index, inside, position) && position < UINT32_MAX
    requires position' == NextPosition(ranges, index, inside).bytes
    ensures At(ranges, if inside then index + 1 else index, !inside, position')
  {
  }

  /** The sweep moves on to a boundary of the other list. */
  lemma PassOther(ranges: seq<Range>, index: nat, inside: bool, position: nat, position': nat)
    requires InOrder(ranges) && At(ranges, index, inside, position) && position < UINT32_MAX
    requires position <= position' < NextPosition(ranges, index, inside).bytes <= UINT32_MAX
    ensures At(ranges, index, inside, position')
  {
  }

  // ----- rows and columns ----------------------------------------------------------------------

  /** The position, with its row and column, is where a range of one of the lists starts or ends, or the sentinel. */
  ghost predicate IsBoundary(xs: seq<Range>, ys: seq<Range>, p: Length) {
    || p == LENGTH_MAX
    || (exists i :: 0 <= i < |xs| && (xs[i].start == p || xs[i].end == p))
    || exists i :: 0 <= i < |ys| && (ys[i].start == p || ys[i].end == p)
  }

  ghost predicate OnBoundaries(xs: seq<Range>, ys: seq<Range>, ranges: seq<Range>) {
    forall i :: 0 <= i < |ranges| ==> IsBoundary(xs, ys, ranges[i].start) && IsBoundary(xs, ys, ranges[i].end)
  }

  lemma NextIsBoundary(xs: seq<Range>, ys: seq<Range>, index: nat, inside: bool)
    ensures IsBoundary(xs, ys, NextPosition(xs, index, inside)) && IsBoundary(ys, xs, NextPosition(xs, index, inside))
  {
  }

  lemma MoreOnBoundaries(xs: seq<Range>, ys: seq<Range>, ranges: seq<Range>, more: seq<Range>, differs: bool, start: Length, end: Length)
    requires OnBoundaries(xs, ys, ranges) && (differs ==> IsBoundary(xs, ys, start)) && IsBoundary(xs, ys, end)
    requires more == if differs then Added(ranges, start, end) else ranges
    ensures OnBoundaries(xs, ys, more)
  {
    hide IsBoundary;
  }

  class RangeArray {
    var ranges: seq<Range>

    constructor ()
      ensures ranges == []
    {
      ranges := [];
    }

    method Add(start: Length, end: Length)
      modifies this
      ensures ranges == Added(old(ranges), start, end)
    {
      if |ranges| > 0 {
        var last := ranges[|ranges| - 1];
        if start.bytes <= last.end.bytes {
          ranges := ranges[|ranges| - 1 := last.(end := end)];
          return;
        }
      }
      if start.bytes < end.bytes {
        ranges := ranges + [Range(start, end)];
      }
    }

    /** Find the bytes that are in exactly one of two lists of ranges. */
    method GetChangedRanges(oldRanges: seq<Range>, newRanges: seq<Range>)
      requires ranges == []
      requires InOrder(oldRanges) && InOrder(newRanges) && BelowSentinel(oldRanges) && BelowSentinel(newRanges)
      modifies this
      ensures Separated(ranges)
      ensures forall b: nat :: Covers(ranges, b) <==> Covers(oldRanges, b) != Covers(newRanges, b)
      ensures OnBoundaries(oldRanges, newRanges, ranges)
    {
      hide At, Covers, Separated, EndsBy, Added, InOrder, BelowSentinel, IsBoundary, OnBoundaries;
      var newIndex, oldIndex := 0, 0;
      var currentPosition := ZERO;
      var inOldRange, inNewRange := false, false;
      SweepStarts(oldRanges, newRanges);
      while oldIndex < |oldRanges| || newIndex < |newRanges|
        invariant oldIndex <= |oldRanges| && newIndex <= |newRanges|
        invariant currentPosition.bytes == UINT32_MAX ==> oldIndex == |oldRanges| && newIndex == |newRanges|
        invariant At(oldRanges, oldIndex, inOldRange, currentPosition.bytes)
        invariant At(newRanges, newIndex, inNewRange, currentPosition.bytes)
        invariant currentPosition.bytes <= UINT32_MAX
        invariant Separated(ranges) && EndsBy(ranges, currentPosition.bytes)
        invariant OnBoundaries(oldRanges, newRanges, ranges)
        invariant inOldRange || inNewRange ==> IsBoundary(oldRanges, newRanges, currentPosition)
        invariant forall b: nat :: Covers(ranges, b) <==>
                    b < currentPosition.bytes && Covers(oldRanges, b) != Covers(newRanges, b)
        decreases 2 * (|oldRanges| - oldIndex) + 2 * (|newRanges| - newIndex)
                  + (if inOldRange then 0 else 1) + (if inNewRange then 0 else 1)
      {
        SweepIndexes(oldRanges, oldIndex, inOldRange, currentPosition.bytes);
        SweepIndexes(newRanges, newIndex, inNewRange, currentPosition.bytes);
        var nextOldPosition :=
          if inOldRange then oldRanges[oldIndex].end
          else if oldIndex < |oldRanges| then oldRanges[oldIndex].start
          else LENGTH_MAX;
        var nextNewPosition :=
          if inNewRange then newRanges[newIndex].end
          else if newIndex < |newRanges| then newRanges[newIndex].start
          else LENGTH_MAX;
        NextIsAhead(oldRanges, oldIndex, inOldRange, currentPosition.bytes);
        NextIsAhead(newRanges, newIndex, inNewRange, currentPosition.bytes);
        ghost var next := if nextOldPosition.bytes < nextNewPosition.bytes then nextOldPosition else nextNewPosition;
        ghost var more := if inOldRange != inNewRange then Added(ranges, currentPosition, next) else ranges;
        NextIsBoundary(oldRanges, newRanges, oldIndex, inOldRange);
        NextIsBoundary(newRanges, oldRanges, newIndex, inNewRange);
        MoreOnBoundaries(oldRanges, newRanges, ranges, more, inOldRange != inNewRange, currentPosition, next);
        SegmentDone(oldRanges, newRanges, oldIndex, newIndex, inOldRange, inNewRange, currentPosition, next, ranges, more);

        if nextOldPosition.bytes < nextNewPosition.bytes {
          if inOldRange != inNewRange {
            Add(currentPosition, nextOldPosition);
          }
          PassBoundary(oldRanges, oldIndex, inOldRange, currentPosition.bytes, next.bytes);
          PassOther(newRanges, newIndex, inNewRange, currentPosition.bytes, next.bytes);
          if inOldRange { oldIndex := oldIndex + 1; }
          currentPosition := nextOldPosition;
          inOldRange := !inOldRange;
        } else if nextNewPosition.bytes < nextOldPosition.bytes {
          if inOldRange != inNewRange {
            Add(currentPosition, nextNewPosition);
          }
          PassBoundary(newRanges, newIndex, inNewRange, currentPosition.bytes, next.bytes);
          PassOther(oldRanges, oldIndex, inOldRange, currentPosition.bytes, next.bytes);
          if inNewRange { newIndex := newIndex + 1; }
          currentPosition := nextNewPosition;
          inNewRange := !inNewRange;
        } else {
          if inOldRange != inNewRange {
            Add(currentPosition, nextNewPosition);
          }
          PassBoundary(oldRanges, oldIndex, inOldRange, currentPosition.bytes, next.bytes);
          PassBoundary(newRanges, newIndex, inNewRange, currentPosition.bytes, next.bytes);
          if inOldRange { oldIndex := oldIndex + 1; }
          if inNewRange { newIndex := newIndex + 1; }
          inOldRange := !inOldRange;
          inNewRange := !inNewRange;
          currentPosition := nextNewPosition;
        }
        assert ranges == more && currentPosition == next;
        SweepEnds(oldRanges, oldIndex, inOldRange, currentPosition.bytes);
        SweepEnds(newRanges, newIndex, inNewRange, currentPosition.bytes);
      }
      NothingBeyond(oldRanges, oldIndex, inOldRange, currentPosition.bytes);
      NothingBeyond(newRanges, newIndex, inNewRange, currentPosition.bytes);
    }
  }

  lemma SweepStarts(oldRanges: seq<Range>, newRanges: seq<Range>)
    ensures At(oldRanges, 0, false, 0) && At(newRanges, 0, false, 0)
    ensures Separated([]) && EndsBy([], 0) && forall b: nat :: !Covers([], b)
    ensures OnBoundaries(oldRanges, newRanges, [])
  {
  }

  lemma SweepIndexes(ranges: seq<Range>, index: nat, inside: bool, position: nat)
    requires At(ranges, index, inside, position) && position < UINT32_MAX
    ensures index <= |ranges| && (inside ==> index < |ranges|)
  {
  }

  lemma SweepEnds(ranges: seq<Range>, index: nat, inside: bool, position: nat)
    requires At(ranges, index, inside, position)
    ensures index <= |ranges| && (position == UINT32_MAX ==> index == |ranges|)
  {
  }

  /** Adding the segment up to the next boundary, if the lists differ there, keeps the result right. */
  lemma SegmentDone(oldRanges: seq<Range>, newRanges: seq<Range>, oldIndex: nat, newIndex: nat, inOld: bool, inNew: bool,
                    position: Length, next: Length, ranges: seq<Range>, more: seq<Range>)
    requires InOrder(oldRanges) && InOrder(newRanges)
    requires At(oldRanges, oldIndex, inOld, position.bytes) && At(newRanges, newIndex, inNew, position.bytes)
    requires position.bytes < UINT32_MAX && position.bytes <= next.bytes
    requires next.bytes <= NextPosition(oldRanges, oldIndex, inOld).bytes
    requires next.bytes <= NextPosition(newRanges, newIndex, inNew).bytes
    requires Separated(ranges) && EndsBy(ranges, position.bytes)
    requires forall b: nat :: Covers(ranges, b) <==> b < position.bytes && Covers(oldRanges, b) != Covers(newRanges, b)
    requires more == if inOld != inNew then Added(ranges, position, next) else ranges
    ensures Separated(more) && EndsBy(more, next.bytes)
    ensures forall b: nat :: Covers(more, b) <==> b < next.bytes && Covers(oldRanges, b) != Covers(newRanges, b)
  {
    AddedCovers(ranges, position, next);
    hide Covers, Separated, Added, At;
    forall b: nat ensures Covers(more, b) <==> b < next.bytes && Covers(oldRanges, b) != Covers(newRanges, b) {
      if position.bytes <= b < next.bytes {
        UpToNext(oldRanges, oldIndex, inOld, position.bytes, b);
        UpToNext(newRanges, newIndex, inNew, position.bytes, b);
      }
    }
  }

  lemma NothingBeyond(ranges: seq<Range>, index: nat, inside: bool, position: nat)
    requires At(ranges, index, inside, position) && index == |ranges|
    ensures forall b: nat :: b >= position ==> !Covers(ranges, b)
  {
  }
}
