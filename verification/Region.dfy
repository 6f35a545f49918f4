/**
 The region a write has to repack (src/fuse_ops/file.c:959-1031).  Starting from the windows the
 write touches, the region grows until no chunk straddles its edge.
 */
module Region {
  import opened Basics
  import opened Windows
  import opened ChunkMap

  predicate Overlaps(c: Chunk, lo: int, hi: int) { c.End() > lo && c.logicalOffset < hi }

  predicate Inside(c: Chunk, lo: int, hi: int) { lo <= c.logicalOffset && c.End() <= hi }

  /** No chunk straddles an edge. */
  ghost predicate Closed(chunks: seq<Chunk>, lo: int, hi: int) {
    forall i :: 0 <= i < |chunks| && Overlaps(chunks[i], lo, hi) ==> Inside(chunks[i], lo, hi)
  }

  /** A window-aligned region around `[offset, end)`, within the range of file offsets. */
  ghost predicate Candidate(w: int, offset: int, end: int, lo: int, hi: int)
    requires w > 0
  {
    Aligned(lo, w) && Aligned(hi, w) && 0 <= lo <= offset && end <= hi <= OFF_MAX
  }

  /** `[lo, hi)` lies in every closed candidate. */
  ghost predicate InEveryClosed(chunks: seq<Chunk>, w: int, offset: int, end: int, lo: int, hi: int)
    requires w > 0
  {
    forall l, h :: Candidate(w, offset, end, l, h) && Closed(chunks, l, h) ==> l <= lo && hi <= h
  }

  ghost function InsideSet(chunks: seq<Chunk>, lo: int, hi: int): (r: set<int>)
    ensures forall i :: i in r <==> 0 <= i < |chunks| && Inside(chunks[i], lo, hi)
  {
    set i | 0 <= i < |chunks| && Inside(chunks[i], lo, hi)
  }

  lemma {:induction false} IndexSetSize(n: nat, s: set<int>)
    requires forall i :: i in s ==> 0 <= i < n
    ensures |s| <= n
  {
    if n > 0 {
      IndexSetSize(n - 1, s - {n - 1});
    } else {
      assert forall i :: i !in s;
    }
  }

  lemma ProperSubsetSmaller(a: set<int>, b: set<int>, x: int)
    requires a <= b && x in b && x !in a
    ensures |a| < |b|
  {
    assert |b - a| > 0 by { assert x in b - a; }
    assert b == a + (b - a);
  }

  /** Growing the region around an overlapping chunk that stuck out takes in one more chunk. */
  lemma GrowthTakesInChunk(chunks: seq<Chunk>, i: int, lo: int, hi: int, lo': int, hi': int)
    requires 0 <= i < |chunks| && !Inside(chunks[i], lo, hi) && Inside(chunks[i], lo', hi')
    requires lo' <= lo && hi <= hi'
    ensures |InsideSet(chunks, lo, hi)| < |InsideSet(chunks, lo', hi')|
  {
    ProperSubsetSmaller(InsideSet(chunks, lo, hi), InsideSet(chunks, lo', hi'), i);
  }

  /** First chunk that ends beyond `lo`. */
  method FirstBeyond(chunks: seq<Chunk>, lo: int) returns (first: nat)
    ensures first <= |chunks|
    ensures forall i :: 0 <= i < first ==> chunks[i].End() <= lo
    ensures first < |chunks| ==> chunks[first].End() > lo
  {
    first := 0;
    while first < |chunks|
      invariant 0 <= first <= |chunks|
      invariant forall i :: 0 <= i < first ==> chunks[i].End() <= lo
    {
      if chunks[first].End() > lo { break; }
      first := first + 1;
    }
  }

  /** The run of chunks that start before `hi`, with the hull of the region and that run. */
  method Span(chunks: seq<Chunk>, first: nat, lo: int, hi: int) returns (end: nat, minStart: int, maxEnd: int)
    requires first <= |chunks|
    ensures first <= end <= |chunks|
    ensures forall i :: first <= i < end ==> chunks[i].logicalOffset < hi
    ensures end < |chunks| ==> chunks[end].logicalOffset >= hi
    ensures minStart <= lo && hi <= maxEnd
    ensures forall i :: first <= i < end ==> Inside(chunks[i], minStart, maxEnd)
    ensures minStart == lo || exists i :: first <= i < end && chunks[i].logicalOffset == minStart
    ensures maxEnd == hi || exists i :: first <= i < end && chunks[i].End() == maxEnd
  {
    minStart, maxEnd, end := lo, hi, first;
    while end < |chunks|
      invariant first <= end <= |chunks|
      invariant minStart <= lo && hi <= maxEnd
      invariant forall i :: first <= i < end ==> chunks[i].logicalOffset < hi && Inside(chunks[i], minStart, maxEnd)
      invariant minStart == lo || exists i :: first <= i < end && chunks[i].logicalOffset == minStart
      invariant maxEnd == hi || exists i :: first <= i < end && chunks[i].End() == maxEnd
    {
      var c := chunks[end];
      if c.logicalOffset >= hi { break; }
      if c.logicalOffset < minStart { minStart := c.logicalOffset; }
      if c.End() > maxEnd { maxEnd := c.End(); }
      end := end + 1;
    }
  }

  /** In a sorted map the run found by the two scans is exactly the set of overlapping chunks. */
  lemma RunIsOverlap(chunks: seq<Chunk>, first: nat, end: nat, lo: int, hi: int)
    requires Ordered(chunks) && first <= end <= |chunks|
    requires forall i :: 0 <= i < first ==> chunks[i].End() <= lo
    requires first < |chunks| ==> chunks[first].End() > lo
    requires forall i :: first <= i < end ==> chunks[i].logicalOffset < hi
    requires end < |chunks| ==> chunks[end].logicalOffset >= hi
    ensures forall i :: 0 <= i < |chunks| ==> (Overlaps(chunks[i], lo, hi) ==> first <= i < end)
    ensures forall i :: first <= i < end ==> Overlaps(chunks[i], lo, hi)
    ensures forall i :: end <= i < |chunks| ==> hi <= chunks[i].logicalOffset
  {
    forall i | first <= i < end
      ensures chunks[i].End() > lo
    {
      if first < i { assert chunks[first].End() <= chunks[i].logicalOffset; }
    }
    forall i | end <= i < |chunks|
      ensures hi <= chunks[i].logicalOffset
    {
      if end < i { assert chunks[end].End() <= chunks[i].logicalOffset; }
    }
  }

  /** Every closed candidate contains the hull, and being aligned also its window rounding. */
  lemma HullInEveryClosed(chunks: seq<Chunk>, w: int, offset: int, end: int, lo: int, hi: int,
                          first: nat, last: nat, minStart: int, maxEnd: int)
    requires w > 0 && first <= last <= |chunks|
    requires InEveryClosed(chunks, w, offset, end, lo, hi)
    requires forall i :: first <= i < last ==> Overlaps(chunks[i], lo, hi)
    requires minStart == lo || exists i :: first <= i < last && chunks[i].logicalOffset == minStart
    requires maxEnd == hi || exists i :: first <= i < last && chunks[i].End() == maxEnd
    ensures forall l, h :: Candidate(w, offset, end, l, h) && Closed(chunks, l, h) ==> l <= Base(minStart, w) && maxEnd <= h
  {
    forall l, h | Candidate(w, offset, end, l, h) && Closed(chunks, l, h)
      ensures l <= Base(minStart, w) && maxEnd <= h
    {
      forall i | first <= i < last
        ensures Inside(chunks[i], l, h)
      {
        assert Overlaps(chunks[i], l, h);
      }
      assert l <= minStart;
      BaseBounds(minStart, w);
      AlignedGap(Base(minStart, w), l, w);
    }
  }

  datatype Region = Region(lo: int, hi: int, first: nat, end: nat)

  /** What the fixpoint delivers: all of the overlap is inside, the rest is outside, and no less will do. */
  ghost predicate IsRegion(chunks: seq<Chunk>, w: int, offset: int, end: int, r: Region)
    requires w > 0
  {
    && Candidate(w, offset, end, r.lo, r.hi)
    && Isolates(chunks, r.first, r.end, r.lo, r.hi)
    && (forall i :: r.first <= i < r.end ==> Overlaps(chunks[i], r.lo, r.hi))
    && InEveryClosed(chunks, w, offset, end, r.lo, r.hi)
  }

  /** State of the fixpoint at the head of a round. */
  ghost predicate RoundState(chunks: seq<Chunk>, w: int, offset: int, end: int, lo: int, hi: int, rounds: int)
    requires w > 0
  {
    && Candidate(w, offset, end, lo, hi) && lo < hi
    && InEveryClosed(chunks, w, offset, end, lo, hi)
    && 0 <= rounds <= |InsideSet(chunks, lo, hi)|
  }

  lemma GrowthFacts(chunks: seq<Chunk>, w: int, offset: int, end: int, lo: int, hi: int,
                    first: nat, last: nat, minStart: int, maxEnd: int, newLo: int, newHi: int)
    requires SizeValid(w) && first <= last <= |chunks| && Aligned(lo, w) && Aligned(hi, w) && lo < hi
    requires newLo == Base(minStart, w) && 0 <= maxEnd && Ceil(maxEnd, w) == Ok(newHi)
    requires minStart <= lo && hi <= maxEnd && (newLo < lo || newHi > hi)
    requires forall i :: first <= i < last ==> Inside(chunks[i], minStart, maxEnd) && Overlaps(chunks[i], lo, hi)
    requires minStart == lo || exists i :: first <= i < last && chunks[i].logicalOffset == minStart
    requires maxEnd == hi || exists i :: first <= i < last && chunks[i].End() == maxEnd
    ensures newLo <= lo && hi <= newHi
    ensures |InsideSet(chunks, lo, hi)| < |InsideSet(chunks, newLo, newHi)|
    ensures !IsPacked(chunks, w)
  {
    BaseBounds(minStart, w);
    CeilLeast(maxEnd, w);
    assert minStart < lo || maxEnd > hi by {
      if minStart == lo { AlignedGap(newLo, lo, w); }
    }
    var i: int;
    if minStart < lo {
      i :| first <= i < last && chunks[i].logicalOffset == minStart;
    } else {
      i :| first <= i < last && chunks[i].End() == maxEnd;
    }
    assert !Inside(chunks[i], lo, hi) && Overlaps(chunks[i], lo, hi);
    GrowthTakesInChunk(chunks, i, lo, hi, newLo, newHi);
    if IsPacked(chunks, w) {
      var o := chunks[i].logicalOffset;
      AlignedGap(o, lo, w);
      AlignedGap(o, hi, w);
    }
  }

  /** What the two scans of a round found: the overlapping run and its hull. */
  ghost predicate Scanned(chunks: seq<Chunk>, lo: int, hi: int, first: nat, last: nat, minStart: int, maxEnd: int) {
    && first <= last <= |chunks| && minStart <= lo && hi <= maxEnd
    && (forall i :: 0 <= i < first ==> chunks[i].End() <= lo)
    && (forall i :: first <= i < last ==> Overlaps(chunks[i], lo, hi) && Inside(chunks[i], minStart, maxEnd))
    && (forall i :: last <= i < |chunks| ==> hi <= chunks[i].logicalOffset)
    && (minStart == lo || exists i :: first <= i < last && chunks[i].logicalOffset == minStart)
    && (maxEnd == hi || exists i :: first <= i < last && chunks[i].End() == maxEnd)
  }

  lemma RoundHull(chunks: seq<Chunk>, w: int, offset: int, end: int, lo: int, hi: int,
                  first: nat, last: nat, minStart: int, maxEnd: int, rounds: int)
    requires SizeValid(w) && RoundState(chunks, w, offset, end, lo, hi, rounds)
    requires Scanned(chunks, lo, hi, first, last, minStart, maxEnd)
    ensures forall l, h :: Candidate(w, offset, end, l, h) && Closed(chunks, l, h) ==> l <= Base(minStart, w) && maxEnd <= h
  {
    HullInEveryClosed(chunks, w, offset, end, lo, hi, first, last, minStart, maxEnd);
  }

  /** The rounded hull is the region itself. */
  lemma RoundCloses(chunks: seq<Chunk>, w: int, offset: int, end: int, lo: int, hi: int,
                    first: nat, last: nat, minStart: int, maxEnd: int, rounds: int)
    requires SizeValid(w) && RoundState(chunks, w, offset, end, lo, hi, rounds)
    requires Scanned(chunks, lo, hi, first, last, minStart, maxEnd) && 0 <= maxEnd
    requires Base(minStart, w) >= lo && Ceil(maxEnd, w).Ok? && Ceil(maxEnd, w).value <= hi
    ensures IsRegion(chunks, w, offset, end, Region(lo, hi, first, last))
  {
    hide InEveryClosed, Candidate;
    BaseBounds(minStart, w);
    CeilLeast(maxEnd, w);
  }

  /** The rounded hull is larger. */
  lemma RoundGrows(chunks: seq<Chunk>, w: int, offset: int, end: int, lo: int, hi: int,
                   first: nat, last: nat, minStart: int, maxEnd: int, rounds: int)
    requires SizeValid(w) && RoundState(chunks, w, offset, end, lo, hi, rounds) && Within(chunks, 0, OFF_MAX)
    requires Scanned(chunks, lo, hi, first, last, minStart, maxEnd) && 0 <= maxEnd
    requires Ceil(maxEnd, w).Ok? && Ceil(maxEnd, w).value <= OFF_MAX
    requires Base(minStart, w) < lo || Ceil(maxEnd, w).value > hi
    ensures RoundState(chunks, w, offset, end, Base(minStart, w), Ceil(maxEnd, w).value, rounds + 1)
    ensures !IsPacked(chunks, w)
  {
    RoundHull(chunks, w, offset, end, lo, hi, first, last, minStart, maxEnd, rounds);
    GrowthFacts(chunks, w, offset, end, lo, hi, first, last, minStart, maxEnd, Base(minStart, w), Ceil(maxEnd, w).value);
    BaseBounds(minStart, w);
    CeilLeast(maxEnd, w);
    hide Closed, InsideSet, IsPacked, Overlaps, Inside;
  }

  /** The rounded hull leaves the range of offsets: so would every closed region. */
  lemma RoundFails(chunks: seq<Chunk>, w: int, offset: int, end: int, lo: int, hi: int,
                   first: nat, last: nat, minStart: int, maxEnd: int, rounds: int)
    requires SizeValid(w) && RoundState(chunks, w, offset, end, lo, hi, rounds)
    requires Scanned(chunks, lo, hi, first, last, minStart, maxEnd) && 0 <= maxEnd
    requires Ceil(maxEnd, w).Err? || Ceil(maxEnd, w).value > OFF_MAX
    ensures forall l, h :: Candidate(w, offset, end, l, h) ==> !Closed(chunks, l, h)
  {
    RoundHull(chunks, w, offset, end, lo, hi, first, last, minStart, maxEnd, rounds);
    CeilLeast(maxEnd, w);
  }

  /** One round: either the region is closed, or it grows, or it leaves the range of offsets. */
  method Round(chunks: seq<Chunk>, w: int, ghost offset: int, ghost end: int, lo: int, hi: int, ghost rounds: int)
    returns (r: Result<Region>, changed: bool)
    requires SizeValid(w) && Ordered(chunks) && Within(chunks, 0, OFF_MAX)
    requires RoundState(chunks, w, offset, end, lo, hi, rounds)
    ensures r.Ok? && !changed ==> IsRegion(chunks, w, offset, end, r.value) && r.value.lo == lo && r.value.hi == hi
    ensures r.Ok? && changed ==> RoundState(chunks, w, offset, end, r.value.lo, r.value.hi, rounds + 1)
    ensures r.Ok? && changed ==> !IsPacked(chunks, w)
    ensures r.Err? ==>
              && r.error == EFBIG
              && forall l, h :: Candidate(w, offset, end, l, h) ==> !Closed(chunks, l, h)
  {
    hide IsRegion, RoundState, IsPacked, Candidate, Closed, Ceil, Base, SizeValid;
    var first := FirstBeyond(chunks, lo);
    var last, minStart, maxEnd := Span(chunks, first, lo, hi);
    RunIsOverlap(chunks, first, last, lo, hi);
    RoundBounds(chunks, w, offset, end, lo, hi, rounds);
    assert Scanned(chunks, lo, hi, first, last, minStart, maxEnd);
    changed := false;
    var newLo, newHi := Base(minStart, w), Ceil(maxEnd, w);
    if newHi.Err? || newHi.value > OFF_MAX {
      RoundFails(chunks, w, offset, end, lo, hi, first, last, minStart, maxEnd, rounds);
      return Err(EFBIG), changed;
    }
    if newLo < lo || newHi.value > hi {
      RoundGrows(chunks, w, offset, end, lo, hi, first, last, minStart, maxEnd, rounds);
      r, changed := Ok(Region(newLo, newHi.value, first, last)), true;
    } else {
      RoundCloses(chunks, w, offset, end, lo, hi, first, last, minStart, maxEnd, rounds);
      r := Ok(Region(lo, hi, first, last));
    }
  }

  lemma RoundBounds(chunks: seq<Chunk>, w: int, offset: int, end: int, lo: int, hi: int, rounds: int)
    requires SizeValid(w) && RoundState(chunks, w, offset, end, lo, hi, rounds)
    ensures w > 0 && 0 <= lo < hi
  {
  }

  /**
   The fixpoint.  `rounds` counts the iterations; the defensive `EIO` after `num_chunks + 1`
   rounds never happens, and a packed map settles in the first round.
   */
  method FindRegion(chunks: seq<Chunk>, w: int, offset: nat, end: nat) returns (r: Result<Region>, rounds: nat)
    requires SizeValid(w) && Ordered(chunks) && Within(chunks, 0, OFF_MAX) && offset < end <= OFF_MAX
    ensures r.Ok? ==> IsRegion(chunks, w, offset, end, r.value)
    ensures r.Ok? && IsPacked(chunks, w) ==> rounds == 1
    ensures r.Err? ==>
              && r.error == EFBIG
              && forall l, h :: Candidate(w, offset, end, l, h) ==> !Closed(chunks, l, h)
    ensures rounds <= |chunks| + 1
  {
    rounds := 0;
    BaseBounds(offset, w);
    CeilLeast(end, w);
    var lo, ceil := Base(offset, w), Ceil(end, w);
    if ceil.Err? || ceil.value > OFF_MAX { return Err(EFBIG), rounds; }
    var hi := ceil.value;
    assert InEveryClosed(chunks, w, offset, end, lo, hi) by {
      forall l, h | Candidate(w, offset, end, l, h) && Closed(chunks, l, h)
        ensures l <= lo && hi <= h
      {
        AlignedGap(lo, l, w);
      }
    }
    while true
      invariant RoundState(chunks, w, offset, end, lo, hi, rounds)
      invariant IsPacked(chunks, w) ==> rounds == 0
      decreases |chunks| + 2 - rounds
    {
      IndexSetSize(|chunks|, InsideSet(chunks, lo, hi));
      if rounds > |chunks| + 1 { return Err(EIO), rounds; }
      ghost var done := rounds;
      rounds := rounds + 1;
      var changed;
      r, changed := Round(chunks, w, offset, end, lo, hi, done);
      if r.Err? || !changed { return; }
      lo, hi := r.value.lo, r.value.hi;
    }
  }

  /** The windows of the whole file are a closed candidate, so a region never reaches further. */
  lemma RegionStaysInFile(chunks: seq<Chunk>, w: int, offset: nat, end: nat, size: nat) returns (hi: int)
    requires SizeValid(w) && Within(chunks, 0, size) && offset < end && Max(size, end) + w <= OFF_MAX
    ensures hi < Max(size, end) + w && Candidate(w, offset, end, 0, hi) && Closed(chunks, 0, hi)
    ensures forall r :: IsRegion(chunks, w, offset, end, r) ==> r.hi <= hi
  {
    CeilLeast(Max(size, end), w);
    AlignedTop(w);
    hi := Ceil(Max(size, end), w).value;
  }
}
