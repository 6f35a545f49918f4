/**
 How a write is classified for adaptive resizing (src/fuse_ops/file.c:926-957): windows it fills
 entirely, and windows it must merge with old data.
 */
module WindowStats {
  import opened Basics
  import opened Windows
  import opened ChunkMap
  import opened Region

  predicate FillsWindow(off: int, end: int, win: int, w: int) { off <= win && win + w <= end }

  ghost predicate TouchesData(chunks: seq<Chunk>, win: int, w: int) {
    exists i :: 0 <= i < |chunks| && Overlaps(chunks[i], win, win + w)
  }

  /** The windows of `[lo, hi)` that the write fills entirely. */
  ghost function FullWindows(off: int, end: int, w: int, lo: int, hi: int): set<int>
    requires w > 0
  {
    set win | lo <= win < hi && Aligned(win, w) && FillsWindow(off, end, win, w)
  }

  /** The windows of `[lo, hi)` that hold old data the write does not replace entirely. */
  ghost function PartialWindows(chunks: seq<Chunk>, off: int, end: int, w: int, lo: int, hi: int): set<int>
    requires w > 0
  {
    set win | lo <= win < hi && Aligned(win, w) && !FillsWindow(off, end, win, w) && TouchesData(chunks, win, w)
  }

  lemma OneMoreFull(off: int, end: int, w: int, lo: int, win: int)
    requires w > 0 && lo <= win && Aligned(win, w)
    ensures FullWindows(off, end, w, lo, win + w) ==
            FullWindows(off, end, w, lo, win) + (if FillsWindow(off, end, win, w) then {win} else {})
  {
    forall x | win < x < win + w ensures !Aligned(x, w) { if Aligned(x, w) { AlignedGap(win, x, w); } }
  }

  lemma OneMorePartial(chunks: seq<Chunk>, off: int, end: int, w: int, lo: int, win: int)
    requires w > 0 && lo <= win && Aligned(win, w)
    ensures PartialWindows(chunks, off, end, w, lo, win + w) ==
            PartialWindows(chunks, off, end, w, lo, win) +
            (if !FillsWindow(off, end, win, w) && TouchesData(chunks, win, w) then {win} else {})
  {
    hide TouchesData;
    forall x | win < x < win + w ensures !Aligned(x, w) { if Aligned(x, w) { AlignedGap(win, x, w); } }
  }

  /** The inner scan over the sorted map. */
  method HasOldData(chunks: seq<Chunk>, win: int, w: int) returns (found: bool)
    requires w > 0 && Ordered(chunks)
    ensures found <==> TouchesData(chunks, win, w)
  {
    for i := 0 to |chunks|
      invariant forall j :: 0 <= j < i ==> chunks[j].End() <= win
    {
      if chunks[i].End() <= win { continue; }
      if chunks[i].logicalOffset >= win + w {
        LaterChunksStartLater(chunks, i);
        return false;
      }
      assert Overlaps(chunks[i], win, win + w);
      return true;
    }
    found := false;
  }

  lemma PartialIsEdge(off: nat, end: nat, w: int, lo: int, hi: int, win: int)
    requires w > 0 && Aligned(lo, w) && Aligned(hi, w) && Aligned(win, w) && lo <= win < hi
    requires off < lo + w && hi < end + w && !FillsWindow(off, end, win, w)
    ensures win == lo || win == hi - w
  {
    hide Aligned;
    AlignedNext(win, w);
    AlignedGap(lo, win, w);
    AlignedGap(win, hi, w);
    AlignedGap(win + w, hi, w);
  }

  /** Only the first and the last window of a write can be partial. */
  lemma AtMostTwoPartial(chunks: seq<Chunk>, off: nat, end: nat, w: int, lo: int, hi: int)
    requires w > 0 && Aligned(lo, w) && Aligned(hi, w) && off < lo + w && hi < end + w
    ensures |PartialWindows(chunks, off, end, w, lo, hi)| <= 2
  {
    hide Aligned, TouchesData, FillsWindow;
    var s := PartialWindows(chunks, off, end, w, lo, hi);
    forall win | win in s ensures win == lo || win == hi - w { PartialIsEdge(off, end, w, lo, hi, win); }
    SubsetOfTwo(s, lo, hi - w);
  }

  lemma SubsetOfTwo(s: set<int>, a: int, b: int)
    requires s <= {a, b}
    ensures |s| <= 2
  {
    var rest := s - {a};
    assert rest == {} || rest == {b};
    assert s == rest || s == rest + {a};
  }

  /** What a write of `[off, end)` reports: windows it filled, and windows of old data it had to merge. */
  ghost predicate Counts(chunks: seq<Chunk>, off: int, end: int, w: int, full: nat, partial: nat)
    requires SizeValid(w) && 0 <= off < end
  {
    && Ceil(end, w).Ok? && partial <= 2
    && full == |FullWindows(off, end, w, Base(off, w), Ceil(end, w).value)|
    && partial == |PartialWindows(chunks, off, end, w, Base(off, w), Ceil(end, w).value)|
  }

  /** What one more window adds to the two sets. */
  lemma CountOneMore(chunks: seq<Chunk>, off: int, end: int, w: int, lo: int, hi: int, win: int)
    requires w > 0 && lo <= win < hi && Aligned(win, w) && Aligned(hi, w)
    ensures win + w <= hi && Aligned(win + w, w)
    ensures FillsWindow(off, end, win, w) <==> off <= win && win + w <= end
    ensures var more := if FillsWindow(off, end, win, w) then 1 else 0;
            |FullWindows(off, end, w, lo, win + w)| == |FullWindows(off, end, w, lo, win)| + more
    ensures var more := if !FillsWindow(off, end, win, w) && TouchesData(chunks, win, w) then 1 else 0;
            |PartialWindows(chunks, off, end, w, lo, win + w)| == |PartialWindows(chunks, off, end, w, lo, win)| + more
  {
    hide TouchesData;
    OneMoreFull(off, end, w, lo, win);
    OneMorePartial(chunks, off, end, w, lo, win);
    AlignedGap(win, hi, w);
    AlignedNext(win, w);
  }

  /** The counts a write reports to the adaptive policy. */
  method Classify(chunks: seq<Chunk>, off: nat, end: nat, w: int) returns (full: nat, partial: nat)
    requires SizeValid(w) && Ordered(chunks) && off < end && Ceil(end, w).Ok?
    ensures Counts(chunks, off, end, w, full, partial)
  {
    full, partial := 0, 0;
    BaseBounds(off, w);
    CeilLeast(end, w);
    var lo, hi := Base(off, w), Ceil(end, w).value;
    var win := lo;
    while win < hi
      invariant lo <= win <= hi && Aligned(win, w)
      invariant full == |FullWindows(off, end, w, lo, win)|
      invariant partial == |PartialWindows(chunks, off, end, w, lo, win)|
    {
      hide *;
      CountOneMore(chunks, off, end, w, lo, hi, win);
      if off <= win && end >= win + w {
        full := full + 1;
      } else {
        var found := HasOldData(chunks, win, w);
        if found { partial := partial + 1; }
      }
      win := win + w;
    }
    AtMostTwoPartial(chunks, off, end, w, lo, hi);
  }
}
