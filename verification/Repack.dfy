/**
 What repacking promises, on values (src/core/chunkio.c:188-380): old chunks and a patch become at
 most one chunk per window, and the new chunks denote the old content overlaid by the patch.
 */
module Repack {
  import opened Basics
  import opened Windows
  import opened ChunkMap

  predicate InPatch(off: int, patch: seq<byte>, p: int) { off <= p < off + |patch| }

  /** Positions that carry data, as opposed to holes. */
  ghost predicate HoldsData(chunks: seq<Chunk>, off: int, patch: seq<byte>, p: int) {
    InPatch(off, patch, p) || Covered(chunks, p)
  }

  /** The old content overlaid by the patch. */
  ghost function Merged(codec: Codec, data: seq<byte>, chunks: seq<Chunk>,
                        off: int, patch: seq<byte>, p: int): byte
  {
    if InPatch(off, patch, p) then patch[p - off] else ByteAt(codec, data, chunks, p)
  }

  /** `entries`, stored in `out`, are the repacked form of `[lo, hi)`; both bounds are window starts. */
  ghost predicate Repacked(codec: Codec, data: seq<byte>, chunks: seq<Chunk>,
                           off: int, patch: seq<byte>, w: int, lo: int, hi: int,
                           out: seq<byte>, entries: seq<Chunk>)
    requires w > 0
  {
    && AllReadable(codec, out, entries)
    && Ordered(entries)
    && (forall i :: 0 <= i < |entries| ==>
          && Aligned(entries[i].logicalOffset, w) && entries[i].storedSize <= w
          && lo <= entries[i].logicalOffset && entries[i].logicalOffset + w <= hi
          && HoldsData(chunks, off, patch, entries[i].End() - 1))
    && (forall p :: lo <= p < hi ==>
          ByteAt(codec, out, entries, p) == Merged(codec, data, chunks, off, patch, p))
    && (forall p :: lo <= p < hi && HoldsData(chunks, off, patch, p) ==> Covered(entries, p))
  }

  lemma RepackedEmpty(codec: Codec, data: seq<byte>, chunks: seq<Chunk>,
                      off: int, patch: seq<byte>, w: int, lo: int, out: seq<byte>)
    requires w > 0
    ensures Repacked(codec, data, chunks, off, patch, w, lo, lo, out, [])
  {
  }

  /** Jumping over a gap adds nothing. */
  lemma RepackedSkip(codec: Codec, data: seq<byte>, chunks: seq<Chunk>,
                     off: int, patch: seq<byte>, w: int, lo: int, win: int, next: int,
                     out: seq<byte>, entries: seq<Chunk>)
    requires w > 0 && win <= next
    requires Repacked(codec, data, chunks, off, patch, w, lo, win, out, entries)
    requires forall p :: win <= p < next ==> !HoldsData(chunks, off, patch, p)
    ensures Repacked(codec, data, chunks, off, patch, w, lo, next, out, entries)
  {
    forall p | lo <= p < next
      ensures ByteAt(codec, out, entries, p) == Merged(codec, data, chunks, off, patch, p)
    {
      if win <= p {
        assert !HoldsData(chunks, off, patch, p);
        assert !Covered(entries, p);
      }
    }
  }

  /** The content of one window buffer: `used` bytes of data, then nothing. */
  ghost predicate WindowBuffer(codec: Codec, data: seq<byte>, chunks: seq<Chunk>,
                               off: int, patch: seq<byte>, w: int, win: int, buf: seq<byte>, used: int)
  {
    && 0 <= used <= |buf| && used <= w
    && (forall k :: 0 <= k < used ==> buf[k] == Merged(codec, data, chunks, off, patch, win + k))
    && (forall p :: win + used <= p < win + w ==> !HoldsData(chunks, off, patch, p))
    && (used > 0 ==> HoldsData(chunks, off, patch, win + used - 1))
  }

  lemma CoveredExtend(entries: seq<Chunk>, c: Chunk, p: int)
    ensures Covered(entries + [c], p) <==> Covered(entries, p) || c.Covers(p)
  {
    var es := entries + [c];
    if Covered(entries, p) {
      var i :| 0 <= i < |entries| && entries[i].Covers(p);
      assert es[i].Covers(p);
    } else if c.Covers(p) {
      assert es[|entries|].Covers(p);
    }
  }

  lemma ByteAtExtend(codec: Codec, data: seq<byte>, entries: seq<Chunk>, c: Chunk, p: int)
    requires Ordered(entries + [c])
    ensures ByteAt(codec, data, entries + [c], p) ==
            if c.Covers(p) then ChunkByte(codec, data, c, p) else ByteAt(codec, data, entries, p)
  {
    var es := entries + [c];
    if c.Covers(p) {
      ByteAtChunk(codec, data, es, |entries|, p);
    } else {
      assert Ordered(entries) by {
        forall i, j | 0 <= i < j < |entries|
          ensures entries[i].End() <= entries[j].logicalOffset
        {
          assert es[i] == entries[i] && es[j] == entries[j];
        }
      }
      SameCoverSameByte(codec, data, es, entries, p);
    }
  }

  lemma OrderedExtend(entries: seq<Chunk>, c: Chunk)
    requires Ordered(entries)
    requires forall i :: 0 <= i < |entries| ==> entries[i].End() <= c.logicalOffset
    ensures Ordered(entries + [c])
  {
    var es := entries + [c];
    forall i, j | 0 <= i < j < |es|
      ensures es[i].End() <= es[j].logicalOffset
    {
      assert es[i] == entries[i];
      if j < |entries| { assert es[j] == entries[j]; }
    }
  }

  /** One position inside or below the window a buffer is stored for. */
  lemma RepackedExtendAt(codec: Codec, data: seq<byte>, chunks: seq<Chunk>,
                         off: int, patch: seq<byte>, w: int, win: int,
                         out: seq<byte>, entries: seq<Chunk>,
                         buf: seq<byte>, used: int, c: Chunk, p: int)
    requires Ordered(entries + [c]) && p < win + w
    requires forall i :: 0 <= i < |entries| ==> entries[i].End() <= win
    requires WindowBuffer(codec, data, chunks, off, patch, w, win, buf, used)
    requires c.logicalOffset == win && c.storedSize == used
    requires Payload(codec, out, c) == Some(buf[..used])
    requires p < win ==> ByteAt(codec, out, entries, p) == Merged(codec, data, chunks, off, patch, p)
    requires p < win && HoldsData(chunks, off, patch, p) ==> Covered(entries, p)
    ensures ByteAt(codec, out, entries + [c], p) == Merged(codec, data, chunks, off, patch, p)
    ensures HoldsData(chunks, off, patch, p) ==> Covered(entries + [c], p)
  {
    ByteAtExtend(codec, out, entries, c, p);
    CoveredExtend(entries, c, p);
    if win <= p {
      assert !Covered(entries, p);
      if p < win + used {
        assert buf[p - win] == Merged(codec, data, chunks, off, patch, win + (p - win));
      } else {
        assert !HoldsData(chunks, off, patch, p);
      }
    }
  }

  lemma ReadableExtend(codec: Codec, data: seq<byte>, entries: seq<Chunk>, c: Chunk)
    requires AllReadable(codec, data, entries) && Readable(codec, data, c)
    ensures AllReadable(codec, data, entries + [c])
  {
    hide Readable;
  }

  /** Storing a full window buffer as one more chunk extends the repacked part by a window. */
  lemma RepackedExtend(codec: Codec, data: seq<byte>, chunks: seq<Chunk>,
                       off: int, patch: seq<byte>, w: int, lo: int, win: int,
                       out: seq<byte>, entries: seq<Chunk>,
                       buf: seq<byte>, used: int, out': seq<byte>, c: Chunk)
    requires w > 0 && lo <= win && Aligned(win, w)
    requires Repacked(codec, data, chunks, off, patch, w, lo, win, out, entries)
    requires WindowBuffer(codec, data, chunks, off, patch, w, win, buf, used) && used > 0
    requires out <= out' && c.logicalOffset == win && c.storedSize == used
    requires Readable(codec, out', c) && Payload(codec, out', c) == Some(buf[..used])
    ensures Repacked(codec, data, chunks, off, patch, w, lo, win + w, out', entries + [c])
  {
    assert HoldsData(chunks, off, patch, c.End() - 1);
    hide WindowBuffer, HoldsData, Covered, Merged, ByteAt, Payload, ChunkByte;
    AppendKeepsBytes(codec, out, out', entries);
    OrderedExtend(entries, c);
    ReadableExtend(codec, out', entries, c);
    assert Ordered(entries + [c]);
    hide Ordered, AllReadable, Readable;
    forall p | lo <= p < win + w
      ensures ByteAt(codec, out', entries + [c], p) == Merged(codec, data, chunks, off, patch, p)
      ensures HoldsData(chunks, off, patch, p) ==> Covered(entries + [c], p)
    {
      RepackedExtendAt(codec, data, chunks, off, patch, w, win, out', entries, buf, used, c, p);
    }
  }

  /** A window buffer holding the bytes of `chunks`; data ends after `used` bytes. */
  ghost predicate Filled(codec: Codec, data: seq<byte>, chunks: seq<Chunk>, w: int, win: int,
                         buf: seq<byte>, used: int)
  {
    && |buf| == w && 0 <= used <= w
    && (forall k :: 0 <= k < w ==> buf[k] == ByteAt(codec, data, chunks, win + k))
    && (forall p :: win + used <= p < win + w ==> !Covered(chunks, p))
    && (used > 0 ==> Covered(chunks, win + used - 1))
  }

  /** `after` is `before` with `part` copied to position `at`. */
  ghost predicate Copied(before: seq<byte>, at: int, part: seq<byte>, after: seq<byte>) {
    && |after| == |before|
    && forall k :: 0 <= k < |after| ==>
         after[k] == if at <= k < at + |part| then part[k - at] else before[k]
  }

  lemma FillSkip(codec: Codec, data: seq<byte>, chunks: seq<Chunk>, c: Chunk, w: int, win: int,
                 buf: seq<byte>, used: int)
    requires Filled(codec, data, chunks, w, win, buf, used)
    requires Ordered(chunks + [c]) && (c.End() <= win || win + w <= c.logicalOffset)
    ensures Filled(codec, data, chunks + [c], w, win, buf, used)
  {
    forall p | win <= p < win + w
      ensures ByteAt(codec, data, chunks + [c], p) == ByteAt(codec, data, chunks, p)
      ensures Covered(chunks + [c], p) == Covered(chunks, p)
    {
      ByteAtExtend(codec, data, chunks, c, p);
      CoveredExtend(chunks, c, p);
    }
    if used > 0 { assert Covered(chunks, win + used - 1); }
    forall k | 0 <= k < w
      ensures buf[k] == ByteAt(codec, data, chunks + [c], win + k)
    {
      assert win <= win + k < win + w;
    }
  }

  lemma FillStep(codec: Codec, data: seq<byte>, chunks: seq<Chunk>, c: Chunk, w: int, win: int,
                 buf: seq<byte>, used: int, lo: int, part: seq<byte>, buf': seq<byte>)
    requires Filled(codec, data, chunks, w, win, buf, used)
    requires Ordered(chunks + [c]) && c.storedSize > 0
    requires win < c.End() && c.logicalOffset < win + w
    requires lo == Max(c.logicalOffset, win) && lo + |part| == Min(c.End(), win + w)
    requires forall k :: 0 <= k < |part| ==> part[k] == ChunkByte(codec, data, c, lo + k)
    requires Copied(buf, lo - win, part, buf')
    ensures Filled(codec, data, chunks + [c], w, win, buf', Max(used, lo + |part| - win))
  {
    var hi := lo + |part|;
    forall p | win <= p < win + w
      ensures ByteAt(codec, data, chunks + [c], p) ==
              if lo <= p < hi then ChunkByte(codec, data, c, p) else ByteAt(codec, data, chunks, p)
      ensures Covered(chunks + [c], p) == (lo <= p < hi || Covered(chunks, p))
    {
      ByteAtExtend(codec, data, chunks, c, p);
      CoveredExtend(chunks, c, p);
    }
    forall k | 0 <= k < w
      ensures buf'[k] == ByteAt(codec, data, chunks + [c], win + k)
    {
      assert win <= win + k < win + w;
    }
    if used > hi - win { assert Covered(chunks, win + used - 1); }
  }

  lemma FillRest(codec: Codec, data: seq<byte>, chunks: seq<Chunk>, i: int, w: int, win: int,
                 buf: seq<byte>, used: int)
    requires Ordered(chunks) && 0 <= i <= |chunks|
    requires Filled(codec, data, chunks[..i], w, win, buf, used)
    requires forall j :: i <= j < |chunks| ==> win + w <= chunks[j].logicalOffset
    ensures Filled(codec, data, chunks, w, win, buf, used)
  {
    var pre := chunks[..i];
    forall p | win <= p < win + w
      ensures ByteAt(codec, data, chunks, p) == ByteAt(codec, data, pre, p)
      ensures Covered(chunks, p) == Covered(pre, p)
    {
      forall j | 0 <= j < |chunks| && chunks[j].Covers(p)
        ensures chunks[j] in pre
      {
        assert pre[j] == chunks[j];
      }
      SameCoverSameByte(codec, data, chunks, pre, p);
    }
    forall k | 0 <= k < w
      ensures buf[k] == ByteAt(codec, data, chunks, win + k)
    {
      assert win <= win + k < win + w;
    }
    if used > 0 { assert Covered(pre, win + used - 1); }
  }

  /** Laying the patch over a filled buffer. */
  lemma FillPatch(codec: Codec, data: seq<byte>, chunks: seq<Chunk>, off: int, patch: seq<byte>,
                  w: int, win: int, buf: seq<byte>, used: int, lo: int, part: seq<byte>, buf': seq<byte>)
    requires Filled(codec, data, chunks, w, win, buf, used)
    requires off < win + w && win < off + |patch| && |part| > 0
    requires lo == Max(off, win) && lo + |part| == Min(off + |patch|, win + w)
    requires forall k :: 0 <= k < |part| ==> part[k] == patch[lo - off + k]
    requires Copied(buf, lo - win, part, buf')
    ensures WindowBuffer(codec, data, chunks, off, patch, w, win, buf', Max(used, lo + |part| - win))
  {
    var hi := lo + |part|;
    forall k | 0 <= k < Max(used, hi - win)
      ensures buf'[k] == Merged(codec, data, chunks, off, patch, win + k)
    {
      FillPatchAt(codec, data, chunks, off, patch, w, win, buf, used, lo, part, buf', k);
    }
    if used > hi - win { assert Covered(chunks, win + used - 1); }
  }

  lemma FillPatchAt(codec: Codec, data: seq<byte>, chunks: seq<Chunk>, off: int, patch: seq<byte>,
                    w: int, win: int, buf: seq<byte>, used: int, lo: int, part: seq<byte>, buf': seq<byte>, k: int)
    requires Filled(codec, data, chunks, w, win, buf, used)
    requires off < win + w && win < off + |patch| && |part| > 0
    requires lo == Max(off, win) && lo + |part| == Min(off + |patch|, win + w)
    requires forall i :: 0 <= i < |part| ==> part[i] == patch[lo - off + i]
    requires Copied(buf, lo - win, part, buf') && 0 <= k < w
    ensures buf'[k] == Merged(codec, data, chunks, off, patch, win + k)
  {
    hide ByteAt, Covered;
    if lo <= win + k < lo + |part| {
      var i := win + k - lo;
      assert buf'[k] == part[i] == patch[lo - off + i];
    }
  }

  lemma FillNoPatch(codec: Codec, data: seq<byte>, chunks: seq<Chunk>, off: int, patch: seq<byte>,
                    w: int, win: int, buf: seq<byte>, used: int)
    requires Filled(codec, data, chunks, w, win, buf, used)
    requires |patch| == 0 || off + |patch| <= win || win + w <= off
    ensures WindowBuffer(codec, data, chunks, off, patch, w, win, buf, used)
  {
  }

  /** A window the patch covers entirely needs no merging. */
  lemma PatchedWindow(codec: Codec, data: seq<byte>, chunks: seq<Chunk>, off: int, patch: seq<byte>,
                      w: int, win: int, buf: seq<byte>)
    requires w > 0 && off <= win && win + w <= off + |patch|
    requires buf == patch[win - off..win - off + w]
    ensures WindowBuffer(codec, data, chunks, off, patch, w, win, buf, w)
  {
  }

  lemma WindowBufferSame(codec: Codec, data: seq<byte>, data': seq<byte>, chunks: seq<Chunk>,
                         off: int, patch: seq<byte>, w: int, win: int, buf: seq<byte>, used: int)
    requires WindowBuffer(codec, data, chunks, off, patch, w, win, buf, used)
    requires forall p :: ByteAt(codec, data, chunks, p) == ByteAt(codec, data', chunks, p)
    ensures WindowBuffer(codec, data', chunks, off, patch, w, win, buf, used)
  {
  }

  /** Number of windows between two window starts. */
  function WindowCount(lo: int, hi: int, w: int): int
    requires w > 0
  {
    (hi - lo) / w
  }

  lemma WindowCountStep(lo: int, win: int, next: int, w: int)
    requires w > 0 && Aligned(lo, w) && Aligned(win, w) && Aligned(next, w) && win < next
    ensures WindowCount(lo, win, w) + 1 <= WindowCount(lo, next, w)
  {
    var a, b, c := lo / w, win / w, next / w;
    assert lo == w * a && win == w * b && next == w * c;
    assert win - lo == w * (b - a) && next - lo == w * (c - a);
    QuotientUnique(win - lo, b - a, w);
    QuotientUnique(next - lo, c - a, w);
    if c <= b {
      if c < b { ProductStep(w, c, b); }
    }
  }

  lemma DataWindowHasChunk(codec: Codec, data: seq<byte>, chunks: seq<Chunk>,
                           off: int, patch: seq<byte>, w: int, lo: int, hi: int,
                           out: seq<byte>, entries: seq<Chunk>, win: int, p: int) returns (i: int)
    requires w > 0 && Repacked(codec, data, chunks, off, patch, w, lo, hi, out, entries)
    requires Aligned(win, w) && lo <= win && win + w <= hi
    requires win <= p < win + w && HoldsData(chunks, off, patch, p)
    ensures 0 <= i < |entries| && entries[i].logicalOffset == win
  {
    assert Covered(entries, p);
    i :| 0 <= i < |entries| && entries[i].Covers(p);
    BaseUnique(p, win, w);
    BaseUnique(p, entries[i].logicalOffset, w);
  }

  lemma ChunkMarksDataWindow(codec: Codec, data: seq<byte>, chunks: seq<Chunk>,
                             off: int, patch: seq<byte>, w: int, lo: int, hi: int,
                             out: seq<byte>, entries: seq<Chunk>, i: int) returns (p: int)
    requires w > 0 && Repacked(codec, data, chunks, off, patch, w, lo, hi, out, entries)
    requires 0 <= i < |entries|
    ensures entries[i].logicalOffset <= p < entries[i].logicalOffset + w && HoldsData(chunks, off, patch, p)
  {
    assert Readable(codec, out, entries[i]);
    p := entries[i].End() - 1;
  }

  lemma ChunkOfWindowUnique(codec: Codec, data: seq<byte>, chunks: seq<Chunk>,
                            off: int, patch: seq<byte>, w: int, lo: int, hi: int,
                            out: seq<byte>, entries: seq<Chunk>, i: int, j: int)
    requires w > 0 && Repacked(codec, data, chunks, off, patch, w, lo, hi, out, entries)
    requires 0 <= i < |entries| && 0 <= j < |entries| && entries[i].logicalOffset == entries[j].logicalOffset
    ensures i == j
  {
    assert Readable(codec, out, entries[i]) && Readable(codec, out, entries[j]);
    CoveringChunkUnique(entries, i, j, entries[i].logicalOffset);
  }

  /** Exactly one chunk per window that holds data, and none for an empty window. */
  lemma OneChunkPerDataWindow(codec: Codec, data: seq<byte>, chunks: seq<Chunk>,
                              off: int, patch: seq<byte>, w: int, lo: int, hi: int,
                              out: seq<byte>, entries: seq<Chunk>, win: int)
    requires w > 0 && Repacked(codec, data, chunks, off, patch, w, lo, hi, out, entries)
    requires Aligned(win, w) && lo <= win && win + w <= hi
    ensures (exists p :: win <= p < win + w && HoldsData(chunks, off, patch, p)) <==>
            (exists i :: 0 <= i < |entries| && entries[i].logicalOffset == win)
    ensures forall i, j | 0 <= i < |entries| && 0 <= j < |entries| ::
              entries[i].logicalOffset == win && entries[j].logicalOffset == win ==> i == j
  {
    hide Repacked;
    if p :| win <= p < win + w && HoldsData(chunks, off, patch, p) {
      var i := DataWindowHasChunk(codec, data, chunks, off, patch, w, lo, hi, out, entries, win, p);
    }
    if i :| 0 <= i < |entries| && entries[i].logicalOffset == win {
      var p := ChunkMarksDataWindow(codec, data, chunks, off, patch, w, lo, hi, out, entries, i);
    }
    forall i, j | 0 <= i < |entries| && 0 <= j < |entries| &&
        entries[i].logicalOffset == win && entries[j].logicalOffset == win
      ensures i == j
    {
      ChunkOfWindowUnique(codec, data, chunks, off, patch, w, lo, hi, out, entries, i, j);
    }
  }

  /** What repacking gives is a packed map. */
  lemma RepackedIsPacked(codec: Codec, data: seq<byte>, chunks: seq<Chunk>,
                         off: int, patch: seq<byte>, w: int, lo: int, hi: int,
                         out: seq<byte>, entries: seq<Chunk>)
    requires SizeValid(w) && Repacked(codec, data, chunks, off, patch, w, lo, hi, out, entries)
    ensures IsPacked(entries, w)
  {
    forall i | 0 <= i < |entries|
      ensures 0 < entries[i].storedSize
      ensures i > 0 ==> entries[i - 1].logicalOffset < entries[i].logicalOffset
    {
      assert Readable(codec, out, entries[i]);
      if i > 0 { assert Readable(codec, out, entries[i - 1]); }
    }
  }
}
