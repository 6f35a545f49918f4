/**
 The chunk engine (src/core/chunkio.c:113-380) over an append-only data file.  A method's
 `healthy` argument says that the environment refuses no allocation and no transfer; without it
 any such request may fail, and the contracts then say what a failure leaves behind.
 */
module ChunkIO {
  import opened Basics
  import opened Windows
  import opened ChunkMap
  import opened Repack

  class DataFile {
    var bytes: seq<byte>

    constructor ()
      ensures bytes == []
    {
      bytes := [];
    }
  }

  method LoadPayload(codec: Codec, fd: DataFile, c: Chunk, healthy: bool) returns (r: Result<seq<byte>>)
    ensures r.Ok? ==> Payload(codec, fd.bytes, c) == Some(r.value)
    ensures healthy && Payload(codec, fd.bytes, c).Some? ==> r.Ok?
  {
    var p := Payload(codec, fd.bytes, c);
    if p.None? { return Err(EIO); }
    if !healthy {
      if * { return Err(ENOMEM); }
    }
    r := Ok(p.value);
  }

  /** `pwrite_all` at the end of the file; an interrupted transfer may leave part of the blob. */
  method WriteAtEnd(fd: DataFile, blob: seq<byte>, eof: nat, healthy: bool) returns (r: Result<()>)
    requires eof == |fd.bytes|
    modifies fd
    ensures old(fd.bytes) <= fd.bytes <= old(fd.bytes) + blob
    ensures r.Ok? ==> fd.bytes == old(fd.bytes) + blob && |fd.bytes| <= OFF_MAX
    ensures healthy && eof + |blob| <= OFF_MAX ==> r.Ok?
    ensures healthy && r.Err? ==> r.error == EFBIG
  {
    if eof + |blob| > OFF_MAX { return Err(EFBIG); }
    if !healthy {
      if * {
        var part :| 0 <= part <= |blob|;
        fd.bytes := fd.bytes + blob[..part];
        return Err(EIO);
      }
    }
    fd.bytes := fd.bytes + blob;
    r := Ok(());
  }

  /** `myfs_blob_append`: compress or fall back to raw, append, describe the blob. */
  method AppendBlob(codec: Codec, fd: DataFile, eof: nat, payload: seq<byte>, logicalOffset: u64, healthy: bool)
    returns (r: Result<Chunk>, newEof: nat)
    requires codec.Lawful() && eof == |fd.bytes| && 0 < |payload| <= U32_MAX
    modifies fd
    ensures old(fd.bytes) <= fd.bytes && |fd.bytes| <= eof + |payload|
    ensures r.Ok? ==>
              && newEof == |fd.bytes|
              && r.value.logicalOffset == logicalOffset && r.value.storedSize == |payload|
              && r.value.physicalOffset == eof && r.value.physicalOffset + r.value.rawSize == newEof
              && Readable(codec, fd.bytes, r.value)
              && Payload(codec, fd.bytes, r.value) == Some(payload)
    ensures r.Ok? ==>
              var blob := fd.bytes[eof..];
              && r.value.checksum == codec.crc(blob)
              && if r.value.codecType == CODEC_ZSTD then r.value.flags == 1 && codec.compress(payload) == Some(blob)
                 else r.value.codecType == CODEC_RAW && r.value.flags == 0 && blob == payload
    ensures healthy && r.Ok? ==> (r.value.codecType == CODEC_ZSTD <==> codec.compress(payload).Some?)
    ensures healthy && eof + |payload| <= OFF_MAX ==> r.Ok?
    ensures healthy && r.Err? ==> r.error == EFBIG
  {
    newEof := eof;
    if !healthy {
      if * { return Err(ENOMEM), newEof; }
    }
    var blob, kind := payload, CODEC_RAW;
    var frame := codec.compress(payload);
    var compresses := healthy;
    if !healthy { compresses := *; }
    if compresses && frame.Some? {
      blob, kind := frame.value, CODEC_ZSTD;
    }
    assert 0 < |blob| <= |payload|;
    var wrote := WriteAtEnd(fd, blob, eof, healthy);
    if wrote.Err? { return Err(wrote.error), newEof; }
    assert (old(fd.bytes) + blob)[eof..eof + |blob|] == blob;
    var c := Chunk(logicalOffset, |blob|, |payload|, kind, if kind == CODEC_ZSTD then 1 else 0, codec.crc(blob), eof);
    assert payload[..|payload|] == payload;
    r, newEof := Ok(c), eof + |blob|;
  }

  ghost predicate NonEmpty(chunks: seq<Chunk>) {
    forall i :: 0 <= i < |chunks| ==> chunks[i].storedSize > 0
  }

  /** The first position at or after `win` that holds data, or `hi`. */
  method NextData(chunks: seq<Chunk>, off: int, patch: seq<byte>, win: int, hi: int) returns (next: int)
    requires Ordered(chunks) && NonEmpty(chunks) && Within(chunks, 0, hi) && win < hi
    requires |patch| > 0 ==> off + |patch| <= hi
    ensures win <= next <= hi
    ensures forall p :: win <= p < next ==> !HoldsData(chunks, off, patch, p)
    ensures next < hi ==> HoldsData(chunks, off, patch, next)
  {
    next := hi;
    if |patch| > 0 && off + |patch| > win {
      var pLo := if off > win then off else win;
      if pLo < next { next := pLo; }
    }
    ghost var patchNext := next;
    for i := 0 to |chunks|
      invariant next == patchNext
      invariant forall j :: 0 <= j < i ==> chunks[j].End() <= win
    {
      if chunks[i].End() <= win { continue; }
      var cLo := if chunks[i].logicalOffset > win then chunks[i].logicalOffset else win;
      if cLo < next { next := cLo; }
      assert chunks[i].Covers(cLo);
      break;
    }
  }

  /** `memcpy` into the window buffer. */
  method CopyInto(buf: array<byte>, at: nat, part: seq<byte>)
    requires at + |part| <= buf.Length
    modifies buf
    ensures Copied(old(buf[..]), at, part, buf[..])
  {
    forall k | 0 <= k < |part| {
      buf[at + k] := part[k];
    }
  }

  /** The payload of a chunk that spans several windows, decoded once. */
  datatype Cached = Nothing | Cached(chunk: Chunk, payload: seq<byte>)

  ghost predicate CacheSound(codec: Codec, data: seq<byte>, cache: Cached) {
    cache.Cached? ==> Payload(codec, data, cache.chunk) == Some(cache.payload)
  }

  /** The part of chunk `c` that falls into the window. */
  method WindowPart(codec: Codec, src: DataFile, c: Chunk, w: int, win: int, cache: Cached, healthy: bool)
    returns (r: Result<seq<byte>>, lo: int, newCache: Cached)
    requires w > 0 && win < c.End() && c.logicalOffset < win + w && c.storedSize > 0
    requires CacheSound(codec, src.bytes, cache)
    ensures CacheSound(codec, src.bytes, newCache)
    ensures lo == Max(c.logicalOffset, win)
    ensures r.Ok? ==>
              && Payload(codec, src.bytes, c).Some?
              && lo + |r.value| == Min(c.End(), win + w)
              && forall k :: 0 <= k < |r.value| ==> r.value[k] == ChunkByte(codec, src.bytes, c, lo + k)
    ensures healthy && Readable(codec, src.bytes, c) ==> r.Ok?
  {
    lo := if c.logicalOffset > win then c.logicalOffset else win;
    var hi := if c.End() < win + w then c.End() else win + w;
    newCache := cache;
    if win <= c.logicalOffset && c.End() <= win + w {
      r := LoadPayload(codec, src, c, healthy);
    } else {
      if !(cache.Cached? && cache.chunk == c) {
        newCache := Nothing;
        if !healthy {
          if * { return Err(ENOMEM), lo, newCache; }
        }
        var load := LoadPayload(codec, src, c, healthy);
        if load.Err? { return Err(load.error), lo, newCache; }
        newCache := Cached(c, load.value);
      }
      r := Ok(newCache.payload[lo - c.logicalOffset..hi - c.logicalOffset]);
    }
  }

  /** `memset`: a cleared buffer is the window of a file without chunks. */
  method ClearWindow(ghost codec: Codec, ghost data: seq<byte>, ghost w: int, ghost win: int, buf: array<byte>)
    requires buf.Length == w
    modifies buf
    ensures forall k :: 0 <= k < buf.Length ==> buf[k] == 0
    ensures Filled(codec, data, [], w, win, buf[..], 0)
  {
    forall k | 0 <= k < buf.Length {
      buf[k] := 0;
    }
  }

  /** One more chunk's share of the window. */
  method FillOne(codec: Codec, src: DataFile, ghost before: seq<Chunk>, c: Chunk, w: int, win: int,
                 buf: array<byte>, used: nat, cache: Cached, healthy: bool)
    returns (r: Result<nat>, newCache: Cached)
    requires w > 0 && Ordered(before + [c]) && Readable(codec, src.bytes, c)
    requires win < c.End() && c.logicalOffset < win + w
    requires Filled(codec, src.bytes, before, w, win, buf[..], used)
    requires CacheSound(codec, src.bytes, cache)
    modifies buf
    ensures CacheSound(codec, src.bytes, newCache)
    ensures r.Ok? ==> Filled(codec, src.bytes, before + [c], w, win, buf[..], r.value)
    ensures healthy ==> r.Ok?
  {
    ghost var old_buf := buf[..];
    var part, lo;
    part, lo, newCache := WindowPart(codec, src, c, w, win, cache, healthy);
    if part.Err? { return Err(part.error), newCache; }
    CopyInto(buf, lo - win, part.value);
    FillStep(codec, src.bytes, before, c, w, win, old_buf, used, lo, part.value, buf[..]);
    r := Ok(if lo + |part.value| - win > used then lo + |part.value| - win else used);
  }

  /** The chunks' share of one window, gathered in a zeroed buffer. */
  method FillWindow(codec: Codec, src: DataFile, chunks: seq<Chunk>, w: int, win: int,
                    buf: array<byte>, cache: Cached, healthy: bool)
    returns (r: Result<nat>, newCache: Cached)
    requires w > 0 && buf.Length == w
    requires Ordered(chunks) && AllReadable(codec, src.bytes, chunks)
    requires CacheSound(codec, src.bytes, cache)
    modifies buf
    ensures CacheSound(codec, src.bytes, newCache)
    ensures r.Ok? ==> Filled(codec, src.bytes, chunks, w, win, buf[..], r.value)
    ensures healthy ==> r.Ok?
  {
    hide Filled, CacheSound, Ordered;
    ClearWindow(codec, src.bytes, w, win, buf);
    assert chunks[..0] == [];
    r := Ok(0);
    newCache := cache;
    var i := 0;
    while i < |chunks| && chunks[i].logicalOffset < win + w
      invariant 0 <= i <= |chunks|
      invariant CacheSound(codec, src.bytes, newCache)
      invariant r.Ok? && Filled(codec, src.bytes, chunks[..i], w, win, buf[..], r.value)
    {
      ghost var before := chunks[..i];
      assert chunks[..i + 1] == before + [chunks[i]];
      OrderedPrefix(chunks, i + 1);
      if chunks[i].End() <= win {
        FillSkip(codec, src.bytes, before, chunks[i], w, win, buf[..], r.value);
      } else {
        r, newCache := FillOne(codec, src, before, chunks[i], w, win, buf, r.value, newCache, healthy);
        if r.Err? { return; }
      }
      i := i + 1;
    }
    LaterChunksStartLater(chunks, i);
    FillRest(codec, src.bytes, chunks, i, w, win, buf[..], r.value);
  }

  /** One window merged with the patch. */
  method MergeWindow(codec: Codec, src: DataFile, chunks: seq<Chunk>, off: int, patch: seq<byte>,
                     w: int, win: int, buf: array<byte>, cache: Cached, healthy: bool)
    returns (r: Result<nat>, newCache: Cached)
    requires w > 0 && buf.Length == w
    requires Ordered(chunks) && AllReadable(codec, src.bytes, chunks)
    requires CacheSound(codec, src.bytes, cache)
    modifies buf
    ensures CacheSound(codec, src.bytes, newCache)
    ensures r.Ok? ==> WindowBuffer(codec, src.bytes, chunks, off, patch, w, win, buf[..], r.value)
    ensures healthy ==> r.Ok?
  {
    hide Filled, WindowBuffer, CacheSound, Ordered, AllReadable;
    r, newCache := FillWindow(codec, src, chunks, w, win, buf, cache, healthy);
    if r.Err? { return; }
    var used := r.value;
    if |patch| > 0 && off + |patch| > win && off < win + w {
      var lo := if off > win then off else win;
      var hi := if off + |patch| < win + w then off + |patch| else win + w;
      ghost var before := buf[..];
      var part := patch[lo - off..hi - off];
      CopyInto(buf, lo - win, part);
      FillPatch(codec, src.bytes, chunks, off, patch, w, win, before, used, lo, part, buf[..]);
      if hi - win > used { used := hi - win; }
    } else {
      FillNoPatch(codec, src.bytes, chunks, off, patch, w, win, buf[..], used);
    }
    r := Ok(used);
  }

  lemma CacheSurvives(codec: Codec, data: seq<byte>, longer: seq<byte>, cache: Cached)
    requires data <= longer && CacheSound(codec, data, cache)
    ensures CacheSound(codec, longer, cache)
  {
    if cache.Cached? { AppendKeepsPayload(codec, data, longer, cache.chunk); }
  }

  /** The payload of one window: straight from the patch when it covers the window, else merged. */
  method WindowPayload(codec: Codec, src: DataFile, ghost src0: seq<byte>, chunks: seq<Chunk>, off: int,
                       patch: seq<byte>, w: int, win: int, cache: Cached, healthy: bool)
    returns (r: Result<seq<byte>>, newCache: Cached)
    requires w > 0 && Ordered(chunks) && AllReadable(codec, src.bytes, chunks)
    requires forall p :: ByteAt(codec, src.bytes, chunks, p) == ByteAt(codec, src0, chunks, p)
    requires CacheSound(codec, src.bytes, cache)
    ensures CacheSound(codec, src.bytes, newCache)
    ensures r.Ok? ==> WindowBuffer(codec, src0, chunks, off, patch, w, win, r.value, |r.value|)
    ensures healthy ==> r.Ok?
  {
    newCache := cache;
    if |patch| > 0 && off <= win && off + |patch| >= win + w {
      r := Ok(patch[win - off..win - off + w]);
      PatchedWindow(codec, src0, chunks, off, patch, w, win, r.value);
    } else {
      if !healthy {
        if * { return Err(ENOMEM), newCache; }
      }
      var buf := new byte[w];
      var used;
      used, newCache := MergeWindow(codec, src, chunks, off, patch, w, win, buf, cache, healthy);
      if used.Err? { return Err(used.error), newCache; }
      WindowBufferSame(codec, src.bytes, src0, chunks, off, patch, w, win, buf[..], used.value);
      r := Ok(buf[..used.value]);
    }
  }

  /** One round of the repack loop: a window with data ahead of its end becomes at most one blob. */
  method RepackWindow(codec: Codec, src: DataFile, dst: DataFile, ghost src0: seq<byte>, eof: nat, chunks: seq<Chunk>,
                      off: int, patch: seq<byte>, w: int, ghost lo: int, win: u64, ghost entries: seq<Chunk>,
                      cache: Cached, healthy: bool)
    returns (r: Result<Option<Chunk>>, newEof: nat, newCache: Cached)
    requires codec.Lawful() && SizeValid(w) && lo <= win && Aligned(win, w) && eof == |dst.bytes|
    requires Ordered(chunks) && AllReadable(codec, src.bytes, chunks)
    requires forall p :: ByteAt(codec, src.bytes, chunks, p) == ByteAt(codec, src0, chunks, p)
    requires CacheSound(codec, src.bytes, cache)
    requires Repacked(codec, src0, chunks, off, patch, w, lo, win, dst.bytes, entries)
    modifies dst
    ensures old(dst.bytes) <= dst.bytes && old(src.bytes) <= src.bytes && |dst.bytes| <= eof + w
    ensures r.Ok? ==> newEof == |dst.bytes| && CacheSound(codec, src.bytes, newCache)
    ensures r.Ok? ==> |dst.bytes| == |old(dst.bytes)| + (if r.value.Some? then r.value.value.rawSize else 0)
    ensures r.Ok? ==> Repacked(codec, src0, chunks, off, patch, w, lo, win + w, dst.bytes,
                               if r.value.Some? then entries + [r.value.value] else entries)
    ensures healthy && eof + w <= OFF_MAX ==> r.Ok?
    ensures healthy && r.Err? ==> r.error == EFBIG
  {
    newEof := eof;
    var payload;
    payload, newCache := WindowPayload(codec, src, src0, chunks, off, patch, w, win, cache, healthy);
    if payload.Err? { return Err(payload.error), newEof, newCache; }
    if |payload.value| == 0 {
      RepackedSkip(codec, src0, chunks, off, patch, w, lo, win, win + w, dst.bytes, entries);
      return Ok(None), newEof, newCache;
    }
    var chunk;
    chunk, newEof := AppendBlob(codec, dst, eof, payload.value, win, healthy);
    if chunk.Err? { return Err(chunk.error), newEof, newCache; }
    CacheSurvives(codec, old(src.bytes), src.bytes, newCache);
    assert payload.value[..|payload.value|] == payload.value;
    RepackedExtend(codec, src0, chunks, off, patch, w, lo, win, old(dst.bytes), entries,
                   payload.value, |payload.value|, dst.bytes, chunk.value);
    r := Ok(Some(chunk.value));
  }

  /** The end of the last window of a region. */
  function RegionEnd(hi: int, w: int): int
    requires w > 0
  {
    Base(hi + w - 1, w)
  }

  lemma RegionEndBounds(lo: int, hi: int, w: int)
    requires SizeValid(w) && 0 <= lo < hi <= OFF_MAX
    ensures Ceil(hi, w) == Ok(RegionEnd(hi, w))
    ensures Aligned(RegionEnd(hi, w), w) && hi <= RegionEnd(hi, w) <= OFF_MAX + 1
    ensures Aligned(Base(lo, w), w) && 0 <= Base(lo, w) <= lo && Base(lo, w) + w <= RegionEnd(hi, w)
    ensures Aligned(hi, w) ==> RegionEnd(hi, w) == hi
  {
    CeilLeast(hi, w);
    BaseBounds(lo, w);
    AlignedTop(w);
    assert RegionEnd(hi, w) <= OFF_MAX + 1;
    AlignedGap(Base(lo, w), RegionEnd(hi, w), w);
    if Aligned(hi, w) { assert RegionEnd(hi, w) <= hi; }
  }

  /** What every round of the repack loop keeps. */
  ghost predicate RepackLoop(codec: Codec, src0: seq<byte>, srcNow: seq<byte>, dstNow: seq<byte>, chunks: seq<Chunk>,
                             off: int, patch: seq<byte>, w: int, lo: int, win: int, end: int,
                             entries: seq<Chunk>, cache: Cached, eof: int)
    requires w > 0
  {
    && lo <= win <= end && Aligned(win, w) && eof == |dstNow|
    && AllReadable(codec, srcNow, chunks) && CacheSound(codec, srcNow, cache)
    && (forall p :: ByteAt(codec, srcNow, chunks, p) == ByteAt(codec, src0, chunks, p))
    && Repacked(codec, src0, chunks, off, patch, w, lo, win, dstNow, entries)
    && |entries| <= WindowCount(lo, win, w)
  }

  /** The gap ahead is jumped over, landing on the window that holds the next data. */
  lemma RepackJump(codec: Codec, src0: seq<byte>, srcNow: seq<byte>, dstNow: seq<byte>, chunks: seq<Chunk>,
                   off: int, patch: seq<byte>, w: int, lo: int, win: int, end: int,
                   entries: seq<Chunk>, cache: Cached, eof: int, data: int, next: int)
    requires SizeValid(w) && Aligned(lo, w) && Aligned(end, w)
    requires RepackLoop(codec, src0, srcNow, dstNow, chunks, off, patch, w, lo, win, end, entries, cache, eof)
    requires win + w <= data <= end && forall p :: win <= p < data ==> !HoldsData(chunks, off, patch, p)
    requires next == Base(data, w) || (next == end && forall p :: data <= p < end ==> !HoldsData(chunks, off, patch, p))
    ensures win < next
    ensures RepackLoop(codec, src0, srcNow, dstNow, chunks, off, patch, w, lo, next, end, entries, cache, eof)
  {
    BaseBounds(data, w);
    AlignedNext(win, w);
    AlignedGap(Base(data, w), win + w, w);
    RepackedSkip(codec, src0, chunks, off, patch, w, lo, win, next, dstNow, entries);
    WindowCountStep(lo, win, next, w);
  }

  /** A round that stored or skipped one window. */
  lemma RepackAdvance(codec: Codec, src0: seq<byte>, srcNow: seq<byte>, srcNext: seq<byte>, dstNow: seq<byte>,
                      dstNext: seq<byte>, chunks: seq<Chunk>, off: int, patch: seq<byte>, w: int, lo: int, win: int,
                      end: int, entries: seq<Chunk>, cache: Cached, eof: int,
                      entries': seq<Chunk>, cache': Cached, eof': int)
    requires SizeValid(w) && Aligned(lo, w) && Aligned(end, w) && win < end
    requires RepackLoop(codec, src0, srcNow, dstNow, chunks, off, patch, w, lo, win, end, entries, cache, eof)
    requires srcNow <= srcNext && eof' == |dstNext| && CacheSound(codec, srcNext, cache')
    requires Repacked(codec, src0, chunks, off, patch, w, lo, win + w, dstNext, entries')
    requires |entries'| <= |entries| + 1
    ensures RepackLoop(codec, src0, srcNext, dstNext, chunks, off, patch, w, lo, win + w, end, entries', cache', eof')
    ensures |entries| < WindowCount(lo, end, w)
  {
    hide Repacked, ByteAt;
    AlignedNext(win, w);
    AlignedGap(win, end, w);
    AppendKeepsBytes(codec, srcNow, srcNext, chunks);
    WindowCountStep(lo, win, win + w, w);
    WindowCountStep(lo, win, end, w);
  }

  lemma NoDataBeyond(chunks: seq<Chunk>, off: int, patch: seq<byte>, hi: int)
    requires Within(chunks, 0, hi) && (|patch| > 0 ==> off + |patch| <= hi)
    ensures forall p :: hi <= p ==> !HoldsData(chunks, off, patch, p)
  {
  }

  /** A round on a window that holds data. */
  method RepackRound(codec: Codec, src: DataFile, dst: DataFile, ghost src0: seq<byte>, eof: nat, chunks: seq<Chunk>,
                     off: int, patch: seq<byte>, w: int, ghost lo: int, win: int, ghost end: int,
                     ghost entries: seq<Chunk>, cache: Cached, healthy: bool)
    returns (r: Result<Option<Chunk>>, newEof: nat, newCache: Cached, ghost entries': seq<Chunk>)
    requires codec.Lawful() && SizeValid(w) && Ordered(chunks)
    requires Aligned(lo, w) && Aligned(end, w) && 0 <= lo && lo <= win < end <= OFF_MAX + 1
    requires RepackLoop(codec, src0, src.bytes, dst.bytes, chunks, off, patch, w, lo, win, end, entries, cache, eof)
    modifies dst
    ensures old(dst.bytes) <= dst.bytes && |dst.bytes| <= |old(dst.bytes)| + w
    ensures r.Ok? ==> |dst.bytes| == |old(dst.bytes)| + (if r.value.Some? then r.value.value.rawSize else 0)
    ensures entries' == if r.Ok? && r.value.Some? then entries + [r.value.value] else entries
    ensures r.Ok? ==>
              && win + w <= end && Aligned(win + w, w) && |entries| < WindowCount(lo, end, w)
              && newEof == |dst.bytes|
              && RepackLoop(codec, src0, src.bytes, dst.bytes, chunks, off, patch, w, lo, win + w, end, entries', newCache, newEof)
    ensures healthy && |dst.bytes| + w <= OFF_MAX ==> r.Ok?
    ensures healthy && r.Err? ==> r.error == EFBIG
  {
    ghost var srcWas, dstWas := src.bytes, dst.bytes;
    entries' := entries;
    r, newEof, newCache := RepackWindow(codec, src, dst, src0, eof, chunks, off, patch, w, lo, win, entries, cache, healthy);
    if r.Err? { return; }
    entries' := if r.value.Some? then entries + [r.value.value] else entries;
    RepackAdvance(codec, src0, srcWas, src.bytes, dstWas, dst.bytes, chunks, off, patch, w, lo, win, end,
                  entries, cache, eof, entries', newCache, newEof);
  }

  /** One iteration of the repack loop: jump over a gap, or store the window that holds data. */
  method RepackStep(codec: Codec, src: DataFile, dst: DataFile, ghost src0: seq<byte>, eof: nat, chunks: seq<Chunk>,
                    off: int, patch: seq<byte>, w: int, ghost lo: int, win: int, hi: int, end: int,
                    ghost entries: seq<Chunk>, cache: Cached, healthy: bool)
    returns (r: Result<Option<Chunk>>, newWin: int, newEof: nat, newCache: Cached, ghost entries': seq<Chunk>)
    requires codec.Lawful() && SizeValid(w) && Ordered(chunks) && NonEmpty(chunks) && Within(chunks, 0, hi)
    requires |patch| > 0 ==> off + |patch| <= hi
    requires Aligned(lo, w) && Aligned(end, w) && 0 <= lo && lo <= win < hi <= end <= OFF_MAX + 1
    requires RepackLoop(codec, src0, src.bytes, dst.bytes, chunks, off, patch, w, lo, win, end, entries, cache, eof)
    modifies dst
    ensures old(dst.bytes) <= dst.bytes
    ensures r.Ok? ==> |dst.bytes| <= |old(dst.bytes)| + (newWin - win)
    ensures r.Err? ==> |dst.bytes| <= |old(dst.bytes)| + w
    ensures r.Ok? ==> |dst.bytes| == |old(dst.bytes)| + (if r.value.Some? then r.value.value.rawSize else 0)
    ensures entries' == if r.Ok? && r.value.Some? then entries + [r.value.value] else entries
    ensures r.Ok? ==>
              && win < newWin <= end && Aligned(newWin, w)
              && (r.value.Some? ==> |entries| < WindowCount(lo, end, w))
              && RepackLoop(codec, src0, src.bytes, dst.bytes, chunks, off, patch, w, lo, newWin, end, entries', newCache, newEof)
    ensures healthy && |dst.bytes| + w <= OFF_MAX ==> r.Ok?
    ensures healthy && r.Err? ==> r.error == EFBIG
  {
    newWin, newEof, newCache, entries' := win, eof, cache, entries;
    var data := NextData(chunks, off, patch, win, hi);
    if data >= win + w {
      newWin := if data >= hi then end else Base(data, w);
      NoDataBeyond(chunks, off, patch, hi);
      RepackJump(codec, src0, src.bytes, dst.bytes, chunks, off, patch, w, lo, win, end, entries, cache, eof, data, newWin);
      r := Ok(None);
    } else {
      r, newEof, newCache, entries' := RepackRound(codec, src, dst, src0, eof, chunks, off, patch, w, lo, win, end, entries, cache, healthy);
      newWin := win + w;
    }
  }

  /** The loop over the windows of a region; `entries` has one slot per window. */
  method RepackRegion(codec: Codec, src: DataFile, dst: DataFile, eof: nat, chunks: seq<Chunk>, w: int,
                      lo: int, end: int, hi: int, off: int, patch: seq<byte>, entries: array<Chunk>, healthy: bool)
    returns (r: Result<nat>, newEof: nat)
    requires codec.Lawful() && SizeValid(w) && eof == |dst.bytes|
    requires Aligned(lo, w) && Aligned(end, w) && 0 <= lo < hi <= end <= OFF_MAX + 1 && end < hi + w
    requires Ordered(chunks) && NonEmpty(chunks) && Within(chunks, 0, hi)
    requires |patch| > 0 ==> off + |patch| <= hi
    requires RepackLoop(codec, src.bytes, src.bytes, dst.bytes, chunks, off, patch, w, lo, lo, end, [], Nothing, eof)
    requires entries.Length == WindowCount(lo, end, w)
    modifies dst, entries
    ensures old(dst.bytes) <= dst.bytes && |dst.bytes| <= |old(dst.bytes)| + (end - lo) + w
    ensures r.Ok? ==>
              && newEof == |dst.bytes| && r.value <= entries.Length
              && |dst.bytes| == |old(dst.bytes)| + TotalRaw(entries[..r.value])
              && Repacked(codec, old(src.bytes), chunks, off, patch, w, lo, end, dst.bytes, entries[..r.value])
    ensures healthy && r.Err? ==> r.error == EFBIG && |dst.bytes| + w > OFF_MAX
  {
    hide TotalRaw;
    TotalRawEmpty();
    newEof := eof;
    ghost var src0 := src.bytes;
    ghost var es := [];
    var count, win, cache := 0, lo, Nothing;
    while win < hi
      invariant lo <= win <= end && Aligned(win, w)
      invariant 0 <= count <= entries.Length && entries[..count] == es
      invariant old(dst.bytes) <= dst.bytes && |dst.bytes| <= |old(dst.bytes)| + (win - lo)
      invariant |dst.bytes| == |old(dst.bytes)| + TotalRaw(es)
      invariant RepackLoop(codec, src0, src.bytes, dst.bytes, chunks, off, patch, w, lo, win, end, es, cache, newEof)
      decreases end - win
    {
      hide *;
      ghost var before := es;
      var chunk;
      chunk, win, newEof, cache, es := RepackStep(codec, src, dst, src0, newEof, chunks, off, patch, w, lo, win, hi, end, es, cache, healthy);
      if chunk.Err? { return Err(chunk.error), newEof; }
      if chunk.value.Some? {
        TotalRawAdd(before, chunk.value.value);
        entries[count] := chunk.value.value;
        count := count + 1;
      }
    }
    AlignedGap(win, end, w);
    r := Ok(count);
  }

  /**
   `myfs_repack_windows`.  `src` and `dst` may be the same file: the engine reads old blobs while
   it appends new ones.  The entry array has one slot per window, as in the source.
   */
  method RepackWindows(codec: Codec, src: DataFile, dst: DataFile, eof: nat, chunks: seq<Chunk>, w: int,
                       lo: int, hi: int, off: int, patch: seq<byte>, healthy: bool)
    returns (r: Result<seq<Chunk>>, newEof: nat)
    requires codec.Lawful() && eof == |dst.bytes| && hi <= OFF_MAX
    requires Ordered(chunks) && AllReadable(codec, src.bytes, chunks) && Within(chunks, lo, hi)
    requires |patch| > 0 ==> lo <= off && off + |patch| <= hi
    modifies dst
    ensures old(dst.bytes) <= dst.bytes
    ensures hi <= lo ==> r == Ok([]) && dst.bytes == old(dst.bytes)
    ensures lo < hi && (!SizeValid(w) || lo < 0) ==> r == Err(EINVAL)
    ensures lo < hi && SizeValid(w) && 0 <= lo ==>
              |dst.bytes| <= |old(dst.bytes)| + (RegionEnd(hi, w) - Base(lo, w)) + w
    ensures r.Ok? ==> newEof == |dst.bytes| == |old(dst.bytes)| + TotalRaw(r.value)
    ensures r.Ok? && lo < hi ==>
              && SizeValid(w) && 0 <= lo
              && Repacked(codec, old(src.bytes), chunks, off, patch, w, Base(lo, w), RegionEnd(hi, w), dst.bytes, r.value)
              && |r.value| <= WindowCount(Base(lo, w), RegionEnd(hi, w), w) <= U32_MAX
    ensures healthy && lo < hi && SizeValid(w) && 0 <= lo && r.Err? ==>
              r.error == EFBIG &&
              (WindowCount(Base(lo, w), RegionEnd(hi, w), w) > U32_MAX
               || |old(dst.bytes)| + (RegionEnd(hi, w) - Base(lo, w)) + 2 * w > OFF_MAX)
  {
    newEof := eof;
    if hi <= lo { return Ok([]), newEof; }
    if !SizeValid(w) || lo < 0 { return Err(EINVAL), newEof; }
    RegionEndBounds(lo, hi, w);
    var base, end := Base(lo, w), RegionEnd(hi, w);
    WindowCountStep(base, base, end, w);
    QuotientUnique(0, 0, w);
    if WindowCount(base, end, w) > U32_MAX { return Err(EFBIG), newEof; }
    if !healthy {
      if * { return Err(ENOMEM), newEof; }
    }
    var entries := new Chunk[WindowCount(base, end, w)];
    RepackedEmpty(codec, src.bytes, chunks, off, patch, w, base, dst.bytes);
    var count;
    count, newEof := RepackRegion(codec, src, dst, eof, chunks, w, base, end, hi, off, patch, entries, healthy);
    if count.Err? { return Err(count.error), newEof; }
    r := Ok(entries[..count.value]);
  }
}
