/**
 Cutting a map (src/fuse_ops/file.c:265-312, 386-424): chunks beyond the new end go, a chunk that
 straddles it is shortened - in place when stored raw, by a rewritten blob when compressed.
 */
module Truncation {
  import opened Basics
  import opened Windows
  import opened ChunkMap
  import opened ChunkIO
  import opened FileState

  /** A raw blob read with a smaller `storedSize` gives the prefix. */
  lemma RawPrefix(codec: Codec, data: seq<byte>, c: Chunk, n: u32)
    requires Readable(codec, data, c) && c.codecType == CODEC_RAW && 0 < n <= c.storedSize
    ensures Readable(codec, data, c.(storedSize := n))
    ensures Payload(codec, data, c.(storedSize := n)) == Some(Payload(codec, data, c).value[..n])
  {
    var blob := data[c.physicalOffset..c.physicalOffset + c.rawSize];
    assert blob[..c.storedSize][..n] == blob[..n];
  }

  lemma ReadableKinds(codec: Codec, data: seq<byte>, c: Chunk)
    requires Readable(codec, data, c)
    ensures c.codecType == CODEC_RAW || c.codecType == CODEC_ZSTD
  {
  }

  /** `short` is `c` cut to `n` bytes. */
  ghost predicate Shortened(codec: Codec, data: seq<byte>, c: Chunk, data': seq<byte>, short: Chunk, n: int) {
    && Readable(codec, data, c) && Readable(codec, data', short)
    && short.logicalOffset == c.logicalOffset && short.storedSize == n <= c.storedSize
    && Payload(codec, data', short) == Some(Payload(codec, data, c).value[..n])
  }

  /** `rewrite_truncated_chunk_fd`. */
  method RewriteTruncated(codec: Codec, fd: DataFile, c: Chunk, n: u32, healthy: bool) returns (r: Result<Chunk>)
    requires codec.Lawful() && Readable(codec, fd.bytes, c) && 0 < n <= c.storedSize
    modifies fd
    ensures old(fd.bytes) <= fd.bytes && |fd.bytes| <= |old(fd.bytes)| + n
    ensures r.Ok? ==> Shortened(codec, old(fd.bytes), c, fd.bytes, r.value, n)
    ensures healthy && |old(fd.bytes)| + n <= OFF_MAX ==> r.Ok?
    ensures healthy && r.Err? ==> r.error == EFBIG
  {
    if !healthy {
      if * { return Err(ENOMEM); }
    }
    var plain := LoadPayload(codec, fd, c, healthy);
    if plain.Err? { return Err(plain.error); }
    var eof;
    r, eof := AppendBlob(codec, fd, |fd.bytes|, plain.value[..n], c.logicalOffset, healthy);
    if r.Err? { return; }
    if !healthy {
      if * { return Err(EIO); }
    }
  }

  /** A chunk that straddles the new end. */
  method Shorten(codec: Codec, fd: DataFile, c: Chunk, n: u32, healthy: bool) returns (r: Result<Chunk>)
    requires codec.Lawful() && Readable(codec, fd.bytes, c) && 0 < n <= c.storedSize
    modifies fd
    ensures old(fd.bytes) <= fd.bytes && |fd.bytes| <= |old(fd.bytes)| + n
    ensures c.codecType == CODEC_RAW ==> r == Ok(c.(storedSize := n)) && fd.bytes == old(fd.bytes)
    ensures r.Ok? ==> Shortened(codec, old(fd.bytes), c, fd.bytes, r.value, n)
    ensures healthy && |old(fd.bytes)| + n <= OFF_MAX ==> r.Ok?
    ensures healthy && r.Err? ==> r.error == EFBIG
  {
    if c.codecType == CODEC_ZSTD {
      r := RewriteTruncated(codec, fd, c, n, healthy);
    } else {
      ReadableKinds(codec, fd.bytes, c);
      RawPrefix(codec, fd.bytes, c, n);
      r := Ok(c.(storedSize := n));
    }
  }

  /** The first `|out|` chunks with everything from `size` on removed. */
  ghost predicate KeptTo(codec: Codec, data: seq<byte>, chunks: seq<Chunk>, data': seq<byte>, out: seq<Chunk>, size: int) {
    && |out| <= |chunks| && data <= data'
    && forall i :: 0 <= i < |out| ==> KeptOne(codec, data, chunks[i], data', out[i], size)
  }

  ghost predicate KeptOne(codec: Codec, data: seq<byte>, c: Chunk, data': seq<byte>, kept: Chunk, size: int) {
    && Readable(codec, data', kept)
    && kept.logicalOffset == c.logicalOffset < size && kept.End() == Min(c.End(), size)
    && forall p :: kept.Covers(p) ==> ChunkByte(codec, data', kept, p) == ChunkByte(codec, data, c, p)
  }

  lemma ShortenedIsKept(codec: Codec, data: seq<byte>, was: seq<byte>, c: Chunk, data': seq<byte>, short: Chunk, size: int)
    requires data <= was && Readable(codec, data, c) && c.logicalOffset < size < c.End()
    requires Shortened(codec, was, c, data', short, size - c.logicalOffset)
    ensures KeptOne(codec, data, c, data', short, size)
  {
    AppendKeepsPayload(codec, data, was, c);
  }

  lemma WholeIsKept(codec: Codec, data: seq<byte>, c: Chunk, data': seq<byte>, size: int)
    requires data <= data' && Readable(codec, data, c) && c.logicalOffset < size && c.End() <= size
    ensures KeptOne(codec, data, c, data', c, size)
  {
    AppendKeepsPayload(codec, data, data', c);
  }

  lemma KeptGrows(codec: Codec, data: seq<byte>, c: Chunk, was: seq<byte>, data': seq<byte>, kept: Chunk, size: int)
    requires KeptOne(codec, data, c, was, kept, size) && was <= data'
    ensures KeptOne(codec, data, c, data', kept, size)
  {
    AppendKeepsPayload(codec, was, data', kept);
  }

  lemma KeptStep(codec: Codec, data: seq<byte>, chunks: seq<Chunk>, was: seq<byte>, data': seq<byte>,
                 out: seq<Chunk>, kept: Chunk, size: int)
    requires KeptTo(codec, data, chunks, was, out, size) && |out| < |chunks| && was <= data'
    requires KeptOne(codec, data, chunks[|out|], data', kept, size)
    ensures KeptTo(codec, data, chunks, data', out + [kept], size)
  {
    hide KeptOne;
    forall i | 0 <= i < |out|
      ensures KeptOne(codec, data, chunks[i], data', out[i], size)
    {
      KeptGrows(codec, data, chunks[i], was, data', out[i], size);
    }
  }

  lemma KeptIsWellFormed(codec: Codec, data: seq<byte>, chunks: seq<Chunk>, data': seq<byte>, out: seq<Chunk>, size: int, was: int)
    requires WellFormed(codec, data, chunks, was) && KeptTo(codec, data, chunks, data', out, size)
    ensures WellFormed(codec, data', out, size)
  {
    hide Readable, ChunkByte;
    forall i, j | 0 <= i < j < |out|
      ensures out[i].End() <= out[j].logicalOffset
    {
      assert KeptOne(codec, data, chunks[i], data', out[i], size) && KeptOne(codec, data, chunks[j], data', out[j], size);
    }
    forall i | 0 <= i < |out|
      ensures Readable(codec, data', out[i]) && 0 <= out[i].logicalOffset && out[i].End() <= size
    {
      assert KeptOne(codec, data, chunks[i], data', out[i], size);
    }
  }

  lemma KeptByte(codec: Codec, data: seq<byte>, chunks: seq<Chunk>, data': seq<byte>, out: seq<Chunk>, size: int, p: int)
    requires Ordered(chunks) && Ordered(out) && KeptTo(codec, data, chunks, data', out, size) && p < size
    requires |out| == |chunks| || chunks[|out|].logicalOffset >= size
    ensures ByteAt(codec, data', out, p) == ByteAt(codec, data, chunks, p)
  {
    hide ChunkByte, Readable;
    if Covered(chunks, p) {
      var i :| 0 <= i < |chunks| && chunks[i].Covers(p);
      if i < |out| {
        assert KeptOne(codec, data, chunks[i], data', out[i], size);
        ByteAtChunk(codec, data', out, i, p);
        ByteAtChunk(codec, data, chunks, i, p);
      } else {
        LaterChunksStartLater(chunks, |out|);
      }
    } else {
      forall i | 0 <= i < |out|
        ensures !out[i].Covers(p)
      {
        assert KeptOne(codec, data, chunks[i], data', out[i], size);
        assert !chunks[i].Covers(p);
      }
    }
  }

  lemma KeptIsCut(codec: Codec, data: seq<byte>, chunks: seq<Chunk>, data': seq<byte>, out: seq<Chunk>, size: int, was: int)
    requires WellFormed(codec, data, chunks, was) && KeptTo(codec, data, chunks, data', out, size)
    requires |out| == |chunks| || chunks[|out|].logicalOffset >= size
    ensures CutTo(codec, data, chunks, data', out, size)
  {
    KeptIsWellFormed(codec, data, chunks, data', out, size, was);
    hide ByteAt, KeptOne, AllReadable, Within;
    forall p | 0 <= p < size
      ensures ByteAt(codec, data', out, p) == ByteAt(codec, data, chunks, p)
    {
      KeptByte(codec, data, chunks, data', out, size, p);
    }
  }

  /** A cut map is packed if the whole one was. */
  lemma KeptIsPacked(codec: Codec, data: seq<byte>, chunks: seq<Chunk>, data': seq<byte>, out: seq<Chunk>, size: int)
    requires KeptTo(codec, data, chunks, data', out, size)
    ensures forall w :: IsPacked(chunks, w) ==> IsPacked(out, w)
  {
    hide ChunkByte, Aligned, SizeValid, Payload;
    forall i | 0 <= i < |out|
      ensures out[i].logicalOffset == chunks[i].logicalOffset && 0 < out[i].storedSize <= chunks[i].storedSize
    {
      assert KeptOne(codec, data, chunks[i], data', out[i], size);
    }
  }

  lemma ReadableAt(codec: Codec, data: seq<byte>, longer: seq<byte>, chunks: seq<Chunk>, i: nat)
    requires AllReadable(codec, data, chunks) && data <= longer && i < |chunks|
    ensures Readable(codec, data, chunks[i]) && Readable(codec, longer, chunks[i])
  {
    AppendKeepsPayload(codec, data, longer, chunks[i]);
  }

  /** One round: keep the chunk, shortening it when it straddles the new end. */
  method KeepOne(codec: Codec, fd: DataFile, ghost data0: seq<byte>, c: Chunk, size: int, healthy: bool)
    returns (r: Result<Chunk>)
    requires codec.Lawful() && data0 <= fd.bytes
    requires Readable(codec, data0, c) && Readable(codec, fd.bytes, c) && c.logicalOffset < size
    modifies fd
    ensures old(fd.bytes) <= fd.bytes && |fd.bytes| <= |old(fd.bytes)| + U32_MAX
    ensures r.Ok? ==> KeptOne(codec, data0, c, fd.bytes, r.value, size)
    ensures c.End() <= size ==> r.Ok? && fd.bytes == old(fd.bytes)
    ensures healthy && |old(fd.bytes)| + c.storedSize <= OFF_MAX ==> r.Ok?
    ensures healthy && r.Err? ==> r.error == EFBIG
  {
    if c.End() > size {
      ghost var was := fd.bytes;
      r := Shorten(codec, fd, c, size - c.logicalOffset, healthy);
      if r.Err? { return; }
      ShortenedIsKept(codec, data0, was, c, fd.bytes, r.value, size);
    } else {
      WholeIsKept(codec, data0, c, fd.bytes, size);
      r := Ok(c);
    }
  }

  /** The loop over the copied map; `next` is cut in place and its first chunks are kept. */
  method CutChunks(codec: Codec, fd: DataFile, chunks: seq<Chunk>, ghost was: int, size: nat, healthy: bool)
    returns (r: Result<seq<Chunk>>)
    requires codec.Lawful() && WellFormed(codec, fd.bytes, chunks, was)
    modifies fd
    ensures old(fd.bytes) <= fd.bytes && |fd.bytes| <= |old(fd.bytes)| + U32_MAX
    ensures r.Ok? ==> |r.value| <= |chunks| && CutTo(codec, old(fd.bytes), chunks, fd.bytes, r.value, size)
    ensures r.Ok? ==> forall w :: IsPacked(chunks, w) ==> IsPacked(r.value, w)
    ensures healthy && |old(fd.bytes)| + U32_MAX <= OFF_MAX ==> r.Ok?
    ensures healthy && r.Err? ==> r.error == EFBIG
  {
    ghost var data0 := fd.bytes;
    var next := new Chunk[|chunks|](i requires 0 <= i < |chunks| => chunks[i]);
    var keep := 0;
    ghost var cut := false;
    while keep < |chunks|
      invariant 0 <= keep <= |chunks| && data0 <= fd.bytes
      invariant forall k :: keep <= k < |chunks| ==> next[k] == chunks[k]
      invariant KeptTo(codec, data0, chunks, fd.bytes, next[..keep], size)
      invariant !cut ==> fd.bytes == data0
      invariant cut ==> keep == |chunks| || chunks[keep].logicalOffset >= size
      invariant |fd.bytes| <= |data0| + U32_MAX
    {
      hide *;
      if next[keep].logicalOffset >= size { break; }
      AllReadableOf(codec, data0, chunks, was);
      ReadableAt(codec, data0, fd.bytes, chunks, keep);
      ghost var before := fd.bytes;
      cut := chunks[keep].End() > size;
      NextStartsLater(codec, data0, chunks, was, keep);
      var kept := KeepOne(codec, fd, data0, next[keep], size, healthy);
      if kept.Err? { return Err(kept.error); }
      KeptStep(codec, data0, chunks, before, fd.bytes, next[..keep], kept.value, size);
      next[keep] := kept.value;
      assert next[..keep + 1] == next[..keep] + [kept.value];
      keep := keep + 1;
    }
    KeptIsCut(codec, data0, chunks, fd.bytes, next[..keep], size, was);
    KeptIsPacked(codec, data0, chunks, fd.bytes, next[..keep], size);
    r := Ok(next[..keep]);
  }

  lemma AllReadableOf(codec: Codec, data: seq<byte>, chunks: seq<Chunk>, size: int)
    requires WellFormed(codec, data, chunks, size)
    ensures AllReadable(codec, data, chunks) && U32_MAX == 0xFFFF_FFFF && OFF_MAX == 0x7FFF_FFFF_FFFF_FFFF
  {
  }

  lemma NextStartsLater(codec: Codec, data: seq<byte>, chunks: seq<Chunk>, size: int, i: nat)
    requires WellFormed(codec, data, chunks, size) && i < |chunks|
    ensures i + 1 < |chunks| ==> chunks[i].End() <= chunks[i + 1].logicalOffset
  {
  }
}
