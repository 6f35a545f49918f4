/**
 The meaning of a chunk map (src/myfs.h:58-95): which logical byte string a data file and a list
 of chunks stand for.  This is the reference every content operation is proved against.
 */
module ChunkMap {
  import opened Basics
  import opened Windows

  /**
   The compressor, decompressor and checksum as unknown functions.  `compress` gives `None` when
   the source stores the payload raw (incompressible data, a magic prefix, or a codec failure).
   */
  datatype Codec = Codec(compress: seq<byte> -> Option<seq<byte>>,
                         decompress: seq<byte> -> Option<seq<byte>>,
                         crc: seq<byte> -> u32) {
    /** Frames are non-empty, save at least an eighth, and decompress to what was compressed. */
    ghost predicate Lawful() {
      forall p: seq<byte> :: compress(p).Some? ==>
        && 0 < |compress(p).value| < |p| - |p| / 8
        && decompress(compress(p).value) == Some(p)
    }
  }

  const CODEC_RAW: int := 0
  const CODEC_ZSTD: int := 1

  /** One stored blob: `rawSize` bytes on disk that decode to at least `storedSize` bytes. */
  datatype Chunk = Chunk(logicalOffset: u64, rawSize: u32, storedSize: u32, codecType: byte,
                         flags: byte, checksum: u32, physicalOffset: u64) {
    function End(): int { logicalOffset + storedSize }

    predicate Covers(p: int) { logicalOffset <= p < logicalOffset + storedSize }
  }

  /** `myfs_chunk_payload_load`: read, check the CRC, decode, keep the first `storedSize` bytes. */
  function Payload(codec: Codec, data: seq<byte>, c: Chunk): (r: Option<seq<byte>>)
    ensures r.Some? ==> |r.value| == c.storedSize
  {
    if c.physicalOffset + c.rawSize > |data| then None
    else
      var blob := data[c.physicalOffset..c.physicalOffset + c.rawSize];
      if c.checksum != 0 && codec.crc(blob) != c.checksum then None
      else if c.codecType == CODEC_RAW then
        if c.rawSize < c.storedSize then None else Some(blob[..c.storedSize])
      else if c.codecType == CODEC_ZSTD then
        var frame := codec.decompress(blob);
        if frame.None? || |frame.value| < c.storedSize then None
        else Some(frame.value[..c.storedSize])
      else None
  }

  /** A chunk that can be read back: non-empty on both sides and decodable from `data`. */
  predicate Readable(codec: Codec, data: seq<byte>, c: Chunk) {
    c.storedSize > 0 && c.rawSize > 0 && Payload(codec, data, c).Some?
  }

  ghost predicate AllReadable(codec: Codec, data: seq<byte>, chunks: seq<Chunk>) {
    forall i :: 0 <= i < |chunks| ==> Readable(codec, data, chunks[i])
  }

  /** Bytes on disk that the map refers to. */
  function TotalRaw(chunks: seq<Chunk>): nat {
    if chunks == [] then 0 else TotalRaw(chunks[..|chunks| - 1]) + chunks[|chunks| - 1].rawSize
  }

  lemma TotalRawEmpty()
    ensures TotalRaw([]) == 0
  {
  }

  lemma {:induction false} TotalRawPrefix(chunks: seq<Chunk>, i: nat)
    requires i <= |chunks|
    ensures TotalRaw(chunks[..i]) <= TotalRaw(chunks)
  {
    if i < |chunks| {
      TotalRawPrefix(chunks[..|chunks| - 1], i);
      assert chunks[..|chunks| - 1][..i] == chunks[..i];
    } else {
      assert chunks[..i] == chunks;
    }
  }

  lemma TotalRawAdd(chunks: seq<Chunk>, c: Chunk)
    ensures TotalRaw(chunks + [c]) == TotalRaw(chunks) + c.rawSize
  {
    assert (chunks + [c])[..|chunks|] == chunks;
  }

  /** Sorted by offset and pairwise disjoint. */
  ghost predicate Ordered(chunks: seq<Chunk>) {
    forall i, j :: 0 <= i < j < |chunks| ==> chunks[i].End() <= chunks[j].logicalOffset
  }

  ghost predicate Within(chunks: seq<Chunk>, lo: int, hi: int) {
    forall i :: 0 <= i < |chunks| ==> lo <= chunks[i].logicalOffset && chunks[i].End() <= hi
  }

  /** The invariant of a live map over its data file. */
  ghost predicate WellFormed(codec: Codec, data: seq<byte>, chunks: seq<Chunk>, size: int) {
    AllReadable(codec, data, chunks) && Ordered(chunks) && Within(chunks, 0, size)
  }

  ghost predicate Covered(chunks: seq<Chunk>, p: int) {
    exists i :: 0 <= i < |chunks| && chunks[i].Covers(p)
  }

  ghost function ChunkByte(codec: Codec, data: seq<byte>, c: Chunk, p: int): byte {
    if c.Covers(p) && Payload(codec, data, c).Some?
    then Payload(codec, data, c).value[p - c.logicalOffset] else 0
  }

  /** The byte a map denotes at position `p`: the covering chunk's byte, or zero in a hole. */
  ghost function ByteAt(codec: Codec, data: seq<byte>, chunks: seq<Chunk>, p: int): byte {
    if Covered(chunks, p)
    then var i :| 0 <= i < |chunks| && chunks[i].Covers(p); ChunkByte(codec, data, chunks[i], p)
    else 0
  }

  /** The whole logical file. */
  ghost function Content(codec: Codec, data: seq<byte>, chunks: seq<Chunk>, size: nat): (r: seq<byte>)
    ensures |r| == size
    ensures forall p :: 0 <= p < size ==> r[p] == ByteAt(codec, data, chunks, p)
  {
    seq(size, p => ByteAt(codec, data, chunks, p))
  }

  lemma OrderedPrefix(chunks: seq<Chunk>, n: int)
    requires Ordered(chunks) && 0 <= n <= |chunks|
    ensures Ordered(chunks[..n])
  {
  }

  lemma LaterChunksStartLater(chunks: seq<Chunk>, i: int)
    requires Ordered(chunks) && 0 <= i
    ensures forall j :: i <= j < |chunks| ==> chunks[i].logicalOffset <= chunks[j].logicalOffset
  {
  }

  lemma CoveringChunkUnique(chunks: seq<Chunk>, i: int, j: int, p: int)
    requires Ordered(chunks)
    requires 0 <= i < |chunks| && chunks[i].Covers(p)
    requires 0 <= j < |chunks| && chunks[j].Covers(p)
    ensures i == j
  {
  }

  lemma ByteAtChunk(codec: Codec, data: seq<byte>, chunks: seq<Chunk>, i: int, p: int)
    requires Ordered(chunks) && 0 <= i < |chunks| && chunks[i].Covers(p)
    ensures ByteAt(codec, data, chunks, p) == ChunkByte(codec, data, chunks[i], p)
  {
    assert Covered(chunks, p);
    var j :| 0 <= j < |chunks| && chunks[j].Covers(p) &&
             ByteAt(codec, data, chunks, p) == ChunkByte(codec, data, chunks[j], p);
    CoveringChunkUnique(chunks, i, j, p);
  }

  /** Appending to the data file disturbs no blob already stored. */
  lemma AppendKeepsPayload(codec: Codec, data: seq<byte>, longer: seq<byte>, c: Chunk)
    requires data <= longer && c.physicalOffset + c.rawSize <= |data|
    ensures Payload(codec, longer, c) == Payload(codec, data, c)
  {
    var lo, hi := c.physicalOffset, c.physicalOffset + c.rawSize;
    assert longer[lo..hi] == data[lo..hi];
  }

  lemma AppendKeepsBytes(codec: Codec, data: seq<byte>, longer: seq<byte>, chunks: seq<Chunk>)
    requires data <= longer && AllReadable(codec, data, chunks)
    ensures AllReadable(codec, longer, chunks)
    ensures forall p :: ByteAt(codec, longer, chunks, p) == ByteAt(codec, data, chunks, p)
  {
    forall i | 0 <= i < |chunks|
      ensures Payload(codec, longer, chunks[i]) == Payload(codec, data, chunks[i])
    {
      assert Readable(codec, data, chunks[i]);
      AppendKeepsPayload(codec, data, longer, chunks[i]);
    }
    forall i | 0 <= i < |chunks|
      ensures Readable(codec, longer, chunks[i])
    {
      assert Readable(codec, data, chunks[i]);
    }
  }

  /** Two maps agree at `p` when the chunks covering `p` are the same. */
  lemma SameCoverSameByte(codec: Codec, data: seq<byte>, a: seq<Chunk>, b: seq<Chunk>, p: int)
    requires Ordered(a) && Ordered(b)
    requires forall i :: 0 <= i < |a| && a[i].Covers(p) ==> a[i] in b
    requires forall j :: 0 <= j < |b| && b[j].Covers(p) ==> b[j] in a
    ensures ByteAt(codec, data, a, p) == ByteAt(codec, data, b, p)
  {
    if Covered(a, p) {
      var i :| 0 <= i < |a| && a[i].Covers(p);
      var j :| 0 <= j < |b| && b[j] == a[i];
      ByteAtChunk(codec, data, a, i, p);
      ByteAtChunk(codec, data, b, j, p);
    }
  }

  /** `chunk_map_is_packed`: every chunk starts a window and stays inside it. */
  predicate IsPacked(chunks: seq<Chunk>, w: int) {
    && SizeValid(w)
    && forall i :: 0 <= i < |chunks| ==>
         && Aligned(chunks[i].logicalOffset, w)
         && 0 < chunks[i].storedSize <= w
         && (i > 0 ==> chunks[i - 1].logicalOffset < chunks[i].logicalOffset)
  }

  /** The source's test looks at neighbours only; it gives order and disjointness overall. */
  lemma {:induction false} PackedIsOrdered(chunks: seq<Chunk>, w: int)
    requires IsPacked(chunks, w)
    ensures Ordered(chunks)
  {
    forall i, j | 0 <= i < j < |chunks|
      ensures chunks[i].End() <= chunks[j].logicalOffset
    {
      PackedIncreasing(chunks, w, i, j);
      AlignedGap(chunks[i].logicalOffset, chunks[j].logicalOffset, w);
    }
  }

  lemma {:induction false} PackedIncreasing(chunks: seq<Chunk>, w: int, i: int, j: int)
    requires IsPacked(chunks, w) && 0 <= i < j < |chunks|
    ensures chunks[i].logicalOffset < chunks[j].logicalOffset
    decreases j
  {
    if i < j - 1 { PackedIncreasing(chunks, w, i, j - 1); }
  }

  /** A chunk of a packed map lies in a single window. */
  lemma PackedChunkInOneWindow(chunks: seq<Chunk>, w: int, i: int, p: int)
    requires IsPacked(chunks, w) && 0 <= i < |chunks| && chunks[i].Covers(p)
    ensures chunks[i].logicalOffset == Base(p, w)
  {
    BaseUnique(p, chunks[i].logicalOffset, w);
  }

  /** Chunks `first..end` replaced by `entries`, as in the write path and in journal replay. */
  function Splice(chunks: seq<Chunk>, first: int, end: int, entries: seq<Chunk>): seq<Chunk>
    requires 0 <= first <= end <= |chunks|
  {
    chunks[..first] + entries + chunks[end..]
  }

  /** The chunks `first..end` are exactly those inside the region; the rest lie wholly outside. */
  ghost predicate Isolates(chunks: seq<Chunk>, first: int, end: int, lo: int, hi: int) {
    && 0 <= first <= end <= |chunks| && lo <= hi
    && (forall i :: 0 <= i < first ==> chunks[i].End() <= lo)
    && (forall i :: first <= i < end ==> lo <= chunks[i].logicalOffset && chunks[i].End() <= hi)
    && (forall i :: end <= i < |chunks| ==> hi <= chunks[i].logicalOffset)
  }

  lemma SpliceOrdered(chunks: seq<Chunk>, first: int, end: int, lo: int, hi: int, entries: seq<Chunk>)
    requires Ordered(chunks) && Isolates(chunks, first, end, lo, hi)
    requires Ordered(entries) && Within(entries, lo, hi)
    ensures Ordered(Splice(chunks, first, end, entries))
  {
    var s := Splice(chunks, first, end, entries);
    var n := first + |entries|;
    forall i, j | 0 <= i < j < |s|
      ensures s[i].End() <= s[j].logicalOffset
    {
      if j < first {
        assert s[i] == chunks[i] && s[j] == chunks[j];
      } else if i >= n {
        assert s[i] == chunks[end + (i - n)] && s[j] == chunks[end + (j - n)];
      }
    }
  }

  /** Splicing changes the content inside the region only, and there it is what `entries` denote. */
  lemma SpliceByte(codec: Codec, data: seq<byte>, chunks: seq<Chunk>,
                   first: int, end: int, lo: int, hi: int, entries: seq<Chunk>, p: int)
    requires Ordered(chunks) && Isolates(chunks, first, end, lo, hi)
    requires Ordered(entries) && Within(entries, lo, hi)
    ensures ByteAt(codec, data, Splice(chunks, first, end, entries), p) ==
            ByteAt(codec, data, if lo <= p < hi then entries else chunks, p)
  {
    var s := Splice(chunks, first, end, entries);
    var n := first + |entries|;
    SpliceOrdered(chunks, first, end, lo, hi, entries);
    var b := if lo <= p < hi then entries else chunks;
    forall i | 0 <= i < |s| && s[i].Covers(p)
      ensures s[i] in b
    {
      if i < first { assert s[i] == chunks[i]; }
      else if i >= n { assert s[i] == chunks[end + (i - n)]; }
      else { assert s[i] == entries[i - first]; }
    }
    forall j | 0 <= j < |b| && b[j].Covers(p)
      ensures b[j] in s
    {
      if lo <= p < hi { assert s[first + j] == b[j]; }
      else if j < first { assert s[j] == b[j]; }
      else { assert s[n + (j - end)] == b[j]; }
    }
    SameCoverSameByte(codec, data, s, b, p);
  }

  // ----- packed maps stay packed, and have one chunk per window at most

  lemma SplicePacked(chunks: seq<Chunk>, first: int, end: int, lo: int, hi: int, entries: seq<Chunk>, w: int)
    requires IsPacked(chunks, w) && IsPacked(entries, w) && Isolates(chunks, first, end, lo, hi) && Within(entries, lo, hi)
    ensures IsPacked(Splice(chunks, first, end, entries), w)
  {
    hide Aligned, SizeValid;
    var s := Splice(chunks, first, end, entries);
    var n := first + |entries|;
    forall i | 0 <= i < |s|
      ensures Aligned(s[i].logicalOffset, w) && 0 < s[i].storedSize <= w
      ensures i > 0 ==> s[i - 1].logicalOffset < s[i].logicalOffset
    {
      PlaceInSplice(chunks, first, end, entries, i);
      if i > 0 { PlaceInSplice(chunks, first, end, entries, i - 1); }
    }
  }

  lemma PlaceInSplice(chunks: seq<Chunk>, first: int, end: int, entries: seq<Chunk>, i: nat)
    requires 0 <= first <= end <= |chunks| && i < |Splice(chunks, first, end, entries)|
    ensures Splice(chunks, first, end, entries)[i] ==
            if i < first then chunks[i] else if i < first + |entries| then entries[i - first]
            else chunks[end + (i - first - |entries|)]
  {
  }

  lemma {:induction false} PackedOffsets(chunks: seq<Chunk>, w: int, i: nat)
    requires IsPacked(chunks, w) && i < |chunks| && forall j :: 0 <= j < |chunks| ==> 0 <= chunks[j].logicalOffset
    ensures w > 0 && i * w <= chunks[i].logicalOffset
    decreases i
  {
    if i > 0 {
      PackedOffsets(chunks, w, i - 1);
      AlignedGap(chunks[i - 1].logicalOffset, chunks[i].logicalOffset, w);
      assert i * w == (i - 1) * w + w;
    } else {
      assert SizeValid(w);
      assert 0 * w == 0;
    }
  }

  /** A packed map has no more chunks than the file has windows. */
  lemma PackedCount(chunks: seq<Chunk>, w: int, size: nat)
    requires IsPacked(chunks, w) && Within(chunks, 0, size)
    ensures w > 0 && |chunks| * w < size + w
  {
    if |chunks| > 0 {
      PackedOffsets(chunks, w, |chunks| - 1);
      assert |chunks| * w == (|chunks| - 1) * w + w;
    } else {
      assert SizeValid(w);
      assert 0 * w == 0;
    }
  }
}
