/**
 Rewriting a whole generation (src/core/compact.c:41-85, 1981-2188): blobs copied verbatim when the
 map is packed, otherwise - or for a new window size - everything repacked.
 */
module Compaction {
  import opened Basics
  import opened Windows
  import opened ChunkMap
  import opened Repack
  import opened ChunkIO
  import opened Wire
  import opened Journal
  import opened JournalProofs
  import opened MetadataFile
  import opened FileState
  import opened Handles
  import Tickets

  /** `myfs_choose_resize_target`: halve on many merges, double on many full windows. */
  function ChooseTarget(window: int, liveBytes: u64, full: u64, partial: u64, inCooldown: bool): (r: Result<Option<int>>)
    ensures r.Ok? <==> SizeValid(window)
    ensures r.Ok? ==>
              var sample := Min(full + partial, U64_MAX);
              var ripe := !inCooldown && full + partial >= Tickets.MIN_SAMPLE;
              && (r.value == Some(window / 2) <==>
                    ripe && 5 * partial >= 3 * sample && window > MIN_WINDOW && partial * (window / 2) >= liveBytes)
              && (r.value == Some(window * 2) <==>
                    ripe && 5 * partial < 3 * sample && 10 * full >= 9 * sample && window < MAX_WINDOW && full * window >= liveBytes)
              && (r.value.Some? ==> SizeValid(r.value.value) && (r.value.value == window / 2 || r.value.value == window * 2))
  {
    var sample := Tickets.Add(full, partial);
    if !SizeValid(window) then Err(EINVAL)
    else if inCooldown || sample < Tickets.MIN_SAMPLE then Ok(None)
    else if partial * 100 >= sample * 60 then
      if window <= MIN_WINDOW then Ok(None) else Worthwhile(window / 2, window / 2, partial, liveBytes)
    else if full * 100 >= sample * 90 then
      if window >= MAX_WINDOW then Ok(None) else Worthwhile(window * 2, window, full, liveBytes)
    else Ok(None)
  }

  /** The saturated product decides as the exact one would. */
  function Worthwhile(candidate: int, step: int, events: u64, liveBytes: u64): (r: Result<Option<int>>)
    requires step > 0
    ensures r == Ok(if events * step >= liveBytes then Some(candidate) else None)
  {
    assert events > U64_MAX / step ==> events * step > U64_MAX by {
      if events > U64_MAX / step { QuotientBound(events, step); }
    }
    var benefit := if events > U64_MAX / step then U64_MAX else events * step;
    if benefit < liveBytes then Ok(None) else Ok(Some(candidate))
  }

  lemma QuotientBound(events: int, step: int)
    requires step > 0 && events > U64_MAX / step
    ensures events * step > U64_MAX
  {
    ProductStep(step, U64_MAX / step, events);
  }

  // ----- verbatim copy

  /** `c` moved to `at` of `data'` with its blob. */
  lemma MovedChunk(codec: Codec, data: seq<byte>, data': seq<byte>, c: Chunk, at: u64)
    requires Readable(codec, data, c) && at + c.rawSize <= |data'|
    requires data'[at..at + c.rawSize] == data[c.physicalOffset..c.physicalOffset + c.rawSize]
    ensures Readable(codec, data', c.(physicalOffset := at))
    ensures Payload(codec, data', c.(physicalOffset := at)) == Payload(codec, data, c)
  {
  }

  lemma BlobStored(codec: Codec, data: seq<byte>, c: Chunk)
    requires Readable(codec, data, c)
    ensures 0 < c.rawSize && c.physicalOffset + c.rawSize <= |data|
    ensures c.checksum != 0 ==> codec.crc(data[c.physicalOffset..c.physicalOffset + c.rawSize]) == c.checksum
  {
  }

  /** `out` over `data'` is `chunks` over `data` with every blob moved. */
  ghost predicate Moved(codec: Codec, data: seq<byte>, chunks: seq<Chunk>, data': seq<byte>, out: seq<Chunk>) {
    && |out| == |chunks|
    && forall i :: 0 <= i < |out| ==> MovedOne(codec, data, chunks[i], data', out[i])
  }

  ghost predicate MovedOne(codec: Codec, data: seq<byte>, c: Chunk, data': seq<byte>, moved: Chunk) {
    && Readable(codec, data', moved) && moved == c.(physicalOffset := moved.physicalOffset)
    && Payload(codec, data', moved) == Payload(codec, data, c)
  }

  lemma MovedGrows(codec: Codec, data: seq<byte>, c: Chunk, was: seq<byte>, data': seq<byte>, moved: Chunk)
    requires MovedOne(codec, data, c, was, moved) && was <= data'
    ensures MovedOne(codec, data, c, data', moved)
  {
    AppendKeepsPayload(codec, was, data', moved);
  }

  lemma MovedStep(codec: Codec, data: seq<byte>, chunks: seq<Chunk>, was: seq<byte>, data': seq<byte>,
                  out: seq<Chunk>, i: nat, moved: Chunk)
    requires i < |chunks| && Moved(codec, data, chunks[..i], was, out) && was <= data'
    requires MovedOne(codec, data, chunks[i], data', moved)
    ensures Moved(codec, data, chunks[..i + 1], data', out + [moved])
  {
    hide MovedOne;
    forall k | 0 <= k < i
      ensures MovedOne(codec, data, chunks[k], data', out[k])
    {
      assert chunks[..i][k] == chunks[k];
      MovedGrows(codec, data, chunks[k], was, data', out[k]);
    }
  }

  lemma MovedByte(codec: Codec, data: seq<byte>, chunks: seq<Chunk>, data': seq<byte>, out: seq<Chunk>, p: int)
    requires Ordered(chunks) && Ordered(out) && Moved(codec, data, chunks, data', out)
    ensures ByteAt(codec, data', out, p) == ByteAt(codec, data, chunks, p)
  {
    hide Readable;
    if Covered(chunks, p) {
      var i :| 0 <= i < |chunks| && chunks[i].Covers(p);
      assert MovedOne(codec, data, chunks[i], data', out[i]);
      MovedByteAt(codec, data, chunks, data', out, i, p);
    } else {
      forall i | 0 <= i < |out|
        ensures !out[i].Covers(p)
      {
        assert MovedOne(codec, data, chunks[i], data', out[i]);
        assert !chunks[i].Covers(p);
      }
    }
  }

  lemma MovedByteAt(codec: Codec, data: seq<byte>, chunks: seq<Chunk>, data': seq<byte>, out: seq<Chunk>, i: int, p: int)
    requires Ordered(chunks) && Ordered(out) && |out| == |chunks|
    requires 0 <= i < |chunks| && chunks[i].Covers(p) && MovedOne(codec, data, chunks[i], data', out[i])
    ensures ByteAt(codec, data', out, p) == ByteAt(codec, data, chunks, p)
  {
    hide Payload;
    ByteAtChunk(codec, data, chunks, i, p);
    ByteAtChunk(codec, data', out, i, p);
  }

  lemma MovedOrdered(codec: Codec, data: seq<byte>, chunks: seq<Chunk>, data': seq<byte>, out: seq<Chunk>, size: int, w: int)
    requires WellFormed(codec, data, chunks, size) && Moved(codec, data, chunks, data', out)
    ensures WellFormed(codec, data', out, size)
    ensures IsPacked(chunks, w) ==> IsPacked(out, w)
  {
    hide Readable, Aligned;
    forall i | 0 <= i < |out|
      ensures Readable(codec, data', out[i])
      ensures out[i].logicalOffset == chunks[i].logicalOffset && out[i].storedSize == chunks[i].storedSize
    {
      assert MovedOne(codec, data, chunks[i], data', out[i]);
    }
  }

  /** One blob: read, check the CRC, write at the end of the new file. */
  method CopyBlob(codec: Codec, src: DataFile, dst: DataFile, c: Chunk, eof: nat, healthy: bool)
    returns (r: Result<Chunk>, newEof: nat)
    requires src != dst && Readable(codec, src.bytes, c) && eof == |dst.bytes|
    modifies dst
    ensures old(dst.bytes) <= dst.bytes && newEof == (if r.Ok? then |dst.bytes| else eof)
    ensures r.Ok? ==> MovedOne(codec, src.bytes, c, dst.bytes, r.value)
    ensures r.Ok? ==> r.value.rawSize == c.rawSize && newEof == eof + c.rawSize
    ensures healthy && r.Err? ==> r.error == EFBIG && eof + c.rawSize > OFF_MAX
  {
    newEof := eof;
    BlobStored(codec, src.bytes, c);
    if !healthy {
      if * { return Err(ENOMEM), newEof; }
    }
    var blob := src.bytes[c.physicalOffset..c.physicalOffset + c.rawSize];
    if c.checksum != 0 && codec.crc(blob) != c.checksum { return Err(EIO), newEof; }
    var wrote := WriteAtEnd(dst, blob, eof, healthy);
    if wrote.Err? { return Err(wrote.error), newEof; }
    assert (old(dst.bytes) + blob)[eof..eof + c.rawSize] == blob;
    MovedChunk(codec, src.bytes, dst.bytes, c, eof);
    r, newEof := Ok(c.(physicalOffset := eof)), eof + c.rawSize;
  }

  /** The copy loop; chunk descriptions are updated in place. */
  method CopyVerbatim(codec: Codec, src: DataFile, dst: DataFile, chunks: seq<Chunk>, healthy: bool) returns (r: Result<seq<Chunk>>)
    requires src != dst && AllReadable(codec, src.bytes, chunks) && dst.bytes == []
    modifies dst
    ensures r.Ok? ==> Moved(codec, src.bytes, chunks, dst.bytes, r.value) && |dst.bytes| == TotalRaw(r.value) == TotalRaw(chunks)
    ensures healthy && r.Err? ==> r.error == EFBIG && TotalRaw(chunks) > OFF_MAX
  {
    hide TotalRaw;
    TotalRawEmpty();
    var moved := new Chunk[|chunks|](i requires 0 <= i < |chunks| => chunks[i]);
    var eof := 0;
    assert moved[..0] == [] && chunks[..0] == [];
    for i := 0 to |chunks|
      invariant eof == |dst.bytes| == TotalRaw(chunks[..i]) == TotalRaw(moved[..i])
      invariant forall k :: i <= k < |chunks| ==> moved[k] == chunks[k]
      invariant Moved(codec, src.bytes, chunks[..i], dst.bytes, moved[..i])
    {
      hide Readable, MovedOne, Payload;
      ghost var was := dst.bytes;
      assert Readable(codec, src.bytes, chunks[i]);
      TotalRawAdd(chunks[..i], chunks[i]);
      assert chunks[..i + 1] == chunks[..i] + [chunks[i]];
      TotalRawPrefix(chunks, i + 1);
      var chunk;
      chunk, eof := CopyBlob(codec, src, dst, moved[i], eof, healthy);
      if chunk.Err? { return Err(chunk.error); }
      MovedStep(codec, src.bytes, chunks, was, dst.bytes, moved[..i], i, chunk.value);
      TotalRawAdd(moved[..i], chunk.value);
      moved[i] := chunk.value;
      assert moved[..i + 1] == moved[..i] + [chunk.value];
    }
    assert chunks[..|chunks|] == chunks;
    r := Ok(moved[..|chunks|]);
  }

  // ----- repacking everything

  /** `out` over `data'` is a packed map with the bytes of `chunks` over `data`. */
  ghost predicate SameBytes(codec: Codec, data: seq<byte>, chunks: seq<Chunk>, data': seq<byte>, out: seq<Chunk>, size: int, w: int) {
    && WellFormed(codec, data', out, size) && IsPacked(out, w)
    && forall p :: ByteAt(codec, data', out, p) == ByteAt(codec, data, chunks, p)
  }

  lemma RepackedSameBytes(codec: Codec, data: seq<byte>, chunks: seq<Chunk>, data': seq<byte>, entries: seq<Chunk>,
                          w: int, hi: int, size: int)
    requires SizeValid(w) && Repacked(codec, data, chunks, 0, [], w, 0, hi, data', entries)
    requires Within(chunks, 0, hi) && Within(chunks, 0, size)
    ensures SameBytes(codec, data, chunks, data', entries, size, w)
  {
    RepackedIsPacked(codec, data, chunks, 0, [], w, 0, hi, data', entries);
    hide Readable;
    forall i | 0 <= i < |entries|
      ensures entries[i].End() <= size
    {
      assert HoldsData(chunks, 0, [], entries[i].End() - 1);
    }
    forall p
      ensures ByteAt(codec, data', entries, p) == ByteAt(codec, data, chunks, p)
    {
      if p < 0 || hi <= p { assert !Covered(chunks, p) && !Covered(entries, p); }
    }
  }

  lemma MovedSameBytes(codec: Codec, data: seq<byte>, chunks: seq<Chunk>, data': seq<byte>, out: seq<Chunk>, size: int, w: int)
    requires WellFormed(codec, data, chunks, size) && Moved(codec, data, chunks, data', out) && IsPacked(chunks, w)
    ensures SameBytes(codec, data, chunks, data', out, size, w)
  {
    MovedOrdered(codec, data, chunks, data', out, size, w);
    hide ByteAt, AllReadable, Within, IsPacked, Ordered, MovedOne;
    forall p
      ensures ByteAt(codec, data', out, p) == ByteAt(codec, data, chunks, p)
    {
      MovedByte(codec, data, chunks, data', out, p);
    }
  }

  /** The end of the last chunk. */
  method MaxEnd(chunks: seq<Chunk>, ghost size: int) returns (end: nat)
    requires Within(chunks, 0, size) && 0 <= size
    ensures Within(chunks, 0, end) && end <= size
  {
    end := 0;
    for i := 0 to |chunks|
      invariant 0 <= end <= size
      invariant forall j :: 0 <= j < i ==> chunks[j].End() <= end
    {
      if chunks[i].End() > end { end := chunks[i].End(); }
    }
  }

  /** Repack the whole map for `w`-sized windows. */
  method RepackAll(codec: Codec, src: DataFile, dst: DataFile, chunks: seq<Chunk>, ghost size: nat, w: int, healthy: bool)
    returns (r: Result<seq<Chunk>>)
    requires codec.Lawful() && src != dst && dst.bytes == [] && SizeValid(w) && size <= OFF_MAX
    requires WellFormed(codec, src.bytes, chunks, size)
    modifies dst
    ensures r.Ok? ==> |r.value| <= U32_MAX && SameBytes(codec, src.bytes, chunks, dst.bytes, r.value, size, w)
    ensures r.Ok? ==> |dst.bytes| == TotalRaw(r.value)
    ensures size <= TERABYTE ==> |dst.bytes| <= STEP
    ensures healthy && r.Err? ==> r.error == EFBIG && size > TERABYTE
  {
    hide Codec.Lawful, Repacked, AllReadable, Ordered, ByteAt, TotalRaw, Ceil, SizeValid, WindowCount, RegionEnd, Base, Aligned;
    TotalRawEmpty();
    var end := MaxEnd(chunks, size);
    var hi := Ceil(end, w);
    WholeRegion(end, w);
    if hi.Err? || hi.value > OFF_MAX { return Err(EFBIG); }
    hide Within;
    var eof;
    r, eof := RepackWindows(codec, src, dst, 0, chunks, w, 0, hi.value, 0, [], healthy);
    if r.Err? { return; }
    if hi.value == 0 {
      RepackedEmpty(codec, src.bytes, chunks, 0, [], w, 0, dst.bytes);
    }
    RepackedSameBytes(codec, src.bytes, chunks, dst.bytes, r.value, w, hi.value, size);
  }

  lemma RoomForAll(end: nat, w: int)
    requires SizeValid(w) && end <= TERABYTE
    ensures Ceil(end, w).Ok? && Ceil(end, w).value + 2 * w <= STEP <= OFF_MAX
    ensures WindowCount(0, Ceil(end, w).value, w) <= U32_MAX
  {
    CeilLeast(end, w);
    FewWindows(0, Ceil(end, w).value, w);
  }

  /** The windows of a whole file, and that a file of a terabyte leaves room for them. */
  lemma WholeRegion(end: nat, w: int)
    requires SizeValid(w)
    ensures w > 0 && Base(0, w) == 0
    ensures Ceil(end, w).Ok? ==> 0 <= end <= Ceil(end, w).value && Aligned(Ceil(end, w).value, w)
    ensures Ceil(end, w).Ok? && 0 < Ceil(end, w).value <= OFF_MAX ==> RegionEnd(Ceil(end, w).value, w) == Ceil(end, w).value
    ensures end <= TERABYTE ==>
              && Ceil(end, w).Ok? && Ceil(end, w).value + 2 * w <= STEP <= OFF_MAX
              && WindowCount(0, Ceil(end, w).value, w) <= U32_MAX
  {
    CeilLeast(end, w);
    if Ceil(end, w).Ok? && 0 < Ceil(end, w).value <= OFF_MAX { RegionEndBounds(0, Ceil(end, w).value, w); }
    if end <= TERABYTE { RoomForAll(end, w); }
  }

  // ----- the new generation

  function TotalStored(chunks: seq<Chunk>): nat {
    if chunks == [] then 0 else TotalStored(chunks[..|chunks| - 1]) + chunks[|chunks| - 1].storedSize
  }

  /** Bytes on disk and bytes of content the map refers to. */
  method LiveBytes(chunks: seq<Chunk>) returns (live: u64, logical: u64)
    ensures live == Min(TotalRaw(chunks), U64_MAX) && logical == Min(TotalStored(chunks), U64_MAX)
  {
    live, logical := 0, 0;
    for i := 0 to |chunks|
      invariant live == Min(TotalRaw(chunks[..i]), U64_MAX) && logical == Min(TotalStored(chunks[..i]), U64_MAX)
    {
      assert chunks[..i + 1][..i] == chunks[..i];
      live := Tickets.Add(live, chunks[i].rawSize);
      logical := Tickets.Add(logical, chunks[i].storedSize);
    }
    assert chunks[..|chunks|] == chunks;
  }

  /** Less than a quarter is waste. */
  predicate MostlyLive(wastedBytes: nat, size: nat) {
    var wasted := if size > 0 then wastedBytes as real / size as real else 0.0;
    wasted < 0.25
  }

  /** The threshold without division. */
  lemma QuarterRule(wastedBytes: nat, size: nat)
    ensures MostlyLive(wastedBytes, size) <==> size == 0 || 4 * wastedBytes < size
  {
    if size > 0 {
      var wasted := wastedBytes as real / size as real;
      assert wasted * size as real == wastedBytes as real;
      if wasted < 0.25 {
        RealProduct(wasted, 0.25, size as real);
      } else if wasted > 0.25 {
        RealProduct(0.25, wasted, size as real);
      }
    }
  }

  lemma RealProduct(x: real, y: real, z: real)
    requires x < y && z > 0.0
    ensures x * z < y * z
  {
    assert (y - x) * z > 0.0;
  }

  lemma NothingLive(chunks: seq<Chunk>)
    ensures chunks == [] ==> TotalRaw(chunks) == 0
  {
  }

  /** The new data file and map. */
  method RewriteAll(codec: Codec, src: DataFile, inode: Inode, resize: bool, w: int, healthy: bool)
    returns (r: Result<seq<Chunk>>, dst: DataFile)
    requires codec.Lawful() && WellFormed(codec, src.bytes, inode.chunks, inode.logicalSize) && inode.logicalSize <= OFF_MAX
    requires SizeValid(w) && |inode.chunks| <= U32_MAX && (inode.fullyPacked && !resize ==> IsPacked(inode.chunks, w))
    ensures fresh(dst)
    ensures r.Ok? ==> |r.value| <= U32_MAX && SameBytes(codec, src.bytes, inode.chunks, dst.bytes, r.value, inode.logicalSize, w)
    ensures r.Ok? ==> |dst.bytes| == TotalRaw(r.value)
    ensures r.Ok? && inode.logicalSize <= TERABYTE ==> |dst.bytes| <= Max(TotalRaw(inode.chunks), STEP)
    ensures healthy && r.Err? ==> r.error == EFBIG && (inode.logicalSize > TERABYTE || TotalRaw(inode.chunks) > OFF_MAX)
  {
    hide Codec.Lawful, AllReadable, Ordered, Within, IsPacked, SameBytes;
    dst := new DataFile();
    if inode.fullyPacked && !resize {
      r := CopyVerbatim(codec, src, dst, inode.chunks, healthy);
      if r.Ok? {
        MovedSameBytes(codec, src.bytes, inode.chunks, dst.bytes, r.value, inode.logicalSize, w);
        MovedCount(codec, src.bytes, inode.chunks, dst.bytes, r.value);
      }
    } else {
      r := RepackAll(codec, src, dst, inode.chunks, inode.logicalSize, w, healthy);
    }
  }

  lemma MovedCount(codec: Codec, data: seq<byte>, chunks: seq<Chunk>, data': seq<byte>, out: seq<Chunk>)
    requires Moved(codec, data, chunks, data', out)
    ensures |out| == |chunks|
  {
  }

  /** The event counts of an adaptive ticket. */
  datatype Sample = Sample(full: u64, partial: u64, inCooldown: bool)

  /** What to do with the generation: nothing, rewrite it, or rewrite it for another window. */
  datatype Decision = Skip | Rewrite(resize: bool, window: u32)

  /** Worth an ordinary compaction: blobs without a map, an unpacked map, or a quarter and a window of waste. */
  predicate NeedsCompaction(inode: Inode, size: nat) {
    var wasted := size - TotalRaw(inode.chunks);
    if inode.chunks == [] then size > 0 else !inode.fullyPacked || (4 * wasted >= size && wasted >= inode.windowSize)
  }

  /** The window an adaptive request asks for. */
  function ResizeTarget(inode: Inode, sample: Sample): Option<int> {
    var choice := ChooseTarget(inode.windowSize, Min(TotalStored(inode.chunks), U64_MAX), sample.full, sample.partial, sample.inCooldown);
    if choice.Ok? then choice.value else None
  }

  /** The window a request asks for, if any; an empty file is never resized. */
  function WantedWindow(inode: Inode, size: nat, adaptive: Option<Sample>): Option<int> {
    if adaptive.None? || (inode.chunks == [] && size == 0) then None else ResizeTarget(inode, adaptive.value)
  }

  method Decide(inode: Inode, size: nat, ordinary: bool, adaptive: Option<Sample>) returns (r: Result<Decision>)
    ensures size <= OFF_MAX && TotalRaw(inode.chunks) > size ==> r == Err(EIO)
    ensures size <= OFF_MAX && TotalRaw(inode.chunks) <= size && SizeValid(inode.windowSize) ==> r.Ok?
    ensures r.Ok? && r.value.Rewrite? && !r.value.resize ==> r.value.window == inode.windowSize
    ensures r.Ok? && size <= OFF_MAX ==>
              var target := WantedWindow(inode, size, adaptive);
              && (target.Some? <==> r.value.Rewrite? && r.value.resize)
              && (target.Some? ==> r.value.window == target.value && SizeValid(target.value))
              && (SizeValid(inode.windowSize) && target.None? ==>
                    (r.value.Rewrite? <==> (ordinary || adaptive.None?) && NeedsCompaction(inode, size)))
    ensures r.Ok? && r.value.Rewrite? && r.value.resize ==>
              adaptive.Some? && ResizeTarget(inode, adaptive.value) == Some(r.value.window as int) && SizeValid(r.value.window)
  {
    hide TotalRaw, TotalStored, MostlyLive;
    NothingLive(inode.chunks);
    if |inode.chunks| == 0 && size == 0 { return Ok(Skip); }
    var live, logical := LiveBytes(inode.chunks);
    if live > size { return Err(EIO); }
    var window: u32, resize := inode.windowSize, false;
    if adaptive.Some? {
      var choice := ChooseTarget(inode.windowSize, logical, adaptive.value.full, adaptive.value.partial, adaptive.value.inCooldown);
      if choice.Err? { return Err(choice.error); }
      resize := choice.value.Some?;
      if resize {
        window := choice.value.value;
      } else if !ordinary {
        return Ok(Skip);
      }
    }
    var wasted := size - live;
    QuarterRule(wasted, size);
    if !resize && |inode.chunks| != 0 && (MostlyLive(wasted, size) || wasted < inode.windowSize) && inode.fullyPacked {
      return Ok(Skip);
    }
    r := Ok(Rewrite(resize, window));
  }

  lemma SameContent(codec: Codec, data: seq<byte>, inode: Inode, data': seq<byte>, inode': Inode, w: int)
    requires SameBytes(codec, data, inode.chunks, data', inode'.chunks, inode.logicalSize, w)
    requires inode'.logicalSize == inode.logicalSize
    ensures Healthy(codec, data', inode') && FileContent(codec, data', inode') == FileContent(codec, data, inode)
    ensures Ordered(inode'.chunks) && IsPacked(inode'.chunks, w)
  {
    hide ByteAt, AllReadable, Within, IsPacked;
  }

  lemma StoredPacked(codec: Codec, meta: seq<byte>, data: seq<byte>, inode: Inode)
    requires Stored(codec, meta, inode) && Healthy(codec, data, inode)
    ensures inode.fullyPacked == IsPacked(inode.chunks, inode.windowSize)
    ensures WellFormed(codec, data, inode.chunks, inode.logicalSize)
  {
  }

  /** A packed map over a data file without waste is left alone. */
  lemma Settled(inode: Inode, size: nat)
    requires inode.fullyPacked && size == TotalRaw(inode.chunks) && SizeValid(inode.windowSize)
    ensures !NeedsCompaction(inode, size)
  {
    TotalRawEmpty();
    hide TotalRaw;
  }

  lemma CompactedGrew(inode: Inode, dataWas: nat, saved: Inode, data: nat)
    requires saved.validEnd == HEADER_SIZE + ENTRY_SIZE * |saved.chunks| && |saved.chunks| <= U32_MAX && saved.fullyPacked
    ensures data <= Max(dataWas, STEP) ==> Grew(inode, dataWas, saved, data)
  {
  }

  /** Save the new map beside the new data file. */
  method SaveNew(codec: Codec, ghost data: seq<byte>, ghost inode: Inode, ghost data': seq<byte>, next: Inode, healthy: bool)
    returns (r: Result<Inode>, file: MetaFile)
    requires SameBytes(codec, data, inode.chunks, data', next.chunks, inode.logicalSize, next.windowSize)
    requires next.logicalSize == inode.logicalSize <= OFF_MAX && |next.chunks| <= U32_MAX && SizeValid(next.windowSize)
    ensures fresh(file)
    ensures healthy ==> r.Ok?
    ensures r.Ok? ==>
              var saved := Saved(next, next.windowSize);
              && r.value == saved && Stored(codec, file.bytes, saved) && Load(codec, file.bytes) == Ok(saved)
              && Healthy(codec, data', saved) && FileContent(codec, data', saved) == FileContent(codec, data, inode)
              && IsPacked(saved.chunks, saved.windowSize)
  {
    hide Load, Stored, Healthy, FileContent, IsPacked, Ordered, SameBytes, BaseBytes;
    SameContent(codec, data, inode, data', Saved(next, next.windowSize), next.windowSize);
    SaveStored(codec, next);
    StoredLoads(codec, SavedBytes(codec, next, next.windowSize), Saved(next, next.windowSize));
    var fault := NoFault;
    if !healthy { fault := ChooseFault(); }
    var saved, renamed := SaveMap(codec, next, fault);
    if saved.Err? {
      file := new MetaFile([]);
      return Err(saved.error), file;
    }
    return saved, renamed;
  }

  /**
   The rewriting part of `compact_data_file_locked`.  The old generation is only read; the new one
   holds the same content in a packed map, whichever way it was made.
   */
  method Compact(g: Generation, ordinary: bool, adaptive: Option<Sample>, healthy: bool)
    returns (r: Result<Option<(Generation, Inode)>>)
    requires g.Valid()
    ensures r.Ok? && r.value.Some? ==>
              var n := r.value.value.0;
              && Load(n.codec, n.meta.bytes) == Ok(r.value.value.1)
              && fresh(n) && fresh(n.data) && fresh(n.meta) && n.codec == g.codec && n.Valid() && !n.superseded
              && n.Content() == g.Content()
              && IsPacked(n.Disk().chunks, n.Disk().windowSize) && n.Disk().version == VERSION_V2
              && |n.data.bytes| == TotalRaw(n.Disk().chunks) && !NeedsCompaction(n.Disk(), |n.data.bytes|)
              && (n.Disk().windowSize == g.Disk().windowSize
                  || (adaptive.Some? && ResizeTarget(g.Disk(), adaptive.value) == Some(n.Disk().windowSize as int)))
    ensures r.Ok? && |g.data.bytes| <= OFF_MAX ==>
              var target := WantedWindow(g.Disk(), |g.data.bytes|, adaptive);
              && (r.value.Some? <==> target.Some? || ((ordinary || adaptive.None?) && NeedsCompaction(g.Disk(), |g.data.bytes|)))
              && (r.value.Some? ==> r.value.value.0.Disk().windowSize == if target.Some? then target.value else g.Disk().windowSize)
    ensures r.Ok? && r.value.Some? && |g.data.bytes| <= OFF_MAX && g.Disk().logicalSize <= TERABYTE ==>
              Grew(g.Disk(), |g.data.bytes|, r.value.value.0.Disk(), |r.value.value.0.data.bytes|)
              && r.value.value.0.Disk().fullyPacked
    ensures |g.data.bytes| <= OFF_MAX ==>
              && (healthy && TotalRaw(g.Disk().chunks) > |g.data.bytes| ==> r == Err(EIO))
              && (healthy && TotalRaw(g.Disk().chunks) <= |g.data.bytes| && g.Disk().logicalSize <= TERABYTE ==> r.Ok?)
  {
    hide Codec.Lawful, Load, Stored, Healthy, FileContent, IsPacked, AllReadable, Within, Ordered, SameBytes, BaseBytes, SizeValid,
         TotalRaw, ResizeTarget, WantedWindow, NeedsCompaction;
    var loaded := LoadMap(g.codec, g.meta, healthy);
    if loaded.Err? { return Err(loaded.error); }
    var inode := loaded.value;
    StoredFacts(g.codec, g.meta.bytes, g.data.bytes, inode);
    var decision := Decide(inode, |g.data.bytes|, ordinary, adaptive);
    if decision.Err? { return Err(decision.error); }
    if decision.value == Skip { return Ok(None); }
    var w := decision.value.window;
    StoredPacked(g.codec, g.meta.bytes, g.data.bytes, inode);
    var chunks, dst := RewriteAll(g.codec, g.data, inode, decision.value.resize, w, healthy);
    if chunks.Err? { return Err(chunks.error); }
    var next := inode.(chunks := chunks.value, windowSize := w, fullyPacked := IsPacked(chunks.value, w));
    var saved, file := SaveNew(g.codec, g.data.bytes, inode, dst.bytes, next, healthy);
    if saved.Err? { return Err(saved.error); }
    Settled(saved.value, |dst.bytes|);
    CompactedGrew(inode, |g.data.bytes|, saved.value, |dst.bytes|);
    var n := new Generation(g.codec, dst, file);
    r := Ok(Some((n, saved.value)));
  }
}
