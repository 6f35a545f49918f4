/**
 One file on values: a metadata file and a data file that belong together, the byte string they
 stand for, and what writing, resizing, saving and appending do to it.
 */
module FileState {
  import opened Basics
  import opened Windows
  import opened ChunkMap
  import opened Repack
  import opened SortChunks
  import opened Journal
  import opened JournalProofs
  import opened MetadataFile

  /** The metadata file `meta` loads as `inode`, and its journal indexes the map in memory order. */
  ghost predicate Stored(codec: Codec, meta: seq<byte>, inode: Inode) {
    && Load(codec, meta) == Ok(inode)
    && |inode.chunks| <= U32_MAX && SizeValid(inode.windowSize) && inode.logicalSize <= OFF_MAX
    && inode.fullyPacked == IsPacked(inode.chunks, inode.windowSize)
    && (inode.version == VERSION_LEGACY || inode.version == VERSION_V1 || inode.version == VERSION_V2)
    && (inode.version != VERSION_LEGACY ==>
          LoadUnsorted(codec, meta) == Ok(inode) && HEADER_SIZE <= inode.validEnd <= |meta|)
  }

  /** The map of `inode` over `data` is well formed. */
  ghost predicate Healthy(codec: Codec, data: seq<byte>, inode: Inode) {
    WellFormed(codec, data, inode.chunks, inode.logicalSize)
  }

  /** The logical file. */
  ghost function FileContent(codec: Codec, data: seq<byte>, inode: Inode): seq<byte> {
    Content(codec, data, inode.chunks, inode.logicalSize)
  }

  // ----- what the operations mean

  /** `buf` written at `off`: later bytes win, a gap beyond the old end is zero. */
  function Overlaid(content: seq<byte>, off: nat, buf: seq<byte>): (r: seq<byte>)
    ensures |r| == Max(|content|, off + |buf|)
  {
    seq(Max(|content|, off + |buf|), p requires 0 <= p < Max(|content|, off + |buf|) =>
      if off <= p < off + |buf| then buf[p - off] else if p < |content| then content[p] else 0)
  }

  /** Cut to `size`, or extended with zeros. */
  function Resized(content: seq<byte>, size: nat): (r: seq<byte>)
    ensures |r| == size
  {
    seq(size, p requires 0 <= p < size => if p < |content| then content[p] else 0)
  }

  /** Sizes at which nothing can outgrow the formats: a terabyte of content, and ample room on disk. */
  const TERABYTE: int := 0x100_0000_0000
  const MANY_CHUNKS: int := 0x400_0000
  const MANY_WINDOWS: int := 0x400_0040
  const ROOM: int := 0x4000_0000_0000_0000

  predicate Roomy(inode: Inode, dataLength: nat, end: nat) {
    inode.logicalSize <= TERABYTE && end <= TERABYTE && |inode.chunks| <= MANY_CHUNKS && dataLength <= ROOM && inode.validEnd <= ROOM
  }

  /** A packed map of a file of moderate size. */
  predicate Tidy(inode: Inode) { inode.fullyPacked && inode.logicalSize <= TERABYTE }

  /** More than one operation on a file of moderate size can add to its data or metadata file. */
  const STEP: int := 0x400_0000_0000

  /** What is left of the ample room. */
  function Slack(inode: Inode, dataLength: nat): int { ROOM - Max(dataLength, inode.validEnd) }

  /** A map and a data file after one operation: at most a step larger, and packed if they were. */
  predicate Grew(was: Inode, dataWas: nat, now: Inode, dataNow: nat) {
    && dataNow <= dataWas + STEP && now.validEnd <= Max(was.validEnd, 0) + STEP
    && (was.fullyPacked ==> now.fullyPacked)
  }

  lemma GrewSlack(was: Inode, dataWas: nat, now: Inode, dataNow: nat)
    requires Grew(was, dataWas, now, dataNow)
    ensures Slack(now, dataNow) >= Slack(was, dataWas) - STEP
  {
  }

  /** A tidy file with room left is roomy: it has no more chunks than windows. */
  lemma TidyIsRoomy(codec: Codec, meta: seq<byte>, data: seq<byte>, inode: Inode, end: nat)
    requires Stored(codec, meta, inode) && Healthy(codec, data, inode)
    requires Tidy(inode) && Slack(inode, |data|) >= 0 && end <= TERABYTE
    ensures Roomy(inode, |data|, end)
  {
    PackedCount(inode.chunks, inode.windowSize, inode.logicalSize);
    WindowsOfTerabyte(|inode.chunks|, inode.windowSize, inode.logicalSize);
  }

  lemma WindowsOfTerabyte(n: nat, w: int, size: nat)
    requires SizeValid(w) && n * w < size + w && size <= TERABYTE
    ensures n <= MANY_CHUNKS
  {
  }

  lemma FewWindows(lo: int, hi: int, w: int)
    requires SizeValid(w) && 0 <= lo <= hi <= TERABYTE + w
    ensures WindowCount(lo, hi, w) <= MANY_WINDOWS
  {
  }

  lemma ContentBeyondEnd(codec: Codec, data: seq<byte>, inode: Inode, p: int)
    requires Healthy(codec, data, inode) && inode.logicalSize <= p
    ensures ByteAt(codec, data, inode.chunks, p) == 0
  {
  }

  // ----- metadata steps

  lemma AppendStored(codec: Codec, meta: seq<byte>, inode: Inode, d: Delta)
    requires Stored(codec, meta, inode) && inode.version != VERSION_LEGACY
    requires d.Fits() && Applies(inode.chunks, d) && d.logicalSize <= OFF_MAX
    requires Ordered(Appended(inode, d).chunks)
    ensures Stored(codec, AppendedBytes(codec, meta, inode, d), Appended(inode, d))
  {
    hide LoadUnsorted, Load, DeltaBytes, Ordered, Applies;
    AppendThenLoad(codec, meta, d);
    AppliesBound(inode, d);
    OrderedIsSorted(Appended(inode, d).chunks);
    SortedLoad(codec, AppendedBytes(codec, meta, inode, d));
  }

  lemma AppliesBound(inode: Inode, d: Delta)
    requires Applies(inode.chunks, d)
    ensures |Appended(inode, d).chunks| <= U32_MAX
  {
  }

  lemma SaveStored(codec: Codec, inode: Inode)
    requires |inode.chunks| <= U32_MAX && SizeValid(inode.windowSize) && inode.logicalSize <= OFF_MAX
    requires Ordered(inode.chunks)
    ensures Stored(codec, SavedBytes(codec, inode, inode.windowSize), Saved(inode, inode.windowSize))
  {
    hide LoadUnsorted, Load, BaseBytes, Ordered, IsPacked;
    SaveThenLoad(codec, inode, inode.windowSize);
    OrderedIsSorted(inode.chunks);
    SortedLoad(codec, SavedBytes(codec, inode, inode.windowSize));
  }

  /** Cutting an uncommitted tail leaves the file meaning the same. */
  lemma TrimStored(codec: Codec, meta: seq<byte>, inode: Inode)
    requires Stored(codec, meta, inode) && inode.version != VERSION_LEGACY && Ordered(inode.chunks)
    ensures Stored(codec, meta[..inode.validEnd], inode)
  {
    hide LoadUnsorted, Load, Ordered, IsPacked;
    TrimmedLoadsSame(codec, meta);
    OrderedIsSorted(inode.chunks);
    SortedLoad(codec, meta[..inode.validEnd]);
  }

  // ----- data steps

  /** A longer data file means the same. */
  lemma DataGrows(codec: Codec, data: seq<byte>, longer: seq<byte>, inode: Inode)
    requires Healthy(codec, data, inode) && data <= longer
    ensures Healthy(codec, longer, inode)
    ensures FileContent(codec, longer, inode) == FileContent(codec, data, inode)
  {
    AppendKeepsBytes(codec, data, longer, inode.chunks);
  }

  // ----- writing

  /** What the region search and the repack hand to the splice. */
  ghost predicate Rewritten(codec: Codec, data: seq<byte>, data': seq<byte>, chunks: seq<Chunk>, w: int,
                            first: int, end: int, lo: int, hi: int, off: int, buf: seq<byte>, entries: seq<Chunk>)
    requires w > 0
  {
    && data <= data' && Isolates(chunks, first, end, lo, hi)
    && lo <= off && off + |buf| <= hi
    && Repacked(codec, data, chunks[first..end], off, buf, w, lo, hi, data', entries)
  }

  lemma RepackedBounds(codec: Codec, data: seq<byte>, data': seq<byte>, consumed: seq<Chunk>, off: int, buf: seq<byte>,
                       w: int, lo: int, hi: int, entries: seq<Chunk>, size: int)
    requires w > 0 && Repacked(codec, data, consumed, off, buf, w, lo, hi, data', entries)
    requires Within(consumed, 0, size) && off + |buf| <= size && 0 <= lo
    ensures Within(entries, lo, hi) && Within(entries, 0, size) && Ordered(entries) && AllReadable(codec, data', entries)
  {
    forall i | 0 <= i < |entries|
      ensures entries[i].End() <= size
    {
      assert HoldsData(consumed, off, buf, entries[i].End() - 1);
    }
  }

  /** Storing a region anew keeps a packed map packed. */
  lemma RewrittenPacked(codec: Codec, data: seq<byte>, data': seq<byte>, chunks: seq<Chunk>, w: int,
                        first: int, end: int, lo: int, hi: int, off: int, buf: seq<byte>, entries: seq<Chunk>)
    requires SizeValid(w) && Rewritten(codec, data, data', chunks, w, first, end, lo, hi, off, buf, entries)
    ensures 0 <= first <= end <= |chunks|
    ensures IsPacked(chunks, w) ==> IsPacked(Splice(chunks, first, end, entries), w)
  {
    RepackedIsPacked(codec, data, chunks[first..end], off, buf, w, lo, hi, data', entries);
    RepackedWithin(codec, data, chunks[first..end], off, buf, w, lo, hi, data', entries);
    hide Repacked, IsPacked;
    if IsPacked(chunks, w) { SplicePacked(chunks, first, end, lo, hi, entries, w); }
  }

  lemma RepackedWithin(codec: Codec, data: seq<byte>, chunks: seq<Chunk>, off: int, patch: seq<byte>, w: int, lo: int, hi: int,
                       out: seq<byte>, entries: seq<Chunk>)
    requires w > 0 && Repacked(codec, data, chunks, off, patch, w, lo, hi, out, entries)
    ensures Within(entries, lo, hi)
  {
  }

  lemma ConsumedRun(chunks: seq<Chunk>, first: int, end: int, lo: int, hi: int)
    requires Ordered(chunks) && Isolates(chunks, first, end, lo, hi)
    ensures 0 <= first <= end <= |chunks|
    ensures Ordered(chunks[first..end]) && Within(chunks[first..end], lo, hi)
  {
    var run := chunks[first..end];
    forall i | 0 <= i < |run|
      ensures run[i] == chunks[first + i]
    {
    }
  }

  /** The bytes of the consumed run are the bytes of the map inside the region. */
  lemma ConsumedBytes(codec: Codec, data: seq<byte>, chunks: seq<Chunk>, first: int, end: int, lo: int, hi: int, p: int)
    requires Ordered(chunks) && Isolates(chunks, first, end, lo, hi) && lo <= p < hi
    ensures ByteAt(codec, data, chunks[first..end], p) == ByteAt(codec, data, chunks, p)
  {
    hide ByteAt;
    ConsumedRun(chunks, first, end, lo, hi);
    var consumed := chunks[first..end];
    assert chunks[..first] + consumed + chunks[end..] == chunks;
    SpliceByte(codec, data, chunks, first, end, lo, hi, consumed, p);
  }

  lemma WriteByte(codec: Codec, data: seq<byte>, data': seq<byte>, chunks: seq<Chunk>, w: int,
                  first: int, end: int, lo: int, hi: int, off: int, buf: seq<byte>, entries: seq<Chunk>, p: int)
    requires w > 0 && Ordered(chunks) && AllReadable(codec, data, chunks)
    requires Rewritten(codec, data, data', chunks, w, first, end, lo, hi, off, buf, entries)
    requires Within(entries, lo, hi)
    ensures ByteAt(codec, data', Splice(chunks, first, end, entries), p) ==
            if off <= p < off + |buf| then buf[p - off] else ByteAt(codec, data, chunks, p)
  {
    hide ByteAt, Ordered, Within, AllReadable, Isolates;
    IsolatesRange(chunks, first, end, lo, hi);
    RepackedOrdered(codec, data, data', chunks[first..end], off, buf, w, lo, hi, entries);
    SpliceByte(codec, data', chunks, first, end, lo, hi, entries, p);
    if lo <= p < hi {
      ConsumedBytes(codec, data, chunks, first, end, lo, hi, p);
    } else {
      AppendKeepsBytes(codec, data, data', chunks);
    }
  }

  lemma RepackedOrdered(codec: Codec, data: seq<byte>, data': seq<byte>, consumed: seq<Chunk>, off: int, buf: seq<byte>,
                        w: int, lo: int, hi: int, entries: seq<Chunk>)
    requires w > 0 && Repacked(codec, data, consumed, off, buf, w, lo, hi, data', entries)
    ensures Ordered(entries)
  {
  }

  lemma SpliceReadable(codec: Codec, data: seq<byte>, data': seq<byte>, chunks: seq<Chunk>, first: int, end: int, entries: seq<Chunk>)
    requires 0 <= first <= end <= |chunks| && data <= data'
    requires AllReadable(codec, data, chunks) && AllReadable(codec, data', entries)
    ensures AllReadable(codec, data', Splice(chunks, first, end, entries))
  {
    hide Readable;
    AppendKeepsBytes(codec, data, data', chunks);
  }

  lemma SpliceWithin(chunks: seq<Chunk>, first: int, end: int, entries: seq<Chunk>, lo: int, hi: int)
    requires 0 <= first <= end <= |chunks| && Within(chunks, lo, hi) && Within(entries, lo, hi)
    ensures Within(Splice(chunks, first, end, entries), lo, hi)
  {
  }

  /** The spliced map is well formed and denotes the old content overlaid by the buffer. */
  lemma WriteRefines(codec: Codec, data: seq<byte>, data': seq<byte>, inode: Inode, w: int,
                     first: int, end: int, lo: int, hi: int, off: nat, buf: seq<byte>, entries: seq<Chunk>, inode': Inode)
    requires w > 0 && 0 <= lo && Healthy(codec, data, inode)
    requires Rewritten(codec, data, data', inode.chunks, w, first, end, lo, hi, off, buf, entries)
    requires inode'.chunks == Splice(inode.chunks, first, end, entries)
    requires inode'.logicalSize == Max(inode.logicalSize, off + |buf|)
    ensures Healthy(codec, data', inode')
    ensures FileContent(codec, data', inode') == Overlaid(FileContent(codec, data, inode), off, buf)
  {
    hide Repacked, ByteAt, AllReadable, Isolates, Ordered;
    var chunks, size := inode.chunks, inode'.logicalSize;
    ConsumedWithin(chunks, first, end, lo, hi, size, inode.logicalSize);
    RepackedBounds(codec, data, data', chunks[first..end], off, buf, w, lo, hi, entries, size);
    assert Within(chunks, 0, size);
    hide Within;
    SpliceOrdered(chunks, first, end, lo, hi, entries);
    IsolatesRange(chunks, first, end, lo, hi);
    SpliceReadable(codec, data, data', chunks, first, end, entries);
    SpliceWithin(chunks, first, end, entries, 0, size);
    assert Healthy(codec, data', inode');
    forall p | 0 <= p < size
      ensures FileContent(codec, data', inode')[p] == Overlaid(FileContent(codec, data, inode), off, buf)[p]
    {
      WriteByte(codec, data, data', chunks, w, first, end, lo, hi, off, buf, entries, p);
      if inode.logicalSize <= p { ContentBeyondEnd(codec, data, inode, p); }
    }
  }

  lemma IsolatesRange(chunks: seq<Chunk>, first: int, end: int, lo: int, hi: int)
    requires Isolates(chunks, first, end, lo, hi)
    ensures 0 <= first <= end <= |chunks|
  {
  }

  lemma ConsumedWithin(chunks: seq<Chunk>, first: int, end: int, lo: int, hi: int, size: int, was: int)
    requires Isolates(chunks, first, end, lo, hi) && Within(chunks, 0, was) && was <= size
    ensures 0 <= first <= end <= |chunks| && Within(chunks[first..end], 0, size)
  {
  }

  // ----- resizing

  /** `out` over `data'` is the map `chunks` over `data`, cut to `size`. */
  ghost predicate CutTo(codec: Codec, data: seq<byte>, chunks: seq<Chunk>, data': seq<byte>, out: seq<Chunk>, size: int) {
    && data <= data' && WellFormed(codec, data', out, size)
    && forall p :: 0 <= p < size ==> ByteAt(codec, data', out, p) == ByteAt(codec, data, chunks, p)
  }

  lemma ShrinkRefines(codec: Codec, data: seq<byte>, data': seq<byte>, inode: Inode, inode': Inode)
    requires Healthy(codec, data, inode) && inode'.logicalSize <= inode.logicalSize
    requires CutTo(codec, data, inode.chunks, data', inode'.chunks, inode'.logicalSize)
    ensures Healthy(codec, data', inode')
    ensures FileContent(codec, data', inode') == Resized(FileContent(codec, data, inode), inode'.logicalSize)
  {
    hide ByteAt, WellFormed;
  }

  lemma ExtendRefines(codec: Codec, data: seq<byte>, inode: Inode, inode': Inode)
    requires Healthy(codec, data, inode) && inode.logicalSize <= inode'.logicalSize && inode'.chunks == inode.chunks
    ensures Healthy(codec, data, inode')
    ensures FileContent(codec, data, inode') == Resized(FileContent(codec, data, inode), inode'.logicalSize)
  {
    hide ByteAt, AllReadable, Ordered;
    forall p | 0 <= p < inode'.logicalSize
      ensures FileContent(codec, data, inode')[p] == Resized(FileContent(codec, data, inode), inode'.logicalSize)[p]
    {
      if inode.logicalSize <= p { ContentBeyondEnd(codec, data, inode, p); }
    }
  }

  /** An empty map is the empty file, or a hole. */
  lemma EmptyMap(codec: Codec, data: seq<byte>, inode: Inode)
    requires inode.chunks == []
    ensures Healthy(codec, data, inode)
    ensures FileContent(codec, data, inode) == Resized([], inode.logicalSize)
  {
    assert forall p :: !Covered(inode.chunks, p);
  }

  // ----- saving

  /** A save changes where the map is stored, not what it means. */
  lemma SaveRefines(codec: Codec, meta: seq<byte>, data: seq<byte>, inode: Inode)
    requires Stored(codec, meta, inode) && Healthy(codec, data, inode)
    ensures |inode.chunks| <= U32_MAX && SizeValid(inode.windowSize) && inode.windowSize != 0
    ensures var saved := Saved(inode, inode.windowSize);
            && Stored(codec, SavedBytes(codec, inode, inode.windowSize), saved)
            && Healthy(codec, data, saved) && FileContent(codec, data, saved) == FileContent(codec, data, inode)
  {
    hide Load, LoadUnsorted, BaseBytes, AllReadable, Within, Ordered, IsPacked, ByteAt;
    SaveStored(codec, inode);
  }

  // ----- committing a record

  /** `next` is `was` with `removed` chunks at `first` replaced by `added` new ones. */
  ghost predicate Replaces(was: seq<Chunk>, next: seq<Chunk>, first: int, removed: int, added: int) {
    && 0 <= first && 0 <= removed && 0 <= added && first + removed <= |was| && first + added <= |next|
    && next == Splice(was, first, first + removed, next[first..first + added])
  }

  /** `next` differs from `inode` in its map and size only. */
  ghost predicate SameJournal(inode: Inode, next: Inode) {
    next == inode.(chunks := next.chunks, logicalSize := next.logicalSize,
                   fullyPacked := IsPacked(next.chunks, inode.windowSize))
  }

  /** The record that a commit writes brings the file on disk to the map in memory. */
  lemma CommitStored(codec: Codec, meta: seq<byte>, data: seq<byte>, inode: Inode, next: Inode,
                     first: u32, removed: u32, added: u32, d: Delta)
    requires Stored(codec, meta, inode) && inode.version != VERSION_LEGACY && SameJournal(inode, next)
    requires Replaces(inode.chunks, next.chunks, first, removed, added)
    requires |next.chunks| <= U32_MAX && next.logicalSize <= OFF_MAX && Healthy(codec, data, next)
    requires d == Delta(first, removed, next.chunks[first..first + added], next.logicalSize) && d.Fits()
    ensures next.validEnd <= |meta|
    ensures var committed := Committed(next, d.Length());
            && Stored(codec, AppendedBytes(codec, meta, next, d), committed)
            && Healthy(codec, data, committed) && FileContent(codec, data, committed) == FileContent(codec, data, next)
  {
    hide Load, LoadUnsorted, DeltaBytes, AllReadable, Within, Ordered, IsPacked, ByteAt;
    AppendStored(codec, meta, inode, d);
  }

  /** A failed append may cut the uncommitted tail. */
  lemma AbortStored(codec: Codec, meta: seq<byte>, data: seq<byte>, inode: Inode, left: seq<byte>)
    requires Stored(codec, meta, inode) && inode.version != VERSION_LEGACY && Healthy(codec, data, inode)
    requires left == meta || (inode.validEnd <= |meta| && left == meta[..inode.validEnd])
    ensures Stored(codec, left, inode)
  {
    hide Load, LoadUnsorted, AllReadable, Within, Ordered, IsPacked;
    if left != meta { TrimStored(codec, meta, inode); }
  }

  // ----- crashes

  /** The metadata file when a crash leaves `n` bytes of the record being appended. */
  function TornBytes(codec: Codec, meta: seq<byte>, inode: Inode, d: Delta, n: nat): seq<byte>
    requires inode.validEnd <= |meta| && d.Fits() && n <= d.Length()
  {
    meta[..inode.validEnd] + DeltaBytes(codec, Next(inode.sequence), d)[..n]
  }

  /**
   A crash while a write or truncate commits.  Blobs are synced before the record is written, so
   the data file is `synced` once any part of the record is on disk and some longer file otherwise;
   either way the file holds the old content, or the new content once the record is whole.
   */
  lemma CommitIsAtomic(codec: Codec, meta: seq<byte>, data: seq<byte>, torn: seq<byte>, inode: Inode, next: Inode,
                       first: u32, removed: u32, added: u32, d: Delta, n: nat)
    requires Stored(codec, meta, inode) && inode.version != VERSION_LEGACY && Healthy(codec, data, inode)
    requires SameJournal(inode, next) && Replaces(inode.chunks, next.chunks, first, removed, added)
    requires |next.chunks| <= U32_MAX && next.logicalSize <= OFF_MAX && data <= torn
    requires d == Delta(first, removed, next.chunks[first..first + added], next.logicalSize) && d.Fits() && n <= d.Length()
    requires n > 0 ==> Healthy(codec, torn, next)
    ensures inode.validEnd <= |meta|
    ensures Load(codec, TornBytes(codec, meta, inode, d, n)).Ok?
    ensures var after := Load(codec, TornBytes(codec, meta, inode, d, n)).value;
            && Healthy(codec, torn, after)
            && FileContent(codec, torn, after) ==
               if n == d.Length() then FileContent(codec, torn, next) else FileContent(codec, data, inode)
  {
    hide Load, LoadUnsorted, DeltaBytes, AllReadable, Within, IsPacked, ByteAt;
    if n == d.Length() {
      hide Ordered;
      var record := DeltaBytes(codec, Next(inode.sequence), d);
      assert record[..n] == record;
      CommitStored(codec, meta, torn, inode, next, first, removed, added, d);
    } else {
      AppendIsAtomic(codec, meta, d, n);
      OrderedIsSorted(inode.chunks);
      hide Ordered;
      SortedLoad(codec, TornBytes(codec, meta, inode, d, n));
      DataGrows(codec, data, torn, inode);
    }
  }
}
