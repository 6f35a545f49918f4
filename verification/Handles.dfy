/**
 Open files (src/fuse_ops/file.c): handles with cached maps over a shared generation, whose
 metadata epoch tells them when the cache is stale.
 */
module Handles {
  import opened Basics
  import opened Windows
  import opened ChunkMap
  import opened Repack
  import opened ChunkIO
  import opened Region
  import opened WindowStats
  import opened Reader
  import opened Wire
  import opened Journal
  import opened JournalProofs
  import opened MetadataFile
  import opened FileState
  import opened Truncation

  /** A data file, the metadata file its path names, and the registry record they share. */
  class Generation {
    const codec: Codec
    const data: DataFile
    var meta: MetaFile
    var epoch: nat
    var superseded: bool

    ghost predicate Valid()
      reads this, data, meta
    {
      && codec.Lawful()
      && Load(codec, meta.bytes).Ok?
      && Stored(codec, meta.bytes, Disk())
      && Healthy(codec, data.bytes, Disk())
    }

    /** The map the metadata file holds. */
    ghost function Disk(): Inode
      reads this, meta
      requires Load(codec, meta.bytes).Ok?
    {
      Load(codec, meta.bytes).value
    }

    /** The logical file. */
    ghost function Content(): seq<byte>
      reads this, data, meta
      requires Load(codec, meta.bytes).Ok?
    {
      FileContent(codec, data.bytes, Disk())
    }

    /** What is derived from the map on disk. */
    lemma DiskPacked()
      requires Valid()
      ensures Load(codec, meta.bytes).Ok? && Disk().fullyPacked == IsPacked(Disk().chunks, Disk().windowSize)
      ensures |Disk().chunks| <= U32_MAX && |Content()| == Disk().logicalSize
    {
    }

    /** From now on writers on this generation get `ESTALE`. */
    method MarkSuperseded()
      requires Valid()
      modifies this`superseded
      ensures superseded && Valid() && Content() == old(Content())
    {
      hide Load, Stored, Healthy, FileContent, Codec.Lawful;
      superseded := true;
    }

    constructor (codec: Codec, data: DataFile, meta: MetaFile)
      ensures this.codec == codec && this.data == data && this.meta == meta && epoch == 0 && !superseded
    {
      this.codec, this.data, this.meta, epoch, superseded := codec, data, meta, 0, false;
    }
  }

  /** What any mutation may do to a generation: nothing is lost, and a new map means a new epoch. */
  twostate predicate Advances(g: Generation)
    reads g, g.data, g.meta
  {
    && old(allocated(g.data)) && old(allocated(g.meta))
    && g.Valid()
    && old(g.epoch) <= g.epoch && g.superseded == old(g.superseded)
    && old(g.data.bytes) <= g.data.bytes
    && (g.epoch == old(g.epoch) ==> g.meta == old(g.meta) && Load(g.codec, g.meta.bytes) == old(Load(g.codec, g.meta.bytes)))
    && (g.meta == old(g.meta) || fresh(g.meta))
  }

  /** The files of the generation are at most a step larger, and its map is packed if it was. */
  twostate predicate Expands(g: Generation)
    reads g, g.data, g.meta
  {
    && old(allocated(g.data)) && old(allocated(g.meta))
    && old(Load(g.codec, g.meta.bytes)).Ok? && Load(g.codec, g.meta.bytes).Ok?
    && Grew(old(g.Disk()), |old(g.data.bytes)|, g.Disk(), |g.data.bytes|)
  }

  const CHECKPOINT_RECORDS: int := 1024

  /** `metadata_checkpoint_needed`. */
  predicate CheckpointNeeded(inode: Inode) {
    var base := 64 + 32 * |inode.chunks|;
    var limit := if base > 512 * 1024 then base * 2 else 1024 * 1024;
    inode.deltaCount >= CHECKPOINT_RECORDS || inode.journalBytes > limit
  }

  /** A short journal: fewer than 1024 records, and at most a megabyte or twice the base image, whichever is larger. */
  predicate JournalShort(inode: Inode) {
    && inode.deltaCount < 1024
    && (inode.journalBytes <= 0x10_0000 || inode.journalBytes <= 2 * (HEADER_SIZE + ENTRY_SIZE * |inode.chunks|))
  }

  /** A record with `added` chunks fits its length field and the largest file. */
  predicate RecordFits(validEnd: int, added: int) {
    var length := DELTA_HEADER_SIZE + ENTRY_SIZE * added + DELTA_TRAILER_SIZE;
    length <= U32_MAX && validEnd + length <= OFF_MAX
  }

  /** An append leaves the metadata file holding the new map, or still holding the old one. */
  method AppendRecord(codec: Codec, file: MetaFile, ghost data: seq<byte>, ghost inode: Inode, next: Inode,
                      first: u32, removed: u32, added: u32, healthy: bool) returns (r: Result<Inode>)
    requires Stored(codec, file.bytes, inode) && Healthy(codec, data, inode)
    requires inode.version != VERSION_LEGACY && SameJournal(inode, next)
    requires Replaces(inode.chunks, next.chunks, first, removed, added)
    requires |next.chunks| <= U32_MAX && next.logicalSize <= OFF_MAX && Healthy(codec, data, next)
    modifies file
    ensures Stored(codec, file.bytes, if r.Ok? then r.value else inode)
    ensures Load(codec, file.bytes) == Ok(if r.Ok? then r.value else inode)
    ensures r.Ok? ==>
              && r.value == Committed(next, DELTA_HEADER_SIZE + ENTRY_SIZE * added + DELTA_TRAILER_SIZE)
              && Healthy(codec, data, r.value) && FileContent(codec, data, r.value) == FileContent(codec, data, next)
    ensures healthy ==> (r.Ok? <==> RecordFits(inode.validEnd, added))
    ensures healthy && r.Err? ==> r.error == EFBIG
  {
    hide Load, Healthy, FileContent, Replaces, SameJournal, AppendedBytes, Codec.Lawful, Stored;
    ghost var meta := file.bytes;
    CommitChecks(codec, meta, inode, next, first, removed, added);
    r := AppendDelta(codec, file, next, first, removed, added, healthy);
    if r.Err? {
      AbortStored(codec, meta, data, inode, file.bytes);
      StoredLoads(codec, file.bytes, inode);
    } else {
      ghost var d := Delta(first, removed, next.chunks[first..first + added], next.logicalSize);
      CommitStored(codec, meta, data, inode, next, first, removed, added, d);
      StoredLoads(codec, file.bytes, r.value);
    }
  }

  /** What the region search needs to know of a healthy map. */
  lemma HealthyMap(codec: Codec, data: seq<byte>, inode: Inode)
    requires Healthy(codec, data, inode) && inode.logicalSize <= OFF_MAX
    ensures Ordered(inode.chunks) && AllReadable(codec, data, inode.chunks) && Within(inode.chunks, 0, OFF_MAX)
  {
  }

  lemma RunInRegion(codec: Codec, data: seq<byte>, chunks: seq<Chunk>, first: int, end: int, lo: int, hi: int)
    requires Ordered(chunks) && AllReadable(codec, data, chunks) && Isolates(chunks, first, end, lo, hi)
    ensures 0 <= first <= end <= |chunks|
    ensures var run := chunks[first..end]; Ordered(run) && AllReadable(codec, data, run) && Within(run, lo, hi)
  {
    hide Readable;
  }

  lemma RegionFacts(chunks: seq<Chunk>, w: int, offset: int, end: int, r: Region)
    requires SizeValid(w) && 0 <= offset < end && IsRegion(chunks, w, offset, end, r)
    ensures 0 <= r.lo <= offset && end <= r.hi <= OFF_MAX && Isolates(chunks, r.first, r.end, r.lo, r.hi)
    ensures Base(r.lo, w) == r.lo && RegionEnd(r.hi, w) == r.hi
  {
    hide Isolates;
    RegionEndBounds(r.lo, r.hi, w);
    BaseUnique(r.lo, r.lo, w);
  }

  /** In a roomy file the region search finds its region, and the region has few windows. */
  lemma RoomForRegion(codec: Codec, data: seq<byte>, inode: Inode, off: nat, end: nat)
    requires Healthy(codec, data, inode) && SizeValid(inode.windowSize) && off < end && Roomy(inode, |data|, end)
    ensures exists l, h :: Candidate(inode.windowSize, off, end, l, h) && Closed(inode.chunks, l, h)
    ensures forall r :: IsRegion(inode.chunks, inode.windowSize, off, end, r) ==>
              && WindowCount(r.lo, r.hi, inode.windowSize) <= MANY_WINDOWS
              && r.hi - r.lo <= TERABYTE + inode.windowSize && inode.windowSize <= 0x10_0000
  {
    hide Isolates, Closed, InEveryClosed, AllReadable, Ordered;
    var w := inode.windowSize;
    var hi := RegionStaysInFile(inode.chunks, w, off, end, inode.logicalSize);
    assert Candidate(w, off, end, 0, hi) && Closed(inode.chunks, 0, hi);
    forall r | IsRegion(inode.chunks, w, off, end, r)
      ensures WindowCount(r.lo, r.hi, w) <= MANY_WINDOWS && r.hi - r.lo <= TERABYTE + w
    {
      FewWindows(r.lo, r.hi, w);
    }
  }

  /** Find the region of a write and store it anew at the end of the data file. */
  method RewriteRegion(codec: Codec, fd: DataFile, inode: Inode, off: nat, buf: seq<byte>, healthy: bool)
    returns (r: Result<seq<Chunk>>, region: Region)
    requires codec.Lawful() && Healthy(codec, fd.bytes, inode)
    requires SizeValid(inode.windowSize) && inode.logicalSize <= OFF_MAX && 0 < |buf| && off + |buf| <= OFF_MAX
    modifies fd
    ensures old(fd.bytes) <= fd.bytes
    ensures r.Ok? ==>
              && 0 <= region.lo && |r.value| <= U32_MAX
              && Rewritten(codec, old(fd.bytes), fd.bytes, inode.chunks, inode.windowSize,
                           region.first, region.end, region.lo, region.hi, off, buf, r.value)
    ensures healthy && r.Err? ==> r.error == EFBIG
    ensures Roomy(inode, |old(fd.bytes)|, off + |buf|) && r.Ok? ==> |r.value| <= MANY_WINDOWS
    ensures Roomy(inode, |old(fd.bytes)|, off + |buf|) ==> |fd.bytes| <= |old(fd.bytes)| + STEP
    ensures healthy && Roomy(inode, |old(fd.bytes)|, off + |buf|) ==> r.Ok?
  {
    hide Codec.Lawful, Healthy, IsRegion, Isolates, Ordered, AllReadable, Within, Closed, Candidate, IsPacked, Repacked, Base, RegionEnd,
         WindowCount, SizeValid;
    var w := inode.windowSize;
    HealthyMap(codec, fd.bytes, inode);
    if Roomy(inode, |fd.bytes|, off + |buf|) { RoomForRegion(codec, fd.bytes, inode, off, off + |buf|); }
    var found, rounds := FindRegion(inode.chunks, w, off, off + |buf|);
    if found.Err? { return Err(found.error), Region(0, 0, 0, 0); }
    region := found.value;
    RegionFacts(inode.chunks, w, off, off + |buf|, region);
    RunInRegion(codec, fd.bytes, inode.chunks, region.first, region.end, region.lo, region.hi);
    var eof;
    r, eof := RepackWindows(codec, fd, fd, |fd.bytes|, inode.chunks[region.first..region.end], w,
                            region.lo, region.hi, off, buf, healthy);
    if r.Err? { return; }
    if !healthy {
      if * { return Err(EIO), region; }
    }
  }

  lemma SpliceReplaces(chunks: seq<Chunk>, first: int, end: int, entries: seq<Chunk>)
    requires 0 <= first <= end <= |chunks|
    ensures Replaces(chunks, Splice(chunks, first, end, entries), first, end - first, |entries|)
    ensures Splice(chunks, first, end, entries)[first..first + |entries|] == entries
    ensures |Splice(chunks, first, end, entries)| <= |chunks| + |entries|
  {
  }

  lemma StoredFacts(codec: Codec, meta: seq<byte>, data: seq<byte>, inode: Inode)
    requires Stored(codec, meta, inode) && Healthy(codec, data, inode)
    ensures SizeValid(inode.windowSize) && inode.logicalSize <= OFF_MAX && |inode.chunks| <= U32_MAX
    ensures Ordered(inode.chunks)
  {
  }

  /** A new map and the record that leads to it. */
  datatype Plan = Plan(next: Inode, first: u32, removed: u32, added: u32)

  /** `plan` leads from `inode` to a map that is healthy over `data`. */
  ghost predicate GoodPlan(codec: Codec, data: seq<byte>, inode: Inode, plan: Plan) {
    && SameJournal(inode, plan.next) && Replaces(inode.chunks, plan.next.chunks, plan.first, plan.removed, plan.added)
    && |plan.next.chunks| <= U32_MAX && plan.next.logicalSize <= OFF_MAX && Healthy(codec, data, plan.next)
  }

  /** Everything a write does before its commit: store the region anew, splice, extend the size. */
  method PlanWrite(codec: Codec, fd: DataFile, inode: Inode, off: nat, buf: seq<byte>, healthy: bool) returns (r: Result<Plan>)
    requires codec.Lawful() && Healthy(codec, fd.bytes, inode) && |inode.chunks| <= U32_MAX
    requires SizeValid(inode.windowSize) && inode.logicalSize <= OFF_MAX && 0 < |buf| && off + |buf| <= OFF_MAX
    modifies fd
    ensures old(fd.bytes) <= fd.bytes && Healthy(codec, fd.bytes, inode)
    ensures FileContent(codec, fd.bytes, inode) == FileContent(codec, old(fd.bytes), inode)
    ensures r.Ok? ==>
              && GoodPlan(codec, fd.bytes, inode, r.value)
              && FileContent(codec, fd.bytes, r.value.next) == Overlaid(FileContent(codec, old(fd.bytes), inode), off, buf)
    ensures healthy && r.Err? ==> r.error == EFBIG || r.error == ENOMEM
    ensures healthy && Roomy(inode, |old(fd.bytes)|, off + |buf|) ==> r.Ok? && r.value.added <= MANY_WINDOWS
    ensures Roomy(inode, |old(fd.bytes)|, off + |buf|) ==> |fd.bytes| <= |old(fd.bytes)| + STEP
    ensures r.Ok? && IsPacked(inode.chunks, inode.windowSize) ==> IsPacked(r.value.next.chunks, inode.windowSize)
  {
    hide Codec.Lawful, Healthy, Replaces, FileContent, Overlaid, Splice, Rewritten, IsPacked;
    ghost var data := fd.bytes;
    var entries, region := RewriteRegion(codec, fd, inode, off, buf, healthy);
    DataGrows(codec, data, fd.bytes, inode);
    if entries.Err? { return Err(entries.error); }
    RewrittenRange(codec, data, fd.bytes, inode.chunks, inode.windowSize, region.first, region.end, region.lo, region.hi, off, buf, entries.value);
    var chunks := Splice(inode.chunks, region.first, region.end, entries.value);
    SpliceReplaces(inode.chunks, region.first, region.end, entries.value);
    RewrittenPacked(codec, data, fd.bytes, inode.chunks, inode.windowSize, region.first, region.end, region.lo, region.hi, off, buf, entries.value);
    if |chunks| > U32_MAX { return Err(ENOMEM); }
    var next := inode.(chunks := chunks, logicalSize := Max(inode.logicalSize, off + |buf|),
                       fullyPacked := IsPacked(chunks, inode.windowSize));
    WriteRefines(codec, data, fd.bytes, inode, inode.windowSize, region.first, region.end,
                 region.lo, region.hi, off, buf, entries.value, next);
    r := Ok(Plan(next, region.first, region.end - region.first, |entries.value|));
  }

  lemma RewrittenRange(codec: Codec, data: seq<byte>, data': seq<byte>, chunks: seq<Chunk>, w: int,
                       first: int, end: int, lo: int, hi: int, off: int, buf: seq<byte>, entries: seq<Chunk>)
    requires w > 0 && Rewritten(codec, data, data', chunks, w, first, end, lo, hi, off, buf, entries)
    ensures 0 <= first <= end <= |chunks|
  {
  }

  lemma ReplaceAll(was: seq<Chunk>, next: seq<Chunk>)
    ensures Replaces(was, next, 0, |was|, |next|)
  {
    assert next[0..0 + |next|] == next;
  }

  /** The resized map: what a truncate does before its commit. */
  method ResizeMap(codec: Codec, fd: DataFile, inode: Inode, size: nat, healthy: bool) returns (r: Result<Inode>)
    requires codec.Lawful() && Healthy(codec, fd.bytes, inode) && |inode.chunks| <= U32_MAX && size <= OFF_MAX
    modifies fd
    ensures old(fd.bytes) <= fd.bytes && Healthy(codec, fd.bytes, inode)
    ensures FileContent(codec, fd.bytes, inode) == FileContent(codec, old(fd.bytes), inode)
    ensures r.Ok? ==>
              && SameJournal(inode, r.value) && |r.value.chunks| <= |inode.chunks| && r.value.logicalSize == size
              && Healthy(codec, fd.bytes, r.value)
              && FileContent(codec, fd.bytes, r.value) == Resized(FileContent(codec, old(fd.bytes), inode), size)
    ensures |fd.bytes| <= |old(fd.bytes)| + U32_MAX
    ensures r.Ok? && IsPacked(inode.chunks, inode.windowSize) ==> IsPacked(r.value.chunks, inode.windowSize)
    ensures healthy && |old(fd.bytes)| + U32_MAX <= OFF_MAX ==> r.Ok?
    ensures healthy && r.Err? ==> r.error == EFBIG
  {
    hide Codec.Lawful, FileContent, Resized, CutTo, IsPacked, AllReadable, Ordered, Within;
    ghost var data := fd.bytes;
    if size < inode.logicalSize {
      var kept := CutChunks(codec, fd, inode.chunks, inode.logicalSize, size, healthy);
      DataGrows(codec, data, fd.bytes, inode);
      if kept.Err? { return Err(kept.error); }
      var next := inode.(chunks := kept.value, logicalSize := size, fullyPacked := IsPacked(kept.value, inode.windowSize));
      ShrinkRefines(codec, data, fd.bytes, inode, next);
      r := Ok(next);
    } else {
      var next := inode.(logicalSize := size, fullyPacked := IsPacked(inode.chunks, inode.windowSize));
      ExtendRefines(codec, data, inode, next);
      r := Ok(next);
    }
  }

  /** `myfs_truncate_locked` on the path: the whole map is saved anew. */
  method TruncatePath(g: Generation, size: int, fault: SaveFault, healthy: bool) returns (r: Result<()>, renamed: bool)
    requires g.Valid() && size <= OFF_MAX
    modifies g, g.data
    ensures Advances(g) && Expands(g)
    ensures size < 0 ==> r == Err(EINVAL) && !renamed
    ensures (r.Ok? ==> renamed && fault == NoFault) && (r.Err? && renamed ==> fault == AfterRename)
    ensures renamed ==> 0 <= size && g.Content() == Resized(old(g.Content()), size)
    ensures !renamed ==> g.Content() == old(g.Content())
    ensures healthy && 0 <= size && |old(g.data.bytes)| + U32_MAX <= OFF_MAX ==>
              renamed == (fault != BeforeRename) && r.Ok? == (fault == NoFault)
    ensures r.Err? && g.Content() != old(g.Content()) ==> fault == AfterRename && 0 <= size && size != |old(g.Content())|
    ensures healthy && |old(g.data.bytes)| + U32_MAX <= OFF_MAX ==>
              (r.Err? && g.Content() != old(g.Content()) <==> fault == AfterRename && 0 <= size && size != |old(g.Content())|)
  {
    hide Load, Stored, Healthy, FileContent, Resized, Codec.Lawful, SameJournal, IsPacked;
    renamed := false;
    g.DiskPacked();
    if size < 0 { return Err(EINVAL), renamed; }
    var loaded := LoadMap(g.codec, g.meta, healthy);
    if loaded.Err? { return Err(loaded.error), renamed; }
    ghost var codec, meta, data := g.codec, g.meta.bytes, g.data.bytes;
    StoredFacts(codec, meta, data, loaded.value);
    var next := NewMap(g.codec, g.data, loaded.value, size, healthy);
    if next.Err? { return Err(next.error), renamed; }
    r, renamed := PublishMap(g, data, loaded.value, next.value, fault);
    PublishedGrew(loaded.value, next.value, |data|, |g.data.bytes|);
    ResizedSame(old(g.Content()), size);
  }

  /** A map saved anew has no journal. */
  lemma PublishedGrew(inode: Inode, next: Inode, dataWas: nat, data: nat)
    requires SameJournal(inode, next) && |next.chunks| <= |inode.chunks| && |inode.chunks| <= U32_MAX && data <= dataWas + U32_MAX
    requires inode.fullyPacked == IsPacked(inode.chunks, inode.windowSize)
    requires IsPacked(inode.chunks, inode.windowSize) ==> IsPacked(next.chunks, inode.windowSize)
    ensures Grew(inode, dataWas, Saved(next, next.windowSize), data) && Grew(inode, dataWas, inode, data)
  {
    hide IsPacked;
  }

  lemma ResizedSame(content: seq<byte>, size: nat)
    ensures Resized(content, size) == content <==> size == |content|
  {
    if size == |content| { assert Resized(content, size) == content; }
  }

  /** The map of the truncated file: empty, cut, or only longer. */
  method NewMap(codec: Codec, fd: DataFile, inode: Inode, size: nat, healthy: bool) returns (r: Result<Inode>)
    requires codec.Lawful() && Healthy(codec, fd.bytes, inode) && |inode.chunks| <= U32_MAX && size <= OFF_MAX
    modifies fd
    ensures old(fd.bytes) <= fd.bytes && Healthy(codec, fd.bytes, inode)
    ensures FileContent(codec, fd.bytes, inode) == FileContent(codec, old(fd.bytes), inode)
    ensures r.Ok? ==>
              && SameJournal(inode, r.value) && |r.value.chunks| <= |inode.chunks| && r.value.logicalSize == size
              && Healthy(codec, fd.bytes, r.value)
              && FileContent(codec, fd.bytes, r.value) == Resized(FileContent(codec, old(fd.bytes), inode), size)
    ensures |fd.bytes| <= |old(fd.bytes)| + U32_MAX
    ensures r.Ok? && IsPacked(inode.chunks, inode.windowSize) ==> IsPacked(r.value.chunks, inode.windowSize)
    ensures healthy && |old(fd.bytes)| + U32_MAX <= OFF_MAX ==> r.Ok?
  {
    if size == 0 {
      var next := inode.(chunks := [], logicalSize := 0, fullyPacked := IsPacked([], inode.windowSize));
      EmptyMap(codec, fd.bytes, next);
      return Ok(next);
    }
    r := ResizeMap(codec, fd, inode, size, healthy);
  }

  /** Save a new map over the metadata path and announce it; the rename decides what is visible. */
  method PublishMap(g: Generation, ghost was: seq<byte>, ghost inode: Inode, next: Inode, fault: SaveFault)
    returns (r: Result<()>, renamed: bool)
    requires g.codec.Lawful() && was <= g.data.bytes
    requires Load(g.codec, g.meta.bytes) == Ok(inode) && Stored(g.codec, g.meta.bytes, inode)
    requires Healthy(g.codec, g.data.bytes, inode) && Healthy(g.codec, g.data.bytes, next) && SameJournal(inode, next)
    requires |next.chunks| <= U32_MAX && next.logicalSize <= OFF_MAX
    modifies g
    ensures g.Valid() && g.epoch == old(g.epoch) + 1 && g.superseded == old(g.superseded)
    ensures g.meta == old(g.meta) || fresh(g.meta)
    ensures renamed == (fault != BeforeRename) && r.Ok? == (fault == NoFault)
    ensures g.Content() == FileContent(g.codec, g.data.bytes, if renamed then next else inode)
    ensures g.Disk() == if renamed then Saved(next, next.windowSize) else inode
  {
    hide Load, FileContent, Codec.Lawful, SavedBytes;
    PublishFacts(g.codec, g.meta.bytes, g.data.bytes, inode, next);
    hide Stored, Healthy;
    var saved, file := SaveMap(g.codec, next, fault);
    renamed := file != null;
    if file != null {
      g.meta := file;
    }
    g.epoch := g.epoch + 1;
    r := if saved.Ok? then Ok(()) else Err(saved.error);
  }

  lemma PublishFacts(codec: Codec, meta: seq<byte>, data: seq<byte>, inode: Inode, next: Inode)
    requires Stored(codec, meta, inode) && SameJournal(inode, next) && Healthy(codec, data, next)
    requires |next.chunks| <= U32_MAX && next.logicalSize <= OFF_MAX
    ensures SizeValid(next.windowSize) && SaveWindow(next) == next.windowSize
    ensures var saved := Saved(next, next.windowSize); var bytes := SavedBytes(codec, next, next.windowSize);
            && Stored(codec, bytes, saved) && Load(codec, bytes) == Ok(saved) && Healthy(codec, data, saved)
            && FileContent(codec, data, saved) == FileContent(codec, data, next)
  {
    hide Load, LoadUnsorted, IsPacked, BaseBytes, AllReadable, Within, Ordered, ByteAt;
    SaveStored(codec, next);
  }

  /** The map of `now` is that of `was`; its journal is the same, or has been folded into the base image. */
  predicate SameMap(was: Inode, now: Inode) {
    && now.chunks == was.chunks && now.logicalSize == was.logicalSize && now.windowSize == was.windowSize
    && (now.validEnd == was.validEnd || now.validEnd == HEADER_SIZE + ENTRY_SIZE * |was.chunks|)
  }

  lemma StillRoomy(was: Inode, now: Inode, dataLength: nat, end: nat)
    requires SameMap(was, now) && Roomy(was, dataLength, end)
    ensures Roomy(now, dataLength, end)
    ensures forall n: int :: 0 <= n <= MANY_WINDOWS ==> RecordFits(now.validEnd, n)
  {
  }

  class Handle {
    var generation: Generation
    var metaFd: MetaFile
    const writable: bool
    var inode: Inode
    var cacheValid: bool
    var seen: nat

    /** A valid cache of the current epoch is the replay of the metadata file it appends to. */
    ghost predicate Coherent()
      reads this, generation, generation.meta
    {
      && seen <= generation.epoch
      && (!cacheValid ==> seen < generation.epoch)
      && (cacheValid && seen == generation.epoch ==>
            metaFd == generation.meta && Load(generation.codec, generation.meta.bytes) == Ok(inode))
    }

    predicate Current()
      reads this, generation
    {
      cacheValid && seen == generation.epoch
    }

    ghost predicate Sound()
      reads this, generation, generation.data, generation.meta
    {
      generation.Valid() && Coherent()
    }

    constructor (generation: Generation, writable: bool, inode: Inode)
      requires generation.Valid() && Load(generation.codec, generation.meta.bytes) == Ok(inode)
      ensures this.generation == generation && this.writable == writable
      ensures Sound() && Current()
    {
      hide Load, Generation.Valid;
      this.generation, this.metaFd, this.writable := generation, generation.meta, writable;
      this.inode, this.cacheValid, this.seen := inode, true, generation.epoch;
    }

    /** Hand-over: descriptors, map, record and epoch change together. */
    method Rebind(next: Generation, bundle: Inode)
      requires next.Valid() && Load(next.codec, next.meta.bytes) == Ok(bundle)
      modifies this
      ensures generation == next && Sound() && Current()
    {
      hide Load, Generation.Valid;
      generation, metaFd, inode, cacheValid, seen := next, next.meta, bundle, true, next.epoch;
    }

    /** `myfs_refresh_handle_cache_locked`: a stale cache is replaced by a fresh load. */
    method Refresh(healthy: bool) returns (r: Result<()>)
      requires Sound()
      modifies this
      ensures generation == old(generation) && Sound()
      ensures r.Ok? ==> Current()
      ensures r.Err? || old(Current()) ==> unchanged(this)
      ensures healthy ==> r.Ok?
    {
      hide Load, Stored, Healthy, Codec.Lawful;
      if seen != generation.epoch {
        var loaded := LoadMap(generation.codec, generation.meta, healthy);
        if loaded.Err? { return Err(loaded.error); }
        metaFd, inode, cacheValid, seen := generation.meta, loaded.value, true, generation.epoch;
      }
      r := Ok(());
    }

    /**
     Save the cached map over the metadata path, announce a new epoch, reopen: the version 0
     conversion and the checkpoint.  Whatever fails, the handle is coherent and the content kept.
     */
    method SaveCached(healthy: bool) returns (r: Result<()>)
      requires Sound() && Current()
      modifies this, generation
      ensures generation == old(generation) && Advances(generation) && Sound()
      ensures generation.Content() == old(generation.Content())
      ensures r.Ok? ==> Current() && inode == Saved(old(inode), old(inode.windowSize))
      ensures healthy ==> r.Ok?
    {
      hide Load, Stored, Healthy, FileContent, SavedBytes, Codec.Lawful;
      SaveRefines(generation.codec, generation.meta.bytes, generation.data.bytes, inode);
      StoredLoads(generation.codec, SavedBytes(generation.codec, inode, inode.windowSize), Saved(inode, inode.windowSize));
      var fault := NoFault;
      if !healthy { fault := ChooseFault(); }
      var saved, renamed := SaveMap(generation.codec, inode, fault);
      if renamed != null {
        generation.meta := renamed;
      }
      generation.epoch := generation.epoch + 1;
      if saved.Ok? {
        inode := saved.value;
        var opens := healthy;
        if !healthy { opens := *; }
        if opens {
          metaFd, seen := generation.meta, generation.epoch;
          return Ok(());
        }
        cacheValid := false;
        return Err(EIO);
      }
      cacheValid := false;
      r := Err(saved.error);
    }

    /** `checkpoint_handle_metadata_locked`; its failure is only logged. */
    method Checkpoint(healthy: bool)
      requires Sound() && Current()
      modifies this, generation
      ensures generation == old(generation) && Advances(generation) && Sound()
      ensures generation.Content() == old(generation.Content())
      ensures !CheckpointNeeded(old(inode)) ==> unchanged(this) && unchanged(generation)
      ensures healthy ==> Current()
      ensures healthy && CheckpointNeeded(old(inode)) ==>
                inode == Saved(old(inode), old(inode.windowSize)) && !CheckpointNeeded(inode)
      ensures healthy ==> JournalShort(inode)
    {
      if CheckpointNeeded(inode) {
        var saved := SaveCached(healthy);
      }
    }

    /** The common entry of write and truncate: refresh the cache, convert a version 0 file. */
    method Prepare(healthy: bool) returns (r: Result<()>)
      requires Sound()
      modifies this, generation
      ensures generation == old(generation) && Advances(generation) && Sound()
      ensures generation.Content() == old(generation.Content())
      ensures r.Ok? ==> Current() && inode.version != VERSION_LEGACY && SameMap(old(generation.Disk()), inode)
      ensures healthy ==> r.Ok?
    {
      hide Load, Stored, Healthy, FileContent, Codec.Lawful;
      r := Refresh(healthy);
      if r.Err? { return; }
      if inode.version == VERSION_LEGACY {
        r := SaveCached(healthy);
      }
    }

    /** The commit of write and truncate: append the record, then take over the new map. */
    method Commit(next: Inode, first: u32, removed: u32, added: u32, healthy: bool) returns (r: Result<()>)
      requires Sound() && Current() && inode.version != VERSION_LEGACY && SameJournal(inode, next)
      requires Replaces(inode.chunks, next.chunks, first, removed, added)
      requires |next.chunks| <= U32_MAX && next.logicalSize <= OFF_MAX
      requires Healthy(generation.codec, generation.data.bytes, next)
      modifies this, generation, metaFd
      ensures generation == old(generation) && metaFd == old(metaFd) && Advances(generation) && Sound() && Current()
      ensures r.Ok? ==>
                && generation.Content() == FileContent(generation.codec, generation.data.bytes, next)
                && inode == Committed(next, DELTA_HEADER_SIZE + ENTRY_SIZE * added + DELTA_TRAILER_SIZE)
      ensures r.Err? ==> inode == old(inode) && generation.Content() == old(generation.Content())
      ensures generation.epoch == old(generation.epoch) + (if r.Ok? then 1 else 0)
      ensures healthy ==> (r.Ok? <==> RecordFits(old(inode.validEnd), added))
      ensures healthy && r.Err? ==> r.error == EFBIG
    {
      hide Load, Healthy, FileContent, Replaces, SameJournal, Codec.Lawful, Stored;
      var appended := AppendRecord(generation.codec, metaFd, generation.data.bytes, inode, next, first, removed, added, healthy);
      if appended.Err? { return Err(appended.error); }
      inode := appended.value;
      generation.epoch := generation.epoch + 1;
      seen := generation.epoch;
      r := Ok(());
    }

    /** `myfs_write_locked`. */
    method Write(offset: int, buf: seq<byte>, healthy: bool) returns (r: Result<nat>, full: nat, partial: nat)
      requires Sound()
      modifies this, generation, generation.data, generation.meta
      ensures generation == old(generation) && Advances(generation) && Sound()
      ensures |buf| == 0 ==> r == Ok(0)
      ensures |buf| > 0 && !writable ==> r == Err(EBADF)
      ensures |buf| > 0 && writable && (offset < 0 || offset + |buf| > OFF_MAX) ==> r == Err(EFBIG)
      ensures |buf| > 0 && writable && 0 <= offset && offset + |buf| <= OFF_MAX && old(generation.superseded) ==> r == Err(ESTALE)
      ensures r.Ok? ==>
                && r.value == |buf|
                && (|buf| > 0 ==>
                      && !old(generation.superseded) && 0 <= offset
                      && generation.Content() == Overlaid(old(generation.Content()), offset, buf))
      ensures r.Err? || |buf| == 0 ==> generation.Content() == old(generation.Content())
      ensures r.Ok? && |buf| > 0 ==>
                var was := old(generation.Disk());
                SizeValid(was.windowSize) && Counts(was.chunks, offset, offset + |buf|, was.windowSize, full, partial)
      ensures healthy && writable && 0 <= offset && offset + |buf| <= OFF_MAX && !old(generation.superseded) ==>
                && (r.Err? ==> r.error == EFBIG || r.error == ENOMEM)
                && (Roomy(old(generation.Disk()), |old(generation.data.bytes)|, offset + |buf|) ==> r.Ok?)
      ensures healthy && (0 <= offset && offset + |buf| <= OFF_MAX ==> Roomy(old(generation.Disk()), |old(generation.data.bytes)|, offset + |buf|)) ==>
                Expands(generation)
      ensures healthy && r.Ok? && |buf| > 0 ==> Load(generation.codec, generation.meta.bytes).Ok? && JournalShort(generation.Disk())
    {
      hide Load, Stored, Healthy, FileContent, Overlaid, Codec.Lawful, IsPacked, JournalShort;
      full, partial := 0, 0;
      generation.DiskPacked();
      if |buf| == 0 { return Ok(0), full, partial; }
      if !writable { return Err(EBADF), full, partial; }
      if offset < 0 || |buf| > OFF_MAX - offset { return Err(EFBIG), full, partial; }
      if generation.superseded { return Err(ESTALE), full, partial; }
      var ready := Prepare(healthy);
      if ready.Err? { return Err(ready.error), full, partial; }
      if Roomy(old(generation.Disk()), |generation.data.bytes|, offset + |buf|) {
        StillRoomy(old(generation.Disk()), inode, |generation.data.bytes|, offset + |buf|);
      }
      var wrote;
      ghost var ready0 := inode;
      SoundPacked();
      wrote, full, partial := WriteCurrent(offset, buf, healthy);
      if wrote.Err? { return Err(wrote.error), full, partial; }
      ghost var wrote0 := inode;
      SoundPacked();
      Checkpoint(healthy);
      if healthy { SoundPacked(); }
      if healthy && Roomy(old(generation.Disk()), |old(generation.data.bytes)|, offset + |buf|) {
        CommitGrew(old(generation.Disk()), |old(generation.data.bytes)|, ready0, wrote0, inode, |generation.data.bytes|);
      }
      r := Ok(|buf|);
    }

    /** What the cache says of the map on disk. */
    lemma SoundPacked()
      requires Sound() && Current()
      ensures Load(generation.codec, generation.meta.bytes).Ok? && generation.Disk() == inode
      ensures inode.fullyPacked == IsPacked(inode.chunks, inode.windowSize) && |inode.chunks| <= U32_MAX
    {
    }

    /** The write proper, on a current map. */
    method WriteCurrent(offset: nat, buf: seq<byte>, healthy: bool) returns (r: Result<()>, full: nat, partial: nat)
      requires Sound() && Current() && inode.version != VERSION_LEGACY
      requires 0 < |buf| && offset + |buf| <= OFF_MAX
      modifies this, generation, generation.data, metaFd
      ensures generation == old(generation) && metaFd == old(metaFd) && Advances(generation) && Sound() && Current()
      ensures r.Ok? ==> generation.Content() == Overlaid(old(generation.Content()), offset, buf)
      ensures r.Err? ==> generation.Content() == old(generation.Content())
      ensures Counts(old(inode.chunks), offset, offset + |buf|, old(inode.windowSize), full, partial)
      ensures healthy && r.Ok? && Roomy(old(inode), |old(generation.data.bytes)|, offset + |buf|) ==>
                Recorded(old(inode), |old(generation.data.bytes)|, inode, |generation.data.bytes|)
      ensures healthy && r.Err? ==> r.error == EFBIG || r.error == ENOMEM
      ensures healthy && Roomy(old(inode), |old(generation.data.bytes)|, offset + |buf|) ==> r.Ok?
    {
      hide Codec.Lawful, Healthy, Stored, Load, Replaces, SameJournal, FileContent, Overlaid, FullWindows, PartialWindows;
      if Roomy(inode, |generation.data.bytes|, offset + |buf|) {
        StillRoomy(inode, inode, |generation.data.bytes|, offset + |buf|);
      }
      StoredFacts(generation.codec, generation.meta.bytes, generation.data.bytes, inode);
      full, partial := Classify(inode.chunks, offset, offset + |buf|, inode.windowSize);
      var plan := PlanWrite(generation.codec, generation.data, inode, offset, buf, healthy);
      if plan.Err? { return Err(plan.error), full, partial; }
      if healthy && Roomy(inode, |old(generation.data.bytes)|, offset + |buf|) {
        PlanRecorded(generation.codec, inode, |old(generation.data.bytes)|, generation.data.bytes, plan.value);
      }
      r := Commit(plan.value.next, plan.value.first, plan.value.removed, plan.value.added, healthy);
    }

    /** `truncate_open_handle_locked`. */
    method Truncate(size: int, healthy: bool) returns (r: Result<()>)
      requires Sound() && size <= OFF_MAX
      modifies this, generation, generation.data, generation.meta
      ensures generation == old(generation) && Advances(generation) && Sound()
      ensures size < 0 ==> r == Err(EINVAL)
      ensures 0 <= size && !writable ==> r == Err(EBADF)
      ensures 0 <= size && writable && old(generation.superseded) ==> r == Err(ESTALE)
      ensures r.Ok? ==> 0 <= size && generation.Content() == Resized(old(generation.Content()), size)
      ensures r.Err? ==> generation.Content() == old(generation.Content())
      ensures healthy && writable && 0 <= size && !old(generation.superseded) ==>
                && (r.Err? ==> r.error == EFBIG)
                && (Roomy(old(generation.Disk()), |old(generation.data.bytes)|, 0) ==> r.Ok?)
      ensures healthy && Roomy(old(generation.Disk()), |old(generation.data.bytes)|, 0) ==> Expands(generation)
      ensures healthy && r.Ok? ==> Load(generation.codec, generation.meta.bytes).Ok? && JournalShort(generation.Disk())
    {
      hide Load, Stored, Healthy, FileContent, Resized, Codec.Lawful, IsPacked, JournalShort;
      generation.DiskPacked();
      if size < 0 { return Err(EINVAL); }
      if !writable { return Err(EBADF); }
      if generation.superseded { return Err(ESTALE); }
      r := Prepare(healthy);
      if r.Err? { return; }
      if Roomy(old(generation.Disk()), |generation.data.bytes|, 0) {
        StillRoomy(old(generation.Disk()), inode, |generation.data.bytes|, 0);
      }
      ghost var ready0 := inode;
      r := TruncateCurrent(size, healthy);
      if r.Ok? {
        ghost var cut0 := inode;
        SoundPacked();
        Checkpoint(healthy);
        if healthy { SoundPacked(); }
        if healthy && Roomy(old(generation.Disk()), |old(generation.data.bytes)|, 0) {
          CommitGrew(old(generation.Disk()), |old(generation.data.bytes)|, ready0, cut0, inode, |generation.data.bytes|);
        }
      }
    }

    /** The truncate proper, on a current map; its record replaces the whole map. */
    method TruncateCurrent(size: nat, healthy: bool) returns (r: Result<()>)
      requires Sound() && Current() && inode.version != VERSION_LEGACY && size <= OFF_MAX
      modifies this, generation, generation.data, metaFd
      ensures generation == old(generation) && metaFd == old(metaFd) && Advances(generation) && Sound() && Current()
      ensures r.Ok? ==> generation.Content() == Resized(old(generation.Content()), size)
      ensures r.Err? ==> generation.Content() == old(generation.Content())
      ensures healthy && r.Err? ==> r.error == EFBIG
      ensures healthy && Roomy(old(inode), |old(generation.data.bytes)|, 0) ==>
                r.Ok? && Recorded(old(inode), |old(generation.data.bytes)|, inode, |generation.data.bytes|)
    {
      hide Codec.Lawful, Healthy, Stored, Load, Replaces, SameJournal, FileContent, Resized;
      if Roomy(inode, |generation.data.bytes|, 0) { StillRoomy(inode, inode, |generation.data.bytes|, 0); }
      StoredFacts(generation.codec, generation.meta.bytes, generation.data.bytes, inode);
      var next := ResizeMap(generation.codec, generation.data, inode, size, healthy);
      if next.Err? { return Err(next.error); }
      if !healthy {
        if * { return Err(EIO); }
      }
      ReplaceAll(inode.chunks, next.value.chunks);
      CutRecorded(inode, |old(generation.data.bytes)|, next.value, |generation.data.bytes|);
      r := Commit(next.value, 0, |inode.chunks|, |next.value.chunks|, healthy);
    }

    /** `myfs_read` on a handle: a stale cache costs one refresh, then the slice is delivered. */
    method Read(buf: array<byte>, count: nat, offset: int, healthy: bool) returns (r: Result<nat>, rounds: nat)
      requires Sound() && count <= buf.Length
      modifies this, buf
      ensures generation == old(generation) && Sound()
      ensures 1 <= rounds <= 2
      ensures offset < 0 ==> r.Err?
      ensures 0 <= offset && r.Ok? ==>
                var content := generation.Content();
                && r.value == (if offset < |content| then Min(count, |content| - offset) else 0)
                && (offset < |content| ==> buf[..r.value] == content[offset..offset + r.value])
                && buf[r.value..] == old(buf[r.value..])
      ensures healthy && 0 <= offset ==> r.Ok?
    {
      hide Load, Stored, FileContent, Codec.Lawful, WellFormed;
      rounds := 0;
      while true
        invariant generation == old(generation) && Sound() && buf[..] == old(buf[..])
        invariant rounds == 0 || (rounds == 1 && Current())
        decreases 2 - rounds
      {
        rounds := rounds + 1;
        if cacheValid && seen == generation.epoch {
          PackedFlag(generation.codec, generation.meta.bytes, inode);
          r := ReadFromInode(generation.codec, generation.data, inode.chunks, inode.logicalSize, inode.fullyPacked,
                             inode.windowSize, buf, count, offset, healthy);
          ContentIs(generation.codec, generation.data.bytes, inode);
          return;
        }
        var refreshed := Refresh(healthy);
        if refreshed.Err? { return Err(refreshed.error), rounds; }
      }
    }
  }

  /** The map after a record, in a roomy file: the journal has grown by the record, and packed stays packed. */
  predicate Recorded(was: Inode, dataWas: nat, now: Inode, dataNow: nat) {
    && dataNow <= dataWas + STEP && now.validEnd <= was.validEnd + 0x2_0000_0000 && now.windowSize == was.windowSize
    && |now.chunks| <= U32_MAX && (IsPacked(was.chunks, was.windowSize) ==> IsPacked(now.chunks, now.windowSize))
  }

  lemma PlanRecorded(codec: Codec, inode: Inode, dataWas: nat, data: seq<byte>, plan: Plan)
    requires GoodPlan(codec, data, inode, plan) && |data| <= dataWas + STEP && plan.added <= MANY_WINDOWS
    requires IsPacked(inode.chunks, inode.windowSize) ==> IsPacked(plan.next.chunks, inode.windowSize)
    ensures Recorded(inode, dataWas, Committed(plan.next, DELTA_HEADER_SIZE + ENTRY_SIZE * plan.added + DELTA_TRAILER_SIZE), |data|)
  {
    hide IsPacked, Healthy, Replaces;
  }

  lemma CutRecorded(inode: Inode, dataWas: nat, next: Inode, data: nat)
    requires SameJournal(inode, next) && |next.chunks| <= |inode.chunks| && |inode.chunks| <= U32_MAX && data <= dataWas + U32_MAX
    requires IsPacked(inode.chunks, inode.windowSize) ==> IsPacked(next.chunks, inode.windowSize)
    ensures |inode.chunks| <= MANY_CHUNKS ==>
              Recorded(inode, dataWas, Committed(next, DELTA_HEADER_SIZE + ENTRY_SIZE * |next.chunks| + DELTA_TRAILER_SIZE), data)
  {
    hide IsPacked;
  }

  /** Refresh or conversion, then a record, then perhaps a checkpoint. */
  lemma CommitGrew(was: Inode, dataWas: nat, ready: Inode, recorded: Inode, now: Inode, dataNow: nat)
    requires SameMap(was, ready) && Recorded(ready, dataWas, recorded, dataNow)
    requires was.fullyPacked ==> IsPacked(was.chunks, was.windowSize)
    requires |was.chunks| <= U32_MAX && now.fullyPacked == IsPacked(now.chunks, now.windowSize)
    requires now == recorded || now == Saved(recorded, recorded.windowSize)
    ensures Grew(was, dataWas, now, dataNow)
  {
    hide IsPacked;
  }

  /** Others append blobs while a map is read: it goes on denoting the same. */
  lemma StillReadable(codec: Codec, data: seq<byte>, longer: seq<byte>, inode: Inode)
    requires Healthy(codec, data, inode) && data <= longer
    ensures WellFormed(codec, longer, inode.chunks, inode.logicalSize)
    ensures ChunkMap.Content(codec, longer, inode.chunks, inode.logicalSize) ==
            ChunkMap.Content(codec, data, inode.chunks, inode.logicalSize)
  {
    DataGrows(codec, data, longer, inode);
  }

  method ChooseFault() returns (fault: SaveFault)
  {
    fault := *;
  }

  /** The checks an append makes on the new map all pass. */
  lemma CommitChecks(codec: Codec, meta: seq<byte>, inode: Inode, next: Inode, first: int, removed: int, added: int)
    requires Stored(codec, meta, inode) && inode.version != VERSION_LEGACY && SameJournal(inode, next)
    requires Replaces(inode.chunks, next.chunks, first, removed, added)
    ensures Versioned(next) && first + added <= |next.chunks| && HEADER_SIZE <= next.validEnd <= |meta|
    ensures next.validEnd == inode.validEnd
  {
    hide Load, LoadUnsorted;
  }

  lemma PackedFlag(codec: Codec, meta: seq<byte>, inode: Inode)
    requires Stored(codec, meta, inode)
    ensures inode.fullyPacked ==> IsPacked(inode.chunks, inode.windowSize)
  {
  }

  lemma ContentIs(codec: Codec, data: seq<byte>, inode: Inode)
    ensures FileContent(codec, data, inode) == ChunkMap.Content(codec, data, inode.chunks, inode.logicalSize)
  {
  }

  lemma StoredLoads(codec: Codec, meta: seq<byte>, inode: Inode)
    requires Stored(codec, meta, inode)
    ensures Load(codec, meta) == Ok(inode)
  {
  }

  /**
   `myfs_open_locked`: with `truncate` the map is first replaced by an empty one - the old blobs
   stay behind - and only then is the handle attached.
   */
  method Open(g: Generation, writable: bool, truncate: bool, fault: SaveFault, healthy: bool)
    returns (r: Result<Handle>, renamed: bool)
    requires g.Valid()
    modifies g
    ensures Advances(g) && Expands(g) && g.data.bytes == old(g.data.bytes)
    ensures r.Ok? ==> fresh(r.value) && r.value.generation == g && r.value.writable == writable
                      && r.value.Sound() && r.value.Current() && renamed == truncate
    ensures renamed ==> truncate && fault != BeforeRename
    ensures g.Content() == if renamed then [] else old(g.Content())
    ensures healthy ==> renamed == (truncate && fault != BeforeRename) && r.Ok? == (truncate ==> fault == NoFault)
    ensures r.Err? && g.Content() != old(g.Content()) ==> truncate && fault != BeforeRename && old(g.Content()) != []
    ensures healthy ==>
              (r.Err? && g.Content() != old(g.Content()) <==> truncate && fault == AfterRename && old(g.Content()) != [])
  {
    hide Load, Stored, Healthy, FileContent, Codec.Lawful, SameJournal, IsPacked;
    renamed := false;
    g.DiskPacked();
    if truncate {
      var cleared;
      cleared, renamed := ClearPath(g, fault, healthy);
      if cleared.Err? { return Err(cleared.error), renamed; }
    }
    var loaded := LoadMap(g.codec, g.meta, healthy);
    if loaded.Err? { return Err(loaded.error), renamed; }
    var handle := new Handle(g, writable, loaded.value);
    r := Ok(handle);
  }

  /** The `O_TRUNC` step of open. */
  method ClearPath(g: Generation, fault: SaveFault, healthy: bool) returns (r: Result<()>, renamed: bool)
    requires g.Valid()
    modifies g
    ensures Advances(g) && Expands(g)
    ensures (r.Ok? ==> renamed) && (renamed ==> fault != BeforeRename)
    ensures g.Content() == if renamed then [] else old(g.Content())
    ensures healthy ==> renamed == (fault != BeforeRename) && r.Ok? == (fault == NoFault)
  {
    hide Load, Stored, FileContent, Codec.Lawful, Healthy;
    renamed := false;
    g.DiskPacked();
    var loaded := LoadMap(g.codec, g.meta, healthy);
    if loaded.Err? { return Err(loaded.error), renamed; }
    var inode := loaded.value;
    StoredFacts(g.codec, g.meta.bytes, g.data.bytes, inode);
    var next := inode.(chunks := [], logicalSize := 0, fullyPacked := IsPacked([], inode.windowSize));
    EmptyMap(g.codec, g.data.bytes, next);
    EmptyFile(g.codec, g.data.bytes, next);
    PublishedGrew(inode, next, |g.data.bytes|, |g.data.bytes|);
    r, renamed := PublishMap(g, g.data.bytes, inode, next, fault);
  }

  /** `myfs_create_locked` for a new name: an empty data file, an empty map, a handle on both. */
  method Create(codec: Codec, writable: bool, fault: SaveFault, healthy: bool) returns (r: Result<Handle>)
    requires codec.Lawful()
    ensures r.Ok? ==>
              && fresh(r.value) && r.value.writable == writable && r.value.Sound() && r.value.Current()
              && fresh(r.value.generation) && fresh(r.value.generation.data) && fresh(r.value.generation.meta)
              && !r.value.generation.superseded && r.value.generation.data.bytes == []
              && r.value.generation.Content() == [] && r.value.generation.Disk() == NewInode()
    ensures healthy ==> (r.Ok? <==> fault == NoFault)
  {
    hide Load, Stored, Healthy, FileContent, Codec.Lawful, SavedBytes;
    var zero := Inode([], 0, false, 0, VERSION_LEGACY, 0, 0, 0, 0);
    NewFile(codec);
    var saved, file := SaveMap(codec, zero, fault);
    if saved.Err? { return Err(saved.error); }
    var data := new DataFile();
    var g := new Generation(codec, data, file);
    var loaded := LoadMap(codec, g.meta, healthy);
    if loaded.Err? { return Err(loaded.error); }
    var handle := new Handle(g, writable, loaded.value);
    r := Ok(handle);
  }

  /** The map of a new file, as it loads. */
  function NewInode(): Inode {
    Inode([], 0, true, DEFAULT_WINDOW, VERSION_V2, 0, 0, 0, HEADER_SIZE)
  }

  lemma NewFile(codec: Codec)
    ensures var zero := Inode([], 0, false, 0, VERSION_LEGACY, 0, 0, 0, 0);
            var bytes := SavedBytes(codec, zero, DEFAULT_WINDOW);
            && SaveWindow(zero) == DEFAULT_WINDOW && SizeValid(DEFAULT_WINDOW) && Saved(zero, DEFAULT_WINDOW) == NewInode()
            && Stored(codec, bytes, NewInode()) && Load(codec, bytes) == Ok(NewInode())
            && Healthy(codec, [], NewInode()) && FileContent(codec, [], NewInode()) == []
  {
    hide Load, LoadUnsorted, BaseBytes;
    var zero := Inode([], 0, false, 0, VERSION_LEGACY, 0, 0, 0, 0);
    SaveStored(codec, zero.(windowSize := DEFAULT_WINDOW));
    assert SavedBytes(codec, zero.(windowSize := DEFAULT_WINDOW), DEFAULT_WINDOW) == SavedBytes(codec, zero, DEFAULT_WINDOW);
    EmptyMap(codec, [], NewInode());
    EmptyFile(codec, [], NewInode());
  }

  /** A truncate by path that fails and changes the file: a new file, size 1, a directory sync that fails. */
  method FailedTruncateChanges(codec: Codec) returns (r: Result<()>, ghost before: seq<byte>, ghost after: seq<byte>)
    requires codec.Lawful()
    ensures r.Err? && before == [] && after == [0]
  {
    hide Load, Stored, Healthy, FileContent, Codec.Lawful;
    var created := Create(codec, true, NoFault, true);
    var g := created.value.generation;
    before := g.Content();
    var renamed;
    r, renamed := TruncatePath(g, 1, AfterRename, true);
    after := g.Content();
  }

  /** An open with `O_TRUNC` that fails and empties the file: two bytes, and the same failure. */
  method FailedOpenChanges(codec: Codec) returns (r: Result<Handle>, ghost before: seq<byte>, ghost after: seq<byte>)
    requires codec.Lawful()
    ensures r.Err? && before == [7, 8] && after == []
  {
    hide Load, Stored, Healthy, FileContent, Codec.Lawful;
    var created := Create(codec, true, NoFault, true);
    var g := created.value.generation;
    var wrote, full, partial := created.value.Write(0, [7, 8], true);
    before := g.Content();
    var renamed;
    r, renamed := Open(g, true, true, AfterRename, true);
    after := g.Content();
  }

  lemma EmptyFile(codec: Codec, data: seq<byte>, inode: Inode)
    requires inode.logicalSize == 0
    ensures FileContent(codec, data, inode) == []
  {
  }
}
