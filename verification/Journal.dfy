/**
 The metadata file (src/core/metadata.c): a base image followed by delta records.  The functions
 define which bytes are written and what any bytes mean when read back.
 */
module Journal {
  import opened Basics
  import opened Windows
  import opened ChunkMap
  import opened Wire
  import opened SortChunks

  const META_MAGIC: seq<byte> := [0x4D, 0x59, 0x46, 0x53, 0x4D, 0x45, 0x54, 0x41]
  const DELTA_MAGIC: seq<byte> := [0x4D, 0x59, 0x46, 0x53, 0x44, 0x4C, 0x54, 0x41]
  const HEADER_SIZE: int := 64
  const DELTA_HEADER_SIZE: int := 48
  const DELTA_TRAILER_SIZE: int := 8
  const COMMIT_MARKER: u32 := 0x5449_4D43
  const VERSION_LEGACY: u16 := 0
  const VERSION_V1: u16 := 1
  const VERSION_V2: u16 := 2

  /** The decoded metadata of a file; `fullyPacked` is derived, never stored. */
  datatype Inode = Inode(chunks: seq<Chunk>, logicalSize: u64, fullyPacked: bool, windowSize: u32, version: u16,
                         sequence: u64, deltaCount: nat, journalBytes: nat, validEnd: nat)

  /** A journal record: chunks `first .. first + removed` give way to `added`. */
  datatype Delta = Delta(first: u32, removed: u32, added: seq<Chunk>, logicalSize: u64) {
    function Length(): int { DELTA_HEADER_SIZE + ENTRY_SIZE * |added| + DELTA_TRAILER_SIZE }

    predicate Fits() { Length() <= U32_MAX }
  }

  /** The state of the loader between records. */
  datatype Replayed = Replayed(chunks: seq<Chunk>, logicalSize: u64, sequence: u64,
                               deltaCount: nat, journalBytes: nat, cursor: nat)

  /** Sequence numbers are 64-bit and wrap. */
  function Next(sequence: u64): u64 { if sequence == U64_MAX then 0 else sequence + 1 }

  // ----- what is written

  function EntriesBytes(chunks: seq<Chunk>): (r: seq<byte>)
    ensures |r| == ENTRY_SIZE * |chunks|
  {
    if chunks == [] then [] else EntryBytes(chunks[0]) + EntriesBytes(chunks[1..])
  }

  /** The base header with a given value in its own checksum field. */
  function HeaderBytes(version: u16, window: u32, count: u32, logicalSize: u64, sequence: u64,
                       entriesCrc: u32, headerCrc: u32): (r: seq<byte>)
    ensures |r| == HEADER_SIZE
  {
    META_MAGIC + Le16(version) + Le16(HEADER_SIZE) + Zeros(4) + Le32(ENTRY_SIZE) + Le32(window) + Le32(count) + Zeros(4)
    + Le64(logicalSize) + Le64(sequence) + Le32(entriesCrc) + Le32(headerCrc) + Zeros(8)
  }

  /** The base header with its checksum, computed over the header with that field zero. */
  function SealedHeader(codec: Codec, version: u16, window: u32, count: u32, logicalSize: u64, sequence: u64,
                        entriesCrc: u32): (r: seq<byte>)
    ensures |r| == HEADER_SIZE
  {
    HeaderBytes(version, window, count, logicalSize, sequence, entriesCrc,
                codec.crc(HeaderBytes(version, window, count, logicalSize, sequence, entriesCrc, 0)))
  }

  function BaseBytes(codec: Codec, version: u16, window: u32, chunks: seq<Chunk>,
                     logicalSize: u64, sequence: u64): (r: seq<byte>)
    requires |chunks| <= U32_MAX
    ensures |r| == HEADER_SIZE + ENTRY_SIZE * |chunks|
  {
    SealedHeader(codec, version, window, |chunks|, logicalSize, sequence, codec.crc(EntriesBytes(chunks)))
    + EntriesBytes(chunks)
  }

  function DeltaBody(sequence: u64, d: Delta): (r: seq<byte>)
    requires d.Fits()
    ensures |r| == d.Length() - DELTA_TRAILER_SIZE
  {
    DELTA_MAGIC + Le32(d.Length()) + Zeros(4) + Le64(sequence) + Le32(d.first) + Le32(d.removed) + Le32(|d.added|)
    + Zeros(4) + Le64(d.logicalSize) + EntriesBytes(d.added)
  }

  function DeltaBytes(codec: Codec, sequence: u64, d: Delta): (r: seq<byte>)
    requires d.Fits()
    ensures |r| == d.Length()
  {
    DeltaBody(sequence, d) + Le32(codec.crc(DeltaBody(sequence, d))) + Le32(COMMIT_MARKER)
  }

  // ----- what bytes mean

  function EntriesAt(s: seq<byte>, at: nat, n: nat): (r: seq<Chunk>)
    requires at + ENTRY_SIZE * n <= |s|
    ensures |r| == n
  {
    seq(n, i requires 0 <= i < n => EntryAt(s, at + ENTRY_SIZE * i))
  }

  /** `splice_delta` accepts a record whose range lies in the map. */
  predicate Applies(chunks: seq<Chunk>, d: Delta) {
    && d.first <= |chunks| && d.removed <= |chunks| - d.first
    && |chunks| - d.removed + |d.added| <= U32_MAX
  }

  function Apply(j: Replayed, d: Delta): Replayed
    requires Applies(j.chunks, d)
  {
    Replayed(Splice(j.chunks, d.first, d.first + d.removed, d.added), d.logicalSize, Next(j.sequence),
             j.deltaCount + 1, j.journalBytes + d.Length(), j.cursor + d.Length())
  }

  datatype Record = Record(sequence: u64, delta: Delta)

  /** One record at position `at`: `None` for a torn or uncommitted tail, an error for a broken one. */
  function ReadRecord(codec: Codec, s: seq<byte>, at: nat): (r: Result<Option<Record>>)
    requires at <= |s|
    ensures r.Ok? && r.value.Some? ==> at + r.value.value.delta.Length() <= |s|
  {
    if |s| - at < DELTA_HEADER_SIZE then Ok(None)
    else if s[at..at + 8] != DELTA_MAGIC then Err(EIO)
    else
      var len: int, added: int := Get32(s, at + 8), Get32(s, at + 32);
      if len != DELTA_HEADER_SIZE + ENTRY_SIZE * added + DELTA_TRAILER_SIZE then Err(EIO)
      else if |s| - at < len then Ok(None)
      else if Get32(s, at + len - 4) != COMMIT_MARKER then Ok(None)
      else if codec.crc(s[at..at + len - DELTA_TRAILER_SIZE]) != Get32(s, at + len - DELTA_TRAILER_SIZE) then Err(EIO)
      else
        var entries := EntriesAt(s, at + DELTA_HEADER_SIZE, added);
        Ok(Some(Record(Get64(s, at + 16), Delta(Get32(s, at + 24), Get32(s, at + 28), entries, Get64(s, at + 40)))))
  }

  datatype Scan = Stop(result: Result<Replayed>) | More(next: Replayed)

  /** One round of the loader: a torn tail stops it quietly, a broken record is an error. */
  function ReplayStep(codec: Codec, s: seq<byte>, j: Replayed): (r: Scan)
    requires j.cursor <= |s|
    ensures r.More? ==> j.cursor < r.next.cursor <= |s|
  {
    match ReadRecord(codec, s, j.cursor)
    case Err(e) => Stop(Err(e))
    case Ok(None) => Stop(Ok(j))
    case Ok(Some(r)) =>
      if r.sequence != Next(j.sequence) || !Applies(j.chunks, r.delta) then Stop(Err(EIO))
      else More(Apply(j, r.delta))
  }

  function Replay(codec: Codec, s: seq<byte>, j: Replayed): (r: Result<Replayed>)
    requires j.cursor <= |s|
    ensures r.Ok? ==> j.cursor <= r.value.cursor <= |s|
    decreases |s| - j.cursor
  {
    match ReplayStep(codec, s, j)
    case Stop(result) => result
    case More(next) => Replay(codec, s, next)
  }

  function FromReplay(j: Replayed, window: u32, version: u16): Inode {
    Inode(j.chunks, j.logicalSize, IsPacked(j.chunks, window), window, version, j.sequence,
          j.deltaCount, j.journalBytes, j.cursor)
  }

  /** The header of a base image, if it is sound. */
  datatype BaseImage = BaseImage(window: u32, version: u16, start: Replayed)

  function ReadBase(codec: Codec, s: seq<byte>): (r: Result<BaseImage>)
    ensures r.Ok? ==> HEADER_SIZE <= r.value.start.cursor <= |s| && SizeValid(r.value.window)
    ensures r.Ok? ==> r.value.version == VERSION_V1 || r.value.version == VERSION_V2
  {
    if |s| < HEADER_SIZE then Err(EIO)
    else if s[..8] != META_MAGIC || Get16(s, 10) != HEADER_SIZE || Get32(s, 16) != ENTRY_SIZE then Err(EIO)
    else
      var version := Get16(s, 8);
      if version != VERSION_V1 && version != VERSION_V2 then Err(EIO)
      else if codec.crc(s[..52] + Le32(0) + s[56..HEADER_SIZE]) != Get32(s, 52) then Err(EIO)
      else
        var window := if version == VERSION_V1 then DEFAULT_WINDOW else Get32(s, 20);
        var count: int := Get32(s, 24);
        var end := HEADER_SIZE + ENTRY_SIZE * count;
        if !SizeValid(window) then Err(EIO)
        else if end > |s| then Err(EIO)
        else if codec.crc(s[HEADER_SIZE..end]) != Get32(s, 48) then Err(EIO)
        else Ok(BaseImage(window, version, Replayed(EntriesAt(s, HEADER_SIZE, count), Get64(s, 32), Get64(s, 40), 0, 0, end)))
  }

  /** A versioned file before the final sort. */
  function LoadUnsorted(codec: Codec, s: seq<byte>): Result<Inode> {
    var base := ReadBase(codec, s);
    if base.Err? then Err(base.error)
    else
      var j := Replay(codec, s, base.value.start);
      if j.Err? then Err(j.error) else Ok(FromReplay(j.value, base.value.window, base.value.version))
  }

  function WithSortedChunks(inode: Inode): Inode {
    inode.(chunks := Sorted(inode.chunks), fullyPacked := IsPacked(Sorted(inode.chunks), inode.windowSize))
  }

  /** The in-memory layout of a chunk, which version 0 files store as is. */
  function LegacyEntryAt(s: seq<byte>, at: nat): Chunk
    requires at + ENTRY_SIZE <= |s|
  {
    Chunk(Get64(s, at), Get32(s, at + 8), Get32(s, at + 12), s[at + 16], s[at + 17], Get32(s, at + 20), Get64(s, at + 24))
  }

  function LoadLegacyUnsorted(s: seq<byte>): Result<Inode> {
    if |s| < 12 then Err(EIO)
    else
      var count: int := Get32(s, 0);
      if |s| < 12 + ENTRY_SIZE * count then Err(EIO)
      else
        var chunks := seq(count, i requires 0 <= i < count => LegacyEntryAt(s, 12 + ENTRY_SIZE * i));
        Ok(Inode(chunks, Get64(s, 4), IsPacked(chunks, DEFAULT_WINDOW), DEFAULT_WINDOW, VERSION_LEGACY, 0, 0, 0, |s|))
  }

  /** `load_chunk_map_from_fd`: the meaning of any metadata file. */
  function Load(codec: Codec, s: seq<byte>): Result<Inode> {
    if |s| < 8 then Err(EIO)
    else
      var inode := if s[..8] == META_MAGIC then LoadUnsorted(codec, s) else LoadLegacyUnsorted(s);
      if inode.Err? then inode else Ok(WithSortedChunks(inode.value))
  }
}
