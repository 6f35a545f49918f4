/**
 The metadata file as it is written and read (src/core/metadata.c:133-548): buffers filled field by
 field, the replay loop, the save by rename and the append in place.
 */
module MetadataFile {
  import opened Basics
  import opened Windows
  import opened ChunkMap
  import opened Wire
  import opened SortChunks
  import opened Journal
  import opened JournalProofs

  class MetaFile {
    var bytes: seq<byte>

    constructor (contents: seq<byte>)
      ensures bytes == contents
    {
      bytes := contents;
    }
  }

  // ----- filling a buffer from left to right

  /** `done` has been written into a zeroed buffer, and nothing after it. */
  ghost predicate Progress(buf: seq<byte>, done: seq<byte>) {
    && |done| <= |buf| && (forall k :: 0 <= k < |done| ==> buf[k] == done[k])
    && (forall k :: |done| <= k < |buf| ==> buf[k] == 0)
  }

  lemma ProgressWrote(before: seq<byte>, after: seq<byte>, done: seq<byte>, part: seq<byte>)
    requires Progress(before, done) && Wrote(before, |done|, part, after)
    ensures Progress(after, done + part)
  {
    forall k | 0 <= k < |done + part|
      ensures after[k] == (done + part)[k]
    {
      if k >= |done| { assert after[|done| + (k - |done|)] == part[k - |done|]; }
    }
  }

  lemma ProgressZeros(buf: seq<byte>, done: seq<byte>, n: nat)
    requires Progress(buf, done) && |done| + n <= |buf|
    ensures Progress(buf, done + Zeros(n))
  {
  }

  lemma ProgressDone(buf: seq<byte>, done: seq<byte>)
    requires Progress(buf, done) && |done| == |buf|
    ensures buf == done
  {
  }

  method AddBytes(buf: array<byte>, ghost done: seq<byte>, at: nat, part: seq<byte>) returns (ghost now: seq<byte>)
    requires Progress(buf[..], done) && at == |done| && at + |part| <= buf.Length
    modifies buf
    ensures now == done + part && Progress(buf[..], now)
  {
    ghost var before := buf[..];
    PutBytes(buf, at, part);
    ProgressWrote(before, buf[..], done, part);
    now := done + part;
  }

  method Add16(buf: array<byte>, ghost done: seq<byte>, at: nat, v: u16) returns (ghost now: seq<byte>)
    requires Progress(buf[..], done) && at == |done| && at + 2 <= buf.Length
    modifies buf
    ensures now == done + Le16(v) && Progress(buf[..], now)
  {
    ghost var before := buf[..];
    Put16(buf, at, v);
    ProgressWrote(before, buf[..], done, Le16(v));
    now := done + Le16(v);
  }

  method Add32(buf: array<byte>, ghost done: seq<byte>, at: nat, v: u32) returns (ghost now: seq<byte>)
    requires Progress(buf[..], done) && at == |done| && at + 4 <= buf.Length
    modifies buf
    ensures now == done + Le32(v) && Progress(buf[..], now)
  {
    ghost var before := buf[..];
    Put32(buf, at, v);
    ProgressWrote(before, buf[..], done, Le32(v));
    now := done + Le32(v);
  }

  method Add64(buf: array<byte>, ghost done: seq<byte>, at: nat, v: u64) returns (ghost now: seq<byte>)
    requires Progress(buf[..], done) && at == |done| && at + 8 <= buf.Length
    modifies buf
    ensures now == done + Le64(v) && Progress(buf[..], now)
  {
    ghost var before := buf[..];
    Put64(buf, at, v);
    ProgressWrote(before, buf[..], done, Le64(v));
    now := done + Le64(v);
  }

  method AddEntry(buf: array<byte>, ghost done: seq<byte>, at: nat, c: Chunk) returns (ghost now: seq<byte>)
    requires Progress(buf[..], done) && at == |done| && at + ENTRY_SIZE <= buf.Length
    modifies buf
    ensures now == done + EntryBytes(c) && Progress(buf[..], now)
  {
    ghost var before := buf[..];
    PutEntry(buf, at, c);
    ProgressWrote(before, buf[..], done, EntryBytes(c));
    now := done + EntryBytes(c);
  }

  lemma {:induction false} EntriesSnoc(chunks: seq<Chunk>, i: nat)
    requires i < |chunks|
    ensures EntriesBytes(chunks[..i + 1]) == EntriesBytes(chunks[..i]) + EntryBytes(chunks[i])
  {
    hide EntryBytes;
    if i == 0 {
      assert chunks[..1][1..] == [] && chunks[..0] == [];
    } else {
      EntriesSnoc(chunks[1..], i - 1);
      assert chunks[..i + 1][1..] == chunks[1..][..i] && chunks[..i][1..] == chunks[1..][..i - 1];
    }
  }

  lemma EntriesSoFar(done: seq<byte>, chunks: seq<Chunk>, i: nat)
    requires i <= |chunks|
    ensures ENTRY_SIZE == 32
    ensures i == 0 ==> done + EntriesBytes(chunks[..i]) == done
    ensures i < |chunks| ==> done + EntriesBytes(chunks[..i + 1]) == done + EntriesBytes(chunks[..i]) + EntryBytes(chunks[i])
  {
    if i < |chunks| { EntriesSnoc(chunks, i); }
  }

  /** The loop that encodes a run of entries. */
  method AddEntries(buf: array<byte>, ghost done: seq<byte>, at: nat, chunks: seq<Chunk>) returns (ghost now: seq<byte>)
    requires Progress(buf[..], done) && at == |done| && at + ENTRY_SIZE * |chunks| <= buf.Length
    modifies buf
    ensures now == done + EntriesBytes(chunks) && Progress(buf[..], now)
  {
    hide *;
    now := done;
    EntriesSoFar(done, chunks, 0);
    for i := 0 to |chunks|
      invariant now == done + EntriesBytes(chunks[..i]) && |now| == at + 32 * i
      invariant Progress(buf[..], now)
    {
      EntriesSoFar(done, chunks, i);
      now := AddEntry(buf, now, at + ENTRY_SIZE * i, chunks[i]);
    }
    assert chunks[..|chunks|] == chunks;
  }

  // ----- the images written

  lemma HeaderPatched(buf: seq<byte>, after: seq<byte>, version: u16, window: u32, count: u32, size: u64, sequence: u64,
                      entriesCrc: u32, headerCrc: u32)
    requires buf == HeaderBytes(version, window, count, size, sequence, entriesCrc, 0)
    requires Wrote(buf, 52, Le32(headerCrc), after)
    ensures after == HeaderBytes(version, window, count, size, sequence, entriesCrc, headerCrc)
  {
    hide Le16, Le32, Le64, Zeros;
    var a := HeaderBytes(version, window, count, size, sequence, entriesCrc, 0);
    var b := HeaderBytes(version, window, count, size, sequence, entriesCrc, headerCrc);
    assert a[..52] == b[..52] && a[56..] == b[56..] && b[52..56] == Le32(headerCrc);
    forall k | 0 <= k < 64
      ensures after[k] == b[k]
    {
      if k < 52 { assert after[k] == a[..52][k] == b[..52][k]; }
      else if k < 56 { assert after[52 + (k - 52)] == Le32(headerCrc)[k - 52] == b[52..56][k - 52]; }
      else { assert after[k] == a[56..][k - 56] == b[56..][k - 56]; }
    }
  }

  /** The first half of a header: magic, version, sizes, window and count. */
  ghost function HeaderFront(version: u16, window: u32, count: u32): (r: seq<byte>)
    ensures |r| == 32
  {
    META_MAGIC + Le16(version) + Le16(HEADER_SIZE) + Zeros(4) + Le32(ENTRY_SIZE) + Le32(window) + Le32(count) + Zeros(4)
  }

  lemma HeaderHalves(version: u16, window: u32, count: u32, size: u64, sequence: u64, entriesCrc: u32, headerCrc: u32)
    ensures HeaderFront(version, window, count) + Le64(size) + Le64(sequence) + Le32(entriesCrc) + Le32(headerCrc) + Zeros(8)
            == HeaderBytes(version, window, count, size, sequence, entriesCrc, headerCrc)
  {
    hide Le16, Le32, Le64, Zeros;
  }

  method EncodeFront(header: array<byte>, window: u32, count: u32) returns (ghost done: seq<byte>)
    requires header.Length == HEADER_SIZE && Progress(header[..], [])
    modifies header
    ensures done == HeaderFront(VERSION_V2, window, count) && Progress(header[..], done)
  {
    hide Le16, Le32, Le64, Zeros, Progress, Wrote;
    done := AddBytes(header, [], 0, META_MAGIC);
    done := Add16(header, done, 8, VERSION_V2);
    done := Add16(header, done, 10, HEADER_SIZE);
    ProgressZeros(header[..], done, 4);
    done := Add32(header, done + Zeros(4), 16, ENTRY_SIZE);
    done := Add32(header, done, 20, window);
    done := Add32(header, done, 24, count);
    ProgressZeros(header[..], done, 4);
    done := done + Zeros(4);
  }

  /** The header of a base image, with its checksum field filled last. */
  method EncodeHeader(codec: Codec, window: u32, count: u32, size: u64, sequence: u64, entriesCrc: u32)
    returns (header: array<byte>)
    ensures fresh(header) && header[..] == SealedHeader(codec, VERSION_V2, window, count, size, sequence, entriesCrc)
  {
    hide Le16, Le32, Le64, Zeros, Progress, Wrote, HeaderFront, HeaderBytes;
    header := ZeroBuffer(HEADER_SIZE);
    ghost var done := EncodeFront(header, window, count);
    done := Add64(header, done, 32, size);
    done := Add64(header, done, 40, sequence);
    done := Add32(header, done, 48, entriesCrc);
    done := Add32(header, done, 52, 0);
    ProgressZeros(header[..], done, 8);
    ProgressDone(header[..], done + Zeros(8));
    HeaderHalves(VERSION_V2, window, count, size, sequence, entriesCrc, 0);
    var crc := codec.crc(header[..]);
    ghost var before := header[..];
    Put32(header, 52, crc);
    HeaderPatched(before, header[..], VERSION_V2, window, count, size, sequence, entriesCrc, crc);
  }

  method ZeroBuffer(n: nat) returns (buf: array<byte>)
    ensures fresh(buf) && buf.Length == n && Progress(buf[..], [])
  {
    buf := new byte[n](_ => 0);
  }

  method EncodeEntries(chunks: seq<Chunk>) returns (wire: array<byte>)
    ensures fresh(wire) && wire[..] == EntriesBytes(chunks)
  {
    hide Progress;
    wire := ZeroBuffer(ENTRY_SIZE * |chunks|);
    ghost var done := AddEntries(wire, [], 0, chunks);
    assert [] + EntriesBytes(chunks) == EntriesBytes(chunks);
    ProgressDone(wire[..], done);
  }

  /** The fixed part of a record. */
  ghost function RecordFront(length: u32, sequence: u64, first: u32, removed: u32, added: u32, size: u64): (r: seq<byte>)
    ensures |r| == DELTA_HEADER_SIZE
  {
    DELTA_MAGIC + Le32(length) + Zeros(4) + Le64(sequence) + Le32(first) + Le32(removed) + Le32(added) + Zeros(4) + Le64(size)
  }

  lemma RecordHalves(sequence: u64, d: Delta)
    requires d.Fits()
    ensures RecordFront(d.Length(), sequence, d.first, d.removed, |d.added|, d.logicalSize) + EntriesBytes(d.added)
            == DeltaBody(sequence, d)
  {
    hide Le32, Le64, Zeros, EntriesBytes;
  }

  method EncodeRecordFront(record: array<byte>, sequence: u64, d: Delta) returns (ghost done: seq<byte>)
    requires d.Fits() && record.Length == d.Length() && Progress(record[..], [])
    modifies record
    ensures done == RecordFront(d.Length(), sequence, d.first, d.removed, |d.added|, d.logicalSize)
    ensures Progress(record[..], done)
  {
    hide Le32, Le64, Zeros, Progress;
    done := AddBytes(record, [], 0, DELTA_MAGIC);
    done := Add32(record, done, 8, d.Length());
    ProgressZeros(record[..], done, 4);
    done := Add64(record, done + Zeros(4), 16, sequence);
    done := Add32(record, done, 24, d.first);
    done := Add32(record, done, 28, d.removed);
    done := Add32(record, done, 32, |d.added|);
    ProgressZeros(record[..], done, 4);
    done := Add64(record, done + Zeros(4), 40, d.logicalSize);
  }

  /** A journal record, checksummed over everything before its trailer. */
  method EncodeRecord(codec: Codec, sequence: u64, d: Delta) returns (record: array<byte>)
    requires d.Fits()
    ensures fresh(record) && record[..] == DeltaBytes(codec, sequence, d)
  {
    hide Le32, Le64, Zeros, Progress, EntriesBytes, RecordFront, DeltaBody;
    record := ZeroBuffer(d.Length());
    ghost var done := EncodeRecordFront(record, sequence, d);
    done := AddEntries(record, done, 48, d.added);
    RecordHalves(sequence, d);
    assert done == DeltaBody(sequence, d);
    ProgressPrefix(record[..], done);
    assert record[..d.Length() - DELTA_TRAILER_SIZE] == record[..][..|done|];
    var crc := codec.crc(record[..d.Length() - DELTA_TRAILER_SIZE]);
    done := Add32(record, done, d.Length() - DELTA_TRAILER_SIZE, crc);
    done := Add32(record, done, d.Length() - 4, COMMIT_MARKER);
    ProgressDone(record[..], done);
  }

  lemma ProgressPrefix(buf: seq<byte>, done: seq<byte>)
    requires Progress(buf, done)
    ensures buf[..|done|] == done
  {
  }

  // ----- loading

  /** The replay loop of `load_versioned_map`. */
  method ReplayRecords(codec: Codec, s: seq<byte>, start: Replayed, healthy: bool) returns (r: Result<Replayed>)
    requires start.cursor <= |s|
    ensures r.Ok? || healthy ==> r == Replay(codec, s, start)
  {
    var j := start;
    while |s| - j.cursor >= DELTA_HEADER_SIZE
      invariant j.cursor <= |s| && Replay(codec, s, start) == Replay(codec, s, j)
      decreases |s| - j.cursor
    {
      hide ReadRecord;
      if !healthy {
        if * { return Err(ENOMEM); }
      }
      match ReplayStep(codec, s, j)
      case Stop(result) => return result;
      case More(next) => j := next;
    }
    NothingAtEnd(codec, s, j.cursor);
    r := Ok(j);
  }

  /** The load-time sort, run in place on the array of chunks. */
  method SortLoaded(chunks: seq<Chunk>) returns (r: seq<Chunk>)
    ensures r == Sorted(chunks)
  {
    var a := new Chunk[|chunks|](i requires 0 <= i < |chunks| => chunks[i]);
    assert a[..] == chunks;
    SortInPlace(a);
    r := a[..];
  }

  /** `load_chunk_map_from_fd`. */
  method LoadMap(codec: Codec, file: MetaFile, healthy: bool) returns (r: Result<Inode>)
    ensures r.Ok? || healthy ==> r == Load(codec, file.bytes)
  {
    hide ReadBase, Replay, IsPacked, LoadLegacyUnsorted, Sorted;
    var s := file.bytes;
    if !healthy {
      if * { return Err(EIO); }
    }
    if |s| < 8 { return Err(EIO); }
    var inode: Inode;
    if s[..8] == META_MAGIC {
      var base := ReadBase(codec, s);
      if base.Err? { return Err(base.error); }
      var j := ReplayRecords(codec, s, base.value.start, healthy);
      if j.Err? { return Err(j.error); }
      inode := FromReplay(j.value, base.value.window, base.value.version);
    } else {
      var legacy := LoadLegacyUnsorted(s);
      if legacy.Err? { return legacy; }
      inode := legacy.value;
    }
    var chunks := SortLoaded(inode.chunks);
    r := Ok(inode.(chunks := chunks, fullyPacked := IsPacked(chunks, inode.windowSize)));
  }

  // ----- saving

  /** The window a save records: zero means the default. */
  function SaveWindow(inode: Inode): u32 {
    if inode.windowSize == 0 then DEFAULT_WINDOW else inode.windowSize
  }

  /** What goes wrong in a save, if anything: before the rename, or after it. */
  datatype SaveFault = NoFault | BeforeRename | AfterRename

  /**
   `save_chunk_map_to_path`: a temporary file, then a rename over the metadata path.  `renamed` is
   the new file when the rename happened; an error after that point leaves the new file in place.
   */
  method SaveMap(codec: Codec, inode: Inode, fault: SaveFault) returns (r: Result<Inode>, renamed: MetaFile?)
    requires |inode.chunks| <= U32_MAX
    ensures renamed != null <==> SizeValid(SaveWindow(inode)) && fault != BeforeRename
    ensures renamed != null ==> fresh(renamed) && renamed.bytes == SavedBytes(codec, inode, SaveWindow(inode))
    ensures r.Ok? <==> SizeValid(SaveWindow(inode)) && fault == NoFault
    ensures r.Ok? ==> r.value == Saved(inode, SaveWindow(inode))
    ensures !SizeValid(SaveWindow(inode)) ==> r == Err(EINVAL)
  {
    hide IsPacked;
    renamed := null;
    var window := SaveWindow(inode);
    if !SizeValid(window) { return Err(EINVAL), null; }
    var wire := EncodeEntries(inode.chunks);
    var header := EncodeHeader(codec, window, |inode.chunks|, inode.logicalSize, inode.sequence, codec.crc(wire[..]));
    if fault == BeforeRename { return Err(EIO), null; }
    renamed := new MetaFile(header[..] + wire[..]);
    if fault == AfterRename { return Err(EIO), renamed; }
    r := Ok(Saved(inode, window));
  }

  // ----- appending

  predicate Versioned(inode: Inode) { inode.version == VERSION_V1 || inode.version == VERSION_V2 }

  /** The inode after a record of `length` bytes was committed. */
  function Committed(inode: Inode, length: nat): Inode {
    inode.(sequence := Next(inode.sequence), deltaCount := inode.deltaCount + 1,
           journalBytes := inode.journalBytes + length, validEnd := inode.validEnd + length)
  }

  /**
   `append_chunk_map_delta_to_fd`.  `inode` already holds the new map: chunks
   `first .. first + added` are the replacement for `removed` chunks of the old one.  A failed
   append leaves the file as it was, or cut back to its last committed record.
   */
  method AppendDelta(codec: Codec, file: MetaFile, inode: Inode, first: u32, removed: u32, added: u32, healthy: bool)
    returns (r: Result<Inode>)
    modifies file
    ensures r.Ok? ==>
              && Versioned(inode) && first + added <= |inode.chunks| && inode.validEnd <= |old(file.bytes)|
              && var d := Delta(first, removed, inode.chunks[first..first + added], inode.logicalSize);
                 && d.Fits() && file.bytes == AppendedBytes(codec, old(file.bytes), inode, d)
                 && r.value == Committed(inode, d.Length())
    ensures r.Err? ==> file.bytes == old(file.bytes) ||
                       (HEADER_SIZE <= inode.validEnd <= |old(file.bytes)| && file.bytes == old(file.bytes)[..inode.validEnd])
    ensures healthy ==>
              (r.Ok? <==>
                && Versioned(inode) && first + added <= |inode.chunks|
                && DELTA_HEADER_SIZE + ENTRY_SIZE * added + DELTA_TRAILER_SIZE <= U32_MAX
                && HEADER_SIZE <= inode.validEnd <= |old(file.bytes)|
                && inode.validEnd + DELTA_HEADER_SIZE + ENTRY_SIZE * added + DELTA_TRAILER_SIZE <= OFF_MAX)
    ensures (healthy && r.Err? && Versioned(inode) && first + added <= |inode.chunks|
             && HEADER_SIZE <= inode.validEnd <= |old(file.bytes)|) ==> r.error == EFBIG
  {
    hide DeltaBytes;
    if !Versioned(inode) || first > |inode.chunks| || added > |inode.chunks| - first { return Err(EINVAL); }
    var d := Delta(first, removed, inode.chunks[first..first + added], inode.logicalSize);
    if d.Length() > U32_MAX { return Err(EFBIG); }
    if !healthy {
      if * { return Err(ENOMEM); }
    }
    var record := EncodeRecord(codec, Next(inode.sequence), d);
    if inode.validEnd < HEADER_SIZE || inode.validEnd > |file.bytes| { return Err(EIO); }
    file.bytes := file.bytes[..inode.validEnd];
    if !healthy {
      if * { return Err(EIO); }
    }
    if inode.validEnd + d.Length() > OFF_MAX { return Err(EFBIG); }
    file.bytes := file.bytes + record[..];
    if !healthy {
      if * {
        file.bytes := file.bytes[..inode.validEnd];
        return Err(EIO);
      }
    }
    r := Ok(Committed(inode, d.Length()));
  }
}
