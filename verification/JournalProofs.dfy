/**
 The metadata file reads back as it was written: base images, records, torn tails and recovery.
 */
module JournalProofs {
  import opened Basics
  import opened Windows
  import opened ChunkMap
  import opened Wire
  import opened SortChunks
  import opened Journal

  // ----- layout

  lemma HeaderLayout(version: u16, window: u32, count: u32, size: u64, sequence: u64, entriesCrc: u32, headerCrc: u32)
    ensures var h := HeaderBytes(version, window, count, size, sequence, entriesCrc, headerCrc);
            && StandsAt(h, 0, META_MAGIC) && StandsAt(h, 8, Le16(version)) && StandsAt(h, 10, Le16(HEADER_SIZE))
            && StandsAt(h, 16, Le32(ENTRY_SIZE)) && StandsAt(h, 20, Le32(window)) && StandsAt(h, 24, Le32(count))
            && StandsAt(h, 32, Le64(size)) && StandsAt(h, 40, Le64(sequence))
            && StandsAt(h, 48, Le32(entriesCrc)) && StandsAt(h, 52, Le32(headerCrc))
  {
    hide Le16, Le32, Le64, Zeros;
  }

  lemma HeaderWithoutCrc(version: u16, window: u32, count: u32, size: u64, sequence: u64, entriesCrc: u32, headerCrc: u32)
    ensures var h := HeaderBytes(version, window, count, size, sequence, entriesCrc, headerCrc);
            h[..52] + Le32(0) + h[56..] == HeaderBytes(version, window, count, size, sequence, entriesCrc, 0)
  {
    hide Le16, Le32, Le64, Zeros;
  }

  lemma DeltaLayout(codec: Codec, sequence: u64, d: Delta)
    requires d.Fits()
    ensures var r := DeltaBytes(codec, sequence, d);
            && StandsAt(r, 0, DELTA_MAGIC) && StandsAt(r, 8, Le32(d.Length())) && StandsAt(r, 16, Le64(sequence))
            && StandsAt(r, 24, Le32(d.first)) && StandsAt(r, 28, Le32(d.removed)) && StandsAt(r, 32, Le32(|d.added|))
            && StandsAt(r, 40, Le64(d.logicalSize)) && StandsAt(r, 48, EntriesBytes(d.added))
            && StandsAt(r, 0, DeltaBody(sequence, d))
            && StandsAt(r, d.Length() - 8, Le32(codec.crc(DeltaBody(sequence, d))))
            && StandsAt(r, d.Length() - 4, Le32(COMMIT_MARKER))
  {
    hide Le32, Le64, Zeros, EntriesBytes;
  }

  /** Entries written one after the other are read back in order. */
  lemma {:induction false} EntriesRoundTrip(s: seq<byte>, at: nat, chunks: seq<Chunk>)
    requires StandsAt(s, at, EntriesBytes(chunks))
    ensures EntriesAt(s, at, |chunks|) == chunks
  {
    forall i | 0 <= i < |chunks|
      ensures EntryAt(s, at + ENTRY_SIZE * i) == chunks[i]
    {
      EntryStands(s, at, chunks, i);
      EntryRoundTrip(s, at + ENTRY_SIZE * i, chunks[i]);
    }
  }

  lemma {:induction false} EntryStands(s: seq<byte>, at: nat, chunks: seq<Chunk>, i: nat)
    requires i < |chunks| && StandsAt(s, at, EntriesBytes(chunks))
    ensures StandsAt(s, at + ENTRY_SIZE * i, EntryBytes(chunks[i]))
    decreases i
  {
    hide EntryBytes;
    var whole, first, rest := EntriesBytes(chunks), EntryBytes(chunks[0]), EntriesBytes(chunks[1..]);
    assert whole == first + rest;
    if i == 0 {
      assert StandsAt(whole, 0, first);
      StandsInside(s, at, whole, 0, first);
    } else {
      assert StandsAt(whole, ENTRY_SIZE, rest);
      StandsInside(s, at, whole, ENTRY_SIZE, rest);
      EntryStands(s, at + ENTRY_SIZE, chunks[1..], i - 1);
    }
  }

  lemma StandsBound(s: seq<byte>, at: int, part: seq<byte>)
    requires StandsAt(s, at, part)
    ensures 0 <= at && at + |part| <= |s|
  {
  }

  lemma StandsSlice(s: seq<byte>, at: nat, part: seq<byte>)
    requires StandsAt(s, at, part)
    ensures s[at..at + |part|] == part
  {
  }

  /** The fixed fields of a record, read where the record stands. */
  lemma RecordFields(codec: Codec, s: seq<byte>, at: nat, sequence: u64, d: Delta)
    requires d.Fits() && StandsAt(s, at, DeltaBytes(codec, sequence, d))
    ensures s[at..at + 8] == DELTA_MAGIC && Get32(s, at + 8) == d.Length()
    ensures Get64(s, at + 16) == sequence && Get32(s, at + 24) == d.first && Get32(s, at + 28) == d.removed
    ensures Get32(s, at + 32) == |d.added| && Get64(s, at + 40) == d.logicalSize
  {
    hide StandsAt, DeltaBytes, DeltaBody, EntriesBytes, Le32, Le64, Get32, Get64;
    var r := DeltaBytes(codec, sequence, d);
    StandsBound(s, at, r);
    DeltaLayout(codec, sequence, d);
    StandsInside(s, at, r, 0, DELTA_MAGIC);
    StandsSlice(s, at, DELTA_MAGIC);
    StandsInside(s, at, r, 8, Le32(d.Length()));
    Get32Reads(s, at + 8, d.Length());
    StandsInside(s, at, r, 16, Le64(sequence));
    Get64Reads(s, at + 16, sequence);
    StandsInside(s, at, r, 24, Le32(d.first));
    Get32Reads(s, at + 24, d.first);
    StandsInside(s, at, r, 28, Le32(d.removed));
    Get32Reads(s, at + 28, d.removed);
    StandsInside(s, at, r, 32, Le32(|d.added|));
    Get32Reads(s, at + 32, |d.added|);
    StandsInside(s, at, r, 40, Le64(d.logicalSize));
    Get64Reads(s, at + 40, d.logicalSize);
  }

  /** The checksum and the commit marker of a record. */
  lemma RecordTail(codec: Codec, s: seq<byte>, at: nat, sequence: u64, d: Delta)
    requires d.Fits() && StandsAt(s, at, DeltaBytes(codec, sequence, d))
    ensures Get32(s, at + d.Length() - 4) == COMMIT_MARKER
    ensures codec.crc(s[at..at + d.Length() - 8]) == Get32(s, at + d.Length() - 8)
  {
    hide StandsAt, DeltaBytes, DeltaBody, Le32, Get32;
    var r := DeltaBytes(codec, sequence, d);
    StandsBound(s, at, r);
    var body := DeltaBody(sequence, d);
    DeltaLayout(codec, sequence, d);
    StandsInside(s, at, r, d.Length() - 4, Le32(COMMIT_MARKER));
    Get32Reads(s, at + d.Length() - 4, COMMIT_MARKER);
    StandsInside(s, at, r, 0, body);
    StandsSlice(s, at, body);
    StandsInside(s, at, r, d.Length() - 8, Le32(codec.crc(body)));
    Get32Reads(s, at + d.Length() - 8, codec.crc(body));
  }

  lemma RecordEntries(codec: Codec, s: seq<byte>, at: nat, sequence: u64, d: Delta)
    requires d.Fits() && StandsAt(s, at, DeltaBytes(codec, sequence, d))
    ensures EntriesAt(s, at + DELTA_HEADER_SIZE, |d.added|) == d.added
  {
    hide StandsAt, DeltaBytes, DeltaBody, EntriesBytes, EntriesAt;
    StandsBound(s, at, DeltaBytes(codec, sequence, d));
    DeltaLayout(codec, sequence, d);
    StandsInside(s, at, DeltaBytes(codec, sequence, d), 48, EntriesBytes(d.added));
    EntriesRoundTrip(s, at + 48, d.added);
  }

  /** A whole record is read back as written. */
  lemma RecordRoundTrip(codec: Codec, s: seq<byte>, at: nat, sequence: u64, d: Delta)
    requires d.Fits() && StandsAt(s, at, DeltaBytes(codec, sequence, d))
    ensures ReadRecord(codec, s, at) == Ok(Some(Record(sequence, d)))
  {
    hide StandsAt, DeltaBytes, EntriesAt, Get32, Get64;
    StandsBound(s, at, DeltaBytes(codec, sequence, d));
    RecordFields(codec, s, at, sequence, d);
    RecordTail(codec, s, at, sequence, d);
    RecordEntries(codec, s, at, sequence, d);
  }

  /** A record cut short anywhere is ignored. */
  lemma TornRecordIgnored(codec: Codec, s: seq<byte>, at: nat, sequence: u64, d: Delta)
    requires d.Fits() && at <= |s| && |s| - at < d.Length()
    requires StandsAt(s, at, DeltaBytes(codec, sequence, d)[..|s| - at])
    ensures ReadRecord(codec, s, at) == Ok(None)
  {
    hide StandsAt, DeltaBytes, Get32;
    if |s| - at >= DELTA_HEADER_SIZE {
      HeaderOfCutRecord(codec, s, at, sequence, d, |s| - at);
    }
  }

  /** A record that reached its length but not its commit marker is ignored too. */
  lemma UncommittedRecordIgnored(codec: Codec, s: seq<byte>, at: nat, sequence: u64, d: Delta)
    requires d.Fits() && at + d.Length() == |s|
    requires StandsAt(s, at, DeltaBytes(codec, sequence, d)[..d.Length() - 4])
    requires Get32(s, |s| - 4) != COMMIT_MARKER
    ensures ReadRecord(codec, s, at) == Ok(None)
  {
    hide StandsAt, DeltaBytes, Get32;
    HeaderOfCutRecord(codec, s, at, sequence, d, d.Length() - 4);
  }

  /** With the record header intact, magic and lengths are read correctly. */
  lemma HeaderOfCutRecord(codec: Codec, s: seq<byte>, at: nat, sequence: u64, d: Delta, n: int)
    requires d.Fits() && DELTA_HEADER_SIZE <= n <= d.Length()
    requires StandsAt(s, at, DeltaBytes(codec, sequence, d)[..n])
    ensures s[at..at + 8] == DELTA_MAGIC && Get32(s, at + 8) == d.Length() && Get32(s, at + 32) == |d.added|
  {
    hide StandsAt, DeltaBytes, DeltaBody, Get32, Le32, Le64, EntriesBytes;
    var r := DeltaBytes(codec, sequence, d);
    StandsBound(s, at, r[..n]);
    DeltaLayout(codec, sequence, d);
    CutField(s, at, r, n, 0, DELTA_MAGIC);
    StandsSlice(s, at, DELTA_MAGIC);
    CutField(s, at, r, n, 8, Le32(d.Length()));
    Get32Reads(s, at + 8, d.Length());
    CutField(s, at, r, n, 32, Le32(|d.added|));
    Get32Reads(s, at + 32, |d.added|);
  }

  lemma CutField(s: seq<byte>, at: nat, r: seq<byte>, n: int, k: nat, field: seq<byte>)
    requires 0 <= n <= |r| && StandsAt(s, at, r[..n])
    requires StandsAt(r, k, field) && k + |field| <= n
    ensures StandsAt(s, at + k, field)
  {
    assert StandsAt(r[..n], k, field);
    StandsInside(s, at, r[..n], k, field);
  }

  lemma NothingAtEnd(codec: Codec, s: seq<byte>, at: nat)
    requires at <= |s| < at + DELTA_HEADER_SIZE
    ensures ReadRecord(codec, s, at) == Ok(None)
  {
  }

  // ----- whole journals

  /** The bytes of records written one after the other. */
  function RecordsBytes(codec: Codec, sequence: u64, deltas: seq<Delta>): seq<byte>
    requires forall d :: d in deltas ==> d.Fits()
    decreases |deltas|
  {
    if deltas == [] then []
    else DeltaBytes(codec, Next(sequence), deltas[0]) + RecordsBytes(codec, Next(sequence), deltas[1..])
  }

  /** Every record fits the map it is applied to. */
  predicate AllApply(j: Replayed, deltas: seq<Delta>)
    decreases |deltas|
  {
    deltas == [] || (deltas[0].Fits() && Applies(j.chunks, deltas[0]) && AllApply(Apply(j, deltas[0]), deltas[1..]))
  }

  function ApplyAll(j: Replayed, deltas: seq<Delta>): Replayed
    requires AllApply(j, deltas)
    decreases |deltas|
  {
    if deltas == [] then j else ApplyAll(Apply(j, deltas[0]), deltas[1..])
  }

  /** How many records are whole within the first `n` bytes. */
  function WholeRecords(deltas: seq<Delta>, n: int): (k: nat)
    ensures k <= |deltas|
  {
    if deltas == [] || n < deltas[0].Length() then 0 else 1 + WholeRecords(deltas[1..], n - deltas[0].Length())
  }

  /**
   Torn tails: whatever number of bytes of the journal survives, the loader recovers exactly the
   state after the records that are whole.
   */
  lemma {:induction false} ReplayOfPrefix(codec: Codec, s: seq<byte>, j: Replayed, deltas: seq<Delta>)
    requires AllApply(j, deltas) && j.cursor <= |s|
    requires forall d :: d in deltas ==> d.Fits()
    requires |s| - j.cursor <= |RecordsBytes(codec, j.sequence, deltas)|
    requires StandsAt(s, j.cursor, RecordsBytes(codec, j.sequence, deltas)[..|s| - j.cursor])
    ensures var k := WholeRecords(deltas, |s| - j.cursor);
            AllApply(j, deltas[..k]) && Replay(codec, s, j) == Ok(ApplyAll(j, deltas[..k]))
    decreases |deltas|
  {
    hide ReadRecord, DeltaBytes, Applies;
    var n := |s| - j.cursor;
    var k := WholeRecords(deltas, n);
    if deltas == [] {
      NothingAtEnd(codec, s, j.cursor);
      assert deltas[..k] == [];
    } else {
      var d, rest := deltas[0], deltas[1..];
      var bytes, first := RecordsBytes(codec, j.sequence, deltas), DeltaBytes(codec, Next(j.sequence), d);
      assert bytes == first + RecordsBytes(codec, Next(j.sequence), rest);
      if n < d.Length() {
        assert bytes[..n] == first[..n];
        TornRecordIgnored(codec, s, j.cursor, Next(j.sequence), d);
        assert deltas[..k] == [];
      } else {
        PrefixSplits(s, j.cursor, first, RecordsBytes(codec, Next(j.sequence), rest));
        RecordRoundTrip(codec, s, j.cursor, Next(j.sequence), d);
        ReplayOfPrefix(codec, s, Apply(j, d), rest);
        assert deltas[..k][1..] == rest[..k - 1];
      }
    }
  }

  lemma PrefixSplits(s: seq<byte>, at: nat, first: seq<byte>, rest: seq<byte>)
    requires at + |first| <= |s| <= at + |first| + |rest|
    requires StandsAt(s, at, (first + rest)[..|s| - at])
    ensures StandsAt(s, at, first)
    ensures StandsAt(s, at + |first|, rest[..|s| - at - |first|])
  {
    var whole := (first + rest)[..|s| - at];
    assert StandsAt(whole, 0, first);
    StandsInside(s, at, whole, 0, first);
    assert StandsAt(whole, |first|, rest[..|s| - at - |first|]);
    StandsInside(s, at, whole, |first|, rest[..|s| - at - |first|]);
  }

  /** The same for a journal whose last commit marker was wiped. */
  lemma {:induction false} ReplayOfWiped(codec: Codec, s: seq<byte>, j: Replayed, deltas: seq<Delta>)
    requires AllApply(j, deltas) && deltas != [] && j.cursor <= |s|
    requires forall d :: d in deltas ==> d.Fits()
    requires |s| == j.cursor + |RecordsBytes(codec, j.sequence, deltas)| && |s| >= j.cursor + 4
    requires StandsAt(s, j.cursor, RecordsBytes(codec, j.sequence, deltas)[..|s| - j.cursor - 4])
    requires Get32(s, |s| - 4) != COMMIT_MARKER
    ensures AllApply(j, deltas[..|deltas| - 1])
    ensures Replay(codec, s, j) == Ok(ApplyAll(j, deltas[..|deltas| - 1]))
    decreases |deltas|
  {
    hide ReadRecord, DeltaBytes, Applies;
    var d, rest := deltas[0], deltas[1..];
    var first, more := DeltaBytes(codec, Next(j.sequence), d), RecordsBytes(codec, Next(j.sequence), rest);
    assert RecordsBytes(codec, j.sequence, deltas) == first + more;
    if |deltas| == 1 {
      assert more == [] && first + more == first;
      UncommittedRecordIgnored(codec, s, j.cursor, Next(j.sequence), d);
      assert deltas[..0] == [];
    } else {
      RecordsNotShort(codec, Next(j.sequence), rest);
      assert (first + more)[..|first| + |more| - 4] == first + more[..|more| - 4];
      assert StandsAt(first + more[..|more| - 4], 0, first);
      assert StandsAt(first + more[..|more| - 4], |first|, more[..|more| - 4]);
      StandsInside(s, j.cursor, first + more[..|more| - 4], 0, first);
      StandsInside(s, j.cursor, first + more[..|more| - 4], |first|, more[..|more| - 4]);
      RecordRoundTrip(codec, s, j.cursor, Next(j.sequence), d);
      ReplayOfWiped(codec, s, Apply(j, d), rest);
      assert deltas[..|deltas| - 1][1..] == rest[..|rest| - 1];
    }
  }

  lemma RecordsNotShort(codec: Codec, sequence: u64, deltas: seq<Delta>)
    requires deltas != [] && forall d :: d in deltas ==> d.Fits()
    ensures |RecordsBytes(codec, sequence, deltas)| >= 56
  {
    hide DeltaBytes;
    assert |RecordsBytes(codec, sequence, deltas)| ==
           |DeltaBytes(codec, Next(sequence), deltas[0])| + |RecordsBytes(codec, Next(sequence), deltas[1..])|;
  }

  // ----- the base image

  /** The fields of a header, read where the header stands. */
  lemma HeaderFields(s: seq<byte>, h: seq<byte>, version: u16, window: u32, count: u32, size: u64, sequence: u64,
                     entriesCrc: u32, headerCrc: u32)
    requires StandsAt(s, 0, h) && |h| == HEADER_SIZE
    requires StandsAt(h, 0, META_MAGIC) && StandsAt(h, 8, Le16(version)) && StandsAt(h, 10, Le16(HEADER_SIZE))
    requires StandsAt(h, 16, Le32(ENTRY_SIZE)) && StandsAt(h, 20, Le32(window)) && StandsAt(h, 24, Le32(count))
    requires StandsAt(h, 32, Le64(size)) && StandsAt(h, 40, Le64(sequence))
    requires StandsAt(h, 48, Le32(entriesCrc)) && StandsAt(h, 52, Le32(headerCrc))
    ensures s[..8] == META_MAGIC && Get16(s, 8) == version && Get16(s, 10) == HEADER_SIZE
    ensures Get32(s, 16) == ENTRY_SIZE && Get32(s, 20) == window && Get32(s, 24) == count
    ensures Get64(s, 32) == size && Get64(s, 40) == sequence
    ensures Get32(s, 48) == entriesCrc && Get32(s, 52) == headerCrc
  {
    hide StandsAt, Le16, Le32, Le64, Get16, Get32, Get64;
    StandsBound(s, 0, h);
    StandsInside(s, 0, h, 0, META_MAGIC);
    StandsSlice(s, 0, META_MAGIC);
    StandsInside(s, 0, h, 8, Le16(version));
    Get16Reads(s, 8, version);
    StandsInside(s, 0, h, 10, Le16(HEADER_SIZE));
    Get16Reads(s, 10, HEADER_SIZE);
    StandsInside(s, 0, h, 16, Le32(ENTRY_SIZE));
    Get32Reads(s, 16, ENTRY_SIZE);
    StandsInside(s, 0, h, 20, Le32(window));
    Get32Reads(s, 20, window);
    StandsInside(s, 0, h, 24, Le32(count));
    Get32Reads(s, 24, count);
    StandsInside(s, 0, h, 32, Le64(size));
    Get64Reads(s, 32, size);
    StandsInside(s, 0, h, 40, Le64(sequence));
    Get64Reads(s, 40, sequence);
    StandsInside(s, 0, h, 48, Le32(entriesCrc));
    Get32Reads(s, 48, entriesCrc);
    StandsInside(s, 0, h, 52, Le32(headerCrc));
    Get32Reads(s, 52, headerCrc);
  }

  lemma ConcatStands(a: seq<byte>, b: seq<byte>)
    ensures StandsAt(a + b, 0, a) && StandsAt(a + b, |a|, b)
  {
  }

  /** A sealed header passes the loader's checks and yields its fields. */
  lemma SealedHeaderReads(codec: Codec, s: seq<byte>, version: u16, window: u32, count: u32, size: u64, sequence: u64,
                          entriesCrc: u32)
    requires StandsAt(s, 0, SealedHeader(codec, version, window, count, size, sequence, entriesCrc))
    ensures |s| >= HEADER_SIZE
    ensures s[..8] == META_MAGIC && Get16(s, 8) == version && Get16(s, 10) == HEADER_SIZE
    ensures Get32(s, 16) == ENTRY_SIZE && Get32(s, 20) == window && Get32(s, 24) == count
    ensures Get64(s, 32) == size && Get64(s, 40) == sequence && Get32(s, 48) == entriesCrc
    ensures codec.crc(s[..52] + Le32(0) + s[56..HEADER_SIZE]) == Get32(s, 52)
  {
    hide HeaderBytes, Le16, Le32, Le64, Get16, Get32, Get64, StandsAt;
    var crc := codec.crc(HeaderBytes(version, window, count, size, sequence, entriesCrc, 0));
    var h := HeaderBytes(version, window, count, size, sequence, entriesCrc, crc);
    StandsBound(s, 0, h);
    HeaderLayout(version, window, count, size, sequence, entriesCrc, crc);
    HeaderWithoutCrc(version, window, count, size, sequence, entriesCrc, crc);
    StandsSlice(s, 0, h);
    assert s[..52] == h[..52] && s[56..HEADER_SIZE] == h[56..];
    HeaderFields(s, h, version, window, count, size, sequence, entriesCrc, crc);
  }

  /** A base image reads back, whatever follows it. */
  lemma BaseRoundTrip(codec: Codec, s: seq<byte>, version: u16, window: u32, chunks: seq<Chunk>, size: u64, sequence: u64)
    requires |chunks| <= U32_MAX && StandsAt(s, 0, BaseBytes(codec, version, window, chunks, size, sequence))
    requires version == VERSION_V1 || (version == VERSION_V2 && SizeValid(window))
    ensures ReadBase(codec, s) ==
            Ok(BaseImage(if version == VERSION_V1 then DEFAULT_WINDOW else window, version,
                    Replayed(chunks, size, sequence, 0, 0, HEADER_SIZE + ENTRY_SIZE * |chunks|)))
  {
    hide StandsAt, SealedHeader, EntriesBytes, EntriesAt, Get16, Get32, Get64, Le32;
    var wire := EntriesBytes(chunks);
    var h := SealedHeader(codec, version, window, |chunks|, size, sequence, codec.crc(wire));
    StandsBound(s, 0, h + wire);
    ConcatStands(h, wire);
    StandsInside(s, 0, h + wire, 0, h);
    StandsInside(s, 0, h + wire, HEADER_SIZE, wire);
    SealedHeaderReads(codec, s, version, window, |chunks|, size, sequence, codec.crc(wire));
    StandsSlice(s, HEADER_SIZE, wire);
    EntriesRoundTrip(s, HEADER_SIZE, chunks);
  }

  // ----- files

  /** A file as the engine leaves it: a saved base image and the records appended since. */
  function FileBytes(codec: Codec, version: u16, window: u32, chunks: seq<Chunk>, size: u64, sequence: u64,
                     deltas: seq<Delta>): seq<byte>
    requires |chunks| <= U32_MAX && forall d :: d in deltas ==> d.Fits()
  {
    BaseBytes(codec, version, window, chunks, size, sequence) + RecordsBytes(codec, sequence, deltas)
  }

  function StartOf(chunks: seq<Chunk>, size: u64, sequence: u64): Replayed {
    Replayed(chunks, size, sequence, 0, 0, HEADER_SIZE + ENTRY_SIZE * |chunks|)
  }

  function EffectiveWindow(version: u16, window: u32): u32 {
    if version == VERSION_V1 then DEFAULT_WINDOW else window
  }

  ghost predicate GoodFile(version: u16, window: u32, chunks: seq<Chunk>, size: u64, sequence: u64, deltas: seq<Delta>) {
    && |chunks| <= U32_MAX
    && (version == VERSION_V1 || (version == VERSION_V2 && SizeValid(window)))
    && AllApply(StartOf(chunks, size, sequence), deltas)
    && (forall d :: d in deltas ==> d.Fits())
  }

  /** Loading is reading the base, then replaying. */
  lemma LoadIsReplay(codec: Codec, s: seq<byte>, base: BaseImage, j: Replayed)
    requires ReadBase(codec, s) == Ok(base) && Replay(codec, s, base.start) == Ok(j)
    ensures LoadUnsorted(codec, s) == Ok(FromReplay(j, base.window, base.version))
  {
    hide ReadBase, Replay, IsPacked;
  }

  lemma LoadOfTornFile(codec: Codec, version: u16, window: u32, chunks: seq<Chunk>, size: u64, sequence: u64,
                       deltas: seq<Delta>, s: seq<byte>, n: nat)
    requires GoodFile(version, window, chunks, size, sequence, deltas)
    requires n <= |RecordsBytes(codec, sequence, deltas)| && |s| == HEADER_SIZE + ENTRY_SIZE * |chunks| + n
    requires StandsAt(s, 0, BaseBytes(codec, version, window, chunks, size, sequence))
    requires StandsAt(s, |s| - n, RecordsBytes(codec, sequence, deltas)[..n])
    ensures AllApply(StartOf(chunks, size, sequence), deltas[..WholeRecords(deltas, n)])
    ensures LoadUnsorted(codec, s) ==
            Ok(FromReplay(ApplyAll(StartOf(chunks, size, sequence), deltas[..WholeRecords(deltas, n)]),
                          EffectiveWindow(version, window), version))
  {
    hide BaseBytes, RecordsBytes, ReadBase, Replay, AllApply, ApplyAll, WholeRecords, StandsAt, FromReplay, LoadUnsorted;
    var start := StartOf(chunks, size, sequence);
    BaseRoundTrip(codec, s, version, window, chunks, size, sequence);
    ReplayOfPrefix(codec, s, start, deltas);
    LoadIsReplay(codec, s, BaseImage(EffectiveWindow(version, window), version, start),
                 ApplyAll(start, deltas[..WholeRecords(deltas, n)]));
  }

  /** A versioned file is recognised by its magic. */
  lemma LoadVersioned(codec: Codec, s: seq<byte>)
    requires LoadUnsorted(codec, s).Ok?
    ensures Load(codec, s) == Ok(WithSortedChunks(LoadUnsorted(codec, s).value))
  {
    hide Replay, WithSortedChunks;
  }

  /** A journal cut short or uncommitted at its end loads, sorted, as the state after its first `k` records. */
  ghost predicate LoadsAsFirst(codec: Codec, file: seq<byte>, version: u16, window: u32, start: Replayed, deltas: seq<Delta>, k: nat)
    requires k <= |deltas| && AllApply(start, deltas[..k])
  {
    var inode := FromReplay(ApplyAll(start, deltas[..k]), EffectiveWindow(version, window), version);
    LoadUnsorted(codec, file) == Ok(inode) && Load(codec, file) == Ok(WithSortedChunks(inode))
  }

  /**
   Torn-tail recovery.  Any prefix of the file that still contains the base image loads as the
   state after exactly the records that are whole in it.
   */
  lemma LoadOfPrefix(codec: Codec, version: u16, window: u32, chunks: seq<Chunk>, size: u64, sequence: u64,
                     deltas: seq<Delta>, n: nat)
    requires GoodFile(version, window, chunks, size, sequence, deltas)
    requires n <= |RecordsBytes(codec, sequence, deltas)|
    ensures AllApply(StartOf(chunks, size, sequence), deltas[..WholeRecords(deltas, n)])
    ensures var file := FileBytes(codec, version, window, chunks, size, sequence, deltas);
            LoadsAsFirst(codec, file[..HEADER_SIZE + ENTRY_SIZE * |chunks| + n], version, window,
                         StartOf(chunks, size, sequence), deltas, WholeRecords(deltas, n))
  {
    hide BaseBytes, RecordsBytes, AllApply, ApplyAll, WholeRecords, LoadUnsorted, Load, StandsAt, FromReplay, WithSortedChunks;
    var base, records := BaseBytes(codec, version, window, chunks, size, sequence), RecordsBytes(codec, sequence, deltas);
    var s := (base + records)[..|base| + n];
    assert s == base + records[..n];
    ConcatStands(base, records[..n]);
    LoadOfTornFile(codec, version, window, chunks, size, sequence, deltas, s, n);
    LoadVersioned(codec, s);
  }

  lemma Get32Same(s: seq<byte>, at: nat, part: seq<byte>)
    requires |part| == 4 && StandsAt(s, at, part)
    ensures Get32(s, at) == Get32(part, 0)
  {
    assert s[at + 0] == part[0] && s[at + 1] == part[1] && s[at + 2] == part[2] && s[at + 3] == part[3];
  }

  lemma LoadOfWipedFile(codec: Codec, version: u16, window: u32, chunks: seq<Chunk>, size: u64, sequence: u64,
                        deltas: seq<Delta>, s: seq<byte>)
    requires GoodFile(version, window, chunks, size, sequence, deltas) && deltas != []
    requires var n := |RecordsBytes(codec, sequence, deltas)|;
             && n >= 4 && |s| == HEADER_SIZE + ENTRY_SIZE * |chunks| + n
             && StandsAt(s, 0, BaseBytes(codec, version, window, chunks, size, sequence))
             && StandsAt(s, |s| - n, RecordsBytes(codec, sequence, deltas)[..n - 4])
    requires Get32(s, |s| - 4) != COMMIT_MARKER
    ensures AllApply(StartOf(chunks, size, sequence), deltas[..|deltas| - 1])
    ensures LoadUnsorted(codec, s) ==
            Ok(FromReplay(ApplyAll(StartOf(chunks, size, sequence), deltas[..|deltas| - 1]),
                          EffectiveWindow(version, window), version))
  {
    hide BaseBytes, RecordsBytes, ReadBase, Replay, AllApply, ApplyAll, StandsAt, FromReplay, LoadUnsorted, Get32;
    var start := StartOf(chunks, size, sequence);
    BaseRoundTrip(codec, s, version, window, chunks, size, sequence);
    ReplayOfWiped(codec, s, start, deltas);
    LoadIsReplay(codec, s, BaseImage(EffectiveWindow(version, window), version, start), ApplyAll(start, deltas[..|deltas| - 1]));
  }

  /** With the last commit marker overwritten, the file loads as if the last record had not been written. */
  lemma LoadOfWiped(codec: Codec, version: u16, window: u32, chunks: seq<Chunk>, size: u64, sequence: u64,
                    deltas: seq<Delta>, marker: seq<byte>)
    requires GoodFile(version, window, chunks, size, sequence, deltas) && deltas != []
    requires |marker| == 4 && Get32(marker, 0) != COMMIT_MARKER
    ensures |FileBytes(codec, version, window, chunks, size, sequence, deltas)| >= 4
    ensures AllApply(StartOf(chunks, size, sequence), deltas[..|deltas| - 1])
    ensures var file := FileBytes(codec, version, window, chunks, size, sequence, deltas);
            LoadsAsFirst(codec, file[..|file| - 4] + marker, version, window,
                         StartOf(chunks, size, sequence), deltas, |deltas| - 1)
  {
    hide Load, WithSortedChunks, BaseBytes, RecordsBytes, AllApply, ApplyAll, LoadUnsorted, FromReplay, StandsAt, Get32, Applies;
    var base, records := BaseBytes(codec, version, window, chunks, size, sequence), RecordsBytes(codec, sequence, deltas);
    RecordsNotShort(codec, sequence, deltas);
    var cut := records[..|records| - 4];
    var s := (base + records)[..|base + records| - 4] + marker;
    assert s == base + (cut + marker);
    ConcatStands(base, cut + marker);
    ConcatStands(cut, marker);
    StandsInside(s, |base|, cut + marker, 0, cut);
    StandsInside(s, |base|, cut + marker, |cut|, marker);
    Get32Same(s, |s| - 4, marker);
    LoadOfWipedFile(codec, version, window, chunks, size, sequence, deltas, s);
    LoadVersioned(codec, s);
  }

  // ----- appending after any load

  lemma ReadRecordLocal(codec: Codec, s: seq<byte>, s': seq<byte>, at: nat, end: nat)
    requires at <= |s| && end <= |s| && end <= |s'| && s[..end] == s'[..end]
    requires var r := ReadRecord(codec, s, at); r.Ok? && r.value.Some? && at + r.value.value.delta.Length() <= end
    ensures at <= |s'| && ReadRecord(codec, s', at) == ReadRecord(codec, s, at)
  {
    var d := ReadRecord(codec, s, at).value.value.delta;
    var len, n := d.Length(), |d.added|;
    forall k | at <= k < end
      ensures s[k] == s'[k]
    {
      assert s[..end][k] == s'[..end][k];
    }
    assert s[at..at + 8] == s'[at..at + 8];
    assert s[at..at + len - 8] == s'[at..at + len - 8];
    EntriesLocal(s, s', at + DELTA_HEADER_SIZE, n, end);
  }

  lemma EntriesLocal(s: seq<byte>, s': seq<byte>, at: nat, n: nat, end: nat)
    requires at + ENTRY_SIZE * n <= end <= |s| && end <= |s'|
    requires forall k :: at <= k < end ==> s[k] == s'[k]
    ensures EntriesAt(s', at, n) == EntriesAt(s, at, n)
  {
  }

  /** Replay depends only on the committed part of the file, and continues from its end. */
  lemma {:induction false} ReplayContinues(codec: Codec, s: seq<byte>, s': seq<byte>, j: Replayed)
    requires j.cursor <= |s| && Replay(codec, s, j).Ok?
    requires var end := Replay(codec, s, j).value; end.cursor <= |s'| && s[..end.cursor] == s'[..end.cursor]
    ensures j.cursor <= |s'| && Replay(codec, s', j) == Replay(codec, s', Replay(codec, s, j).value)
    decreases |s| - j.cursor
  {
    hide ReadRecord;
    match ReplayStep(codec, s, j)
    case Stop(_) =>
    case More(next) =>
      ReadRecordLocal(codec, s, s', j.cursor, Replay(codec, s, j).value.cursor);
      ReplayContinues(codec, s, s', next);
  }

  lemma ReadBaseLocal(codec: Codec, s: seq<byte>, s': seq<byte>, end: nat)
    requires ReadBase(codec, s).Ok? && ReadBase(codec, s).value.start.cursor <= end
    requires end <= |s| && end <= |s'| && s[..end] == s'[..end]
    ensures ReadBase(codec, s') == ReadBase(codec, s)
  {
    var b := ReadBase(codec, s).value.start;
    forall k | 0 <= k < end
      ensures s[k] == s'[k]
    {
      assert s[..end][k] == s'[..end][k];
    }
    assert s[..8] == s'[..8] && s[..52] == s'[..52] && s[56..HEADER_SIZE] == s'[56..HEADER_SIZE];
    assert s[HEADER_SIZE..b.cursor] == s'[HEADER_SIZE..b.cursor];
    EntriesLocal(s, s', HEADER_SIZE, |b.chunks|, end);
  }

  /** The inode after one more record. */
  function Appended(inode: Inode, d: Delta): Inode
    requires Applies(inode.chunks, d)
  {
    var chunks := Splice(inode.chunks, d.first, d.first + d.removed, d.added);
    Inode(chunks, d.logicalSize, IsPacked(chunks, inode.windowSize), inode.windowSize, inode.version,
          Next(inode.sequence), inode.deltaCount + 1, inode.journalBytes + d.Length(), inode.validEnd + d.Length())
  }

  /** The file after `append_chunk_map_delta_to_fd`: the uncommitted tail is cut, then the record written. */
  function AppendedBytes(codec: Codec, s: seq<byte>, inode: Inode, d: Delta): seq<byte>
    requires inode.validEnd <= |s| && d.Fits()
  {
    s[..inode.validEnd] + DeltaBytes(codec, Next(inode.sequence), d)
  }

  /**
   Whatever the file looked like - freshly written, torn, uncommitted - once it loads, appending a
   record yields a file that loads as the loaded state plus that record.
   */
  lemma AppendThenLoad(codec: Codec, s: seq<byte>, d: Delta)
    requires LoadUnsorted(codec, s).Ok? && d.Fits() && Applies(LoadUnsorted(codec, s).value.chunks, d)
    ensures var inode := LoadUnsorted(codec, s).value;
            && inode.validEnd <= |s|
            && LoadUnsorted(codec, AppendedBytes(codec, s, inode, d)) == Ok(Appended(inode, d))
  {
    hide ReadBase, Replay, DeltaBytes, Applies, IsPacked, StandsAt;
    var base := ReadBase(codec, s).value;
    var j := Replay(codec, s, base.start).value;
    AppendedFile(codec, s, base, j, d);
    LoadIsReplay(codec, s[..j.cursor] + DeltaBytes(codec, Next(j.sequence), d), base, Apply(j, d));
  }

  lemma AppendedFile(codec: Codec, s: seq<byte>, base: BaseImage, j: Replayed, d: Delta)
    requires ReadBase(codec, s) == Ok(base) && Replay(codec, s, base.start) == Ok(j)
    requires d.Fits() && Applies(j.chunks, d)
    ensures var s' := s[..j.cursor] + DeltaBytes(codec, Next(j.sequence), d);
            ReadBase(codec, s') == Ok(base) && Replay(codec, s', base.start) == Ok(Apply(j, d))
  {
    hide ReadBase, Replay, DeltaBytes, Applies, StandsAt;
    var tail := DeltaBytes(codec, Next(j.sequence), d);
    var s' := s[..j.cursor] + tail;
    assert s'[..j.cursor] == s[..j.cursor];
    ReadBaseLocal(codec, s, s', j.cursor);
    ReplayContinues(codec, s, s', base.start);
    ConcatStands(s[..j.cursor], tail);
    AppendedRecordReplays(codec, s', j, d);
  }

  lemma AppendedRecordReplays(codec: Codec, s: seq<byte>, j: Replayed, d: Delta)
    requires d.Fits() && Applies(j.chunks, d) && j.cursor + d.Length() == |s|
    requires StandsAt(s, j.cursor, DeltaBytes(codec, Next(j.sequence), d))
    ensures Replay(codec, s, j) == Ok(Apply(j, d))
  {
    RecordRoundTrip(codec, s, j.cursor, Next(j.sequence), d);
    NothingAtEnd(codec, s, |s|);
    hide ReadRecord, DeltaBytes, StandsAt, Applies;
    assert Replay(codec, s, Apply(j, d)) == Ok(Apply(j, d));
  }

  /** Cutting the uncommitted tail changes nothing. */
  lemma TrimmedLoadsSame(codec: Codec, s: seq<byte>)
    requires LoadUnsorted(codec, s).Ok?
    ensures var inode := LoadUnsorted(codec, s).value;
            HEADER_SIZE <= inode.validEnd <= |s| && LoadUnsorted(codec, s[..inode.validEnd]) == Ok(inode)
  {
    hide ReadBase, Replay, IsPacked;
    var base := ReadBase(codec, s).value;
    var j := Replay(codec, s, base.start).value;
    var s' := s[..j.cursor];
    assert s'[..j.cursor] == s[..j.cursor];
    ReadBaseLocal(codec, s, s', j.cursor);
    ReplayContinues(codec, s, s', base.start);
    ReplayAtEnd(codec, s', j);
    LoadIsReplay(codec, s', base, j);
  }

  lemma ReplayAtEnd(codec: Codec, s: seq<byte>, j: Replayed)
    requires j.cursor == |s|
    ensures Replay(codec, s, j) == Ok(j)
  {
    NothingAtEnd(codec, s, |s|);
    assert ReplayStep(codec, s, j) == Stop(Ok(j));
  }

  /**
   The append is atomic under crashes: whatever part of the record reached the disk, the file loads
   as the state before it, and as the state after it exactly when the whole record is there.
   */
  lemma AppendIsAtomic(codec: Codec, s: seq<byte>, d: Delta, n: nat)
    requires LoadUnsorted(codec, s).Ok? && d.Fits() && Applies(LoadUnsorted(codec, s).value.chunks, d)
    requires n <= d.Length()
    ensures var inode := LoadUnsorted(codec, s).value;
            && inode.validEnd <= |s|
            && LoadUnsorted(codec, s[..inode.validEnd] + DeltaBytes(codec, Next(inode.sequence), d)[..n]) ==
               Ok(if n == d.Length() then Appended(inode, d) else inode)
  {
    hide ReadBase, Replay, DeltaBytes, Applies, IsPacked, StandsAt;
    var base := ReadBase(codec, s).value;
    var j := Replay(codec, s, base.start).value;
    var record := DeltaBytes(codec, Next(j.sequence), d);
    if n == d.Length() {
      assert record[..n] == record;
      AppendThenLoad(codec, s, d);
    } else {
      var s' := s[..j.cursor] + record[..n];
      assert s'[..j.cursor] == s[..j.cursor];
      ReadBaseLocal(codec, s, s', j.cursor);
      ReplayContinues(codec, s, s', base.start);
      ConcatStands(s[..j.cursor], record[..n]);
      TornAppendReplays(codec, s', j, d, n);
      LoadIsReplay(codec, s', base, j);
    }
  }

  lemma TornAppendReplays(codec: Codec, s: seq<byte>, j: Replayed, d: Delta, n: nat)
    requires d.Fits() && n < d.Length() && |s| == j.cursor + n
    requires StandsAt(s, j.cursor, DeltaBytes(codec, Next(j.sequence), d)[..n])
    ensures Replay(codec, s, j) == Ok(j)
  {
    hide ReadRecord, DeltaBytes, StandsAt;
    TornRecordIgnored(codec, s, j.cursor, Next(j.sequence), d);
  }

  // ----- saving

  /** What `save_chunk_map_to_path` records in the inode it saved. */
  function Saved(inode: Inode, window: u32): Inode {
    inode.(windowSize := window, version := VERSION_V2, deltaCount := 0, journalBytes := 0,
           validEnd := HEADER_SIZE + ENTRY_SIZE * |inode.chunks|, fullyPacked := IsPacked(inode.chunks, window))
  }

  function SavedBytes(codec: Codec, inode: Inode, window: u32): seq<byte>
    requires |inode.chunks| <= U32_MAX
  {
    BaseBytes(codec, VERSION_V2, window, inode.chunks, inode.logicalSize, inode.sequence)
  }

  lemma WholeFileStands(s: seq<byte>)
    ensures StandsAt(s, 0, s)
  {
  }

  /** What was saved is what loads. */
  lemma SaveThenLoad(codec: Codec, inode: Inode, window: u32)
    requires |inode.chunks| <= U32_MAX && SizeValid(window)
    ensures LoadUnsorted(codec, SavedBytes(codec, inode, window)) == Ok(Saved(inode, window))
  {
    hide BaseBytes, ReadBase, Replay, IsPacked, StandsAt;
    var s := SavedBytes(codec, inode, window);
    var start := StartOf(inode.chunks, inode.logicalSize, inode.sequence);
    WholeFileStands(s);
    BaseRoundTrip(codec, s, VERSION_V2, window, inode.chunks, inode.logicalSize, inode.sequence);
    ReplayAtEnd(codec, s, start);
    LoadIsReplay(codec, s, BaseImage(window, VERSION_V2, start), start);
  }

  /** A version 1 image of the same map reads back with the 64 KiB window. */
  lemma V1Loads(codec: Codec, window: u32, chunks: seq<Chunk>, size: u64, sequence: u64)
    requires |chunks| <= U32_MAX
    ensures LoadUnsorted(codec, BaseBytes(codec, VERSION_V1, window, chunks, size, sequence)) ==
            Ok(FromReplay(StartOf(chunks, size, sequence), DEFAULT_WINDOW, VERSION_V1))
  {
    hide BaseBytes, ReadBase, Replay, FromReplay, StandsAt;
    var s := BaseBytes(codec, VERSION_V1, window, chunks, size, sequence);
    var start := StartOf(chunks, size, sequence);
    WholeFileStands(s);
    BaseRoundTrip(codec, s, VERSION_V1, window, chunks, size, sequence);
    ReplayAtEnd(codec, s, start);
    LoadIsReplay(codec, s, BaseImage(DEFAULT_WINDOW, VERSION_V1, start), start);
  }

  /** For a sorted map the final sort changes nothing. */
  lemma SortedLoad(codec: Codec, s: seq<byte>)
    requires LoadUnsorted(codec, s).Ok? && SortedByOffset(LoadUnsorted(codec, s).value.chunks)
    ensures Load(codec, s) == LoadUnsorted(codec, s)
  {
    hide ReadBase, Replay, SortedByOffset, Sorted, IsPacked;
    LoadVersioned(codec, s);
    SortIsIdentity(LoadUnsorted(codec, s).value.chunks);
  }
}
