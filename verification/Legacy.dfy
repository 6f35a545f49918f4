/**
 Version 0 metadata files (src/core/metadata.c:133-177, 362-376): a count, a size and the raw
 in-memory structs.  They have no magic of their own, so they are recognised by the absence of the
 magic of the later versions.
 */
module Legacy {
  import opened Basics
  import opened Windows
  import opened ChunkMap
  import opened Wire
  import opened SortChunks
  import opened Journal
  import opened JournalProofs

  /** The fields of one struct; its two padding bytes are arbitrary. */
  ghost predicate LegacyEntry(s: seq<byte>, at: nat, c: Chunk) {
    && at + ENTRY_SIZE <= |s|
    && StandsAt(s, at, Le64(c.logicalOffset)) && StandsAt(s, at + 8, Le32(c.rawSize))
    && StandsAt(s, at + 12, Le32(c.storedSize)) && s[at + 16] == c.codecType && s[at + 17] == c.flags
    && StandsAt(s, at + 20, Le32(c.checksum)) && StandsAt(s, at + 24, Le64(c.physicalOffset))
  }

  /** `s` holds the map `chunks` of a file of `size` bytes in the version 0 format. */
  ghost predicate LegacyImage(s: seq<byte>, chunks: seq<Chunk>, size: u64) {
    && |chunks| <= U32_MAX && 12 + ENTRY_SIZE * |chunks| <= |s|
    && StandsAt(s, 0, Le32(|chunks|)) && StandsAt(s, 4, Le64(size))
    && forall i :: 0 <= i < |chunks| ==> LegacyEntry(s, 12 + ENTRY_SIZE * i, chunks[i])
  }

  /** What a version 0 file loads as: the 64 KiB window, no journal, valid to its end. */
  function LegacyInode(chunks: seq<Chunk>, size: u64, end: nat): Inode {
    Inode(chunks, size, IsPacked(chunks, DEFAULT_WINDOW), DEFAULT_WINDOW, VERSION_LEGACY, 0, 0, 0, end)
  }

  lemma LegacyEntryReads(s: seq<byte>, at: nat, c: Chunk)
    requires LegacyEntry(s, at, c)
    ensures LegacyEntryAt(s, at) == c
  {
    hide StandsAt, Le32, Le64, Get32, Get64;
    Get64Reads(s, at, c.logicalOffset);
    Get32Reads(s, at + 8, c.rawSize);
    Get32Reads(s, at + 12, c.storedSize);
    Get32Reads(s, at + 20, c.checksum);
    Get64Reads(s, at + 24, c.physicalOffset);
  }

  lemma LegacyMapReads(s: seq<byte>, chunks: seq<Chunk>, size: u64)
    requires LegacyImage(s, chunks, size)
    ensures LoadLegacyUnsorted(s) == Ok(LegacyInode(chunks, size, |s|))
  {
    hide StandsAt, Le32, Le64, Get32, Get64, LegacyEntry, LegacyEntryAt, IsPacked;
    Get32Reads(s, 0, |chunks|);
    Get64Reads(s, 4, size);
    forall i | 0 <= i < |chunks|
      ensures LegacyEntryAt(s, 12 + ENTRY_SIZE * i) == chunks[i]
    {
      LegacyEntryReads(s, 12 + ENTRY_SIZE * i, chunks[i]);
    }
    assert seq(|chunks|, i requires 0 <= i < |chunks| => LegacyEntryAt(s, 12 + ENTRY_SIZE * i)) == chunks;
  }

  const MYFS_COUNT: int := 0x5346_594D
  const META_SIZE: int := 0x4154_454D

  /** The count and size whose bytes spell the magic of the later versions. */
  predicate SpellsMagic(count: int, size: u64) { count == MYFS_COUNT && size % 0x1_0000_0000 == META_SIZE }

  lemma LegacyPrefix(s: seq<byte>, chunks: seq<Chunk>, size: u64)
    requires LegacyImage(s, chunks, size)
    ensures |s| >= 12 && (s[..8] == META_MAGIC <==> SpellsMagic(|chunks|, size))
  {
    hide LegacyEntry, Le32, Get32, StandsAt;
    var low: u32, high: u32 := size % 0x1_0000_0000, size / 0x1_0000_0000;
    ConcatStands(Le32(low), Le32(high));
    StandsInside(s, 4, Le64(size), 0, Le32(low));
    Get32Reads(s, 0, |chunks|);
    Get32Reads(s, 4, low);
    PrefixMatches(s);
  }

  lemma PrefixMatches(s: seq<byte>)
    requires |s| >= 8
    ensures s[..8] == META_MAGIC <==> Get32(s, 0) == MYFS_COUNT && Get32(s, 4) == META_SIZE
  {
    if s[..8] == META_MAGIC {
      assert forall k :: 0 <= k < 8 ==> s[k] == s[..8][k];
    }
    if Get32(s, 0) == MYFS_COUNT && Get32(s, 4) == META_SIZE {
      assert s[0] == 0x4D && s[1] == 0x59 && s[2] == 0x46 && s[3] == 0x53;
      assert s[4] == 0x4D && s[5] == 0x45 && s[6] == 0x54 && s[7] == 0x41;
    }
  }

  lemma VersionedLoadsNewer(codec: Codec, s: seq<byte>)
    requires |s| >= 8 && s[..8] == META_MAGIC && Load(codec, s).Ok?
    ensures Load(codec, s).value.version != VERSION_LEGACY
  {
    hide Replay, Sorted, IsPacked;
  }

  /**
   A sorted version 0 map reads back as written exactly when its count and size do not spell the
   magic of the later versions; the reader decides by those eight bytes alone.
   */
  lemma LegacyRoundTrip(codec: Codec, s: seq<byte>, chunks: seq<Chunk>, size: u64)
    requires LegacyImage(s, chunks, size) && SortedByOffset(chunks)
    ensures Load(codec, s) == Ok(LegacyInode(chunks, size, |s|)) <==> !SpellsMagic(|chunks|, size)
  {
    hide LegacyImage, LoadUnsorted, LoadLegacyUnsorted, Sorted, IsPacked, SortedByOffset;
    LegacyPrefix(s, chunks, size);
    LegacyMapReads(s, chunks, size);
    SortIsIdentity(chunks);
    if s[..8] == META_MAGIC && Load(codec, s).Ok? { VersionedLoadsNewer(codec, s); }
  }

  /** A map that does not come back: that many empty entries, in a file of that size. */
  lemma LegacyRoundTripFails(codec: Codec)
    ensures var s := META_MAGIC + Zeros(4 + ENTRY_SIZE * MYFS_COUNT);
            var chunks := seq(MYFS_COUNT, _ => Chunk(0, 0, 0, 0, 0, 0, 0));
            LegacyImage(s, chunks, META_SIZE) && SortedByOffset(chunks)
            && Load(codec, s) != Ok(LegacyInode(chunks, META_SIZE, |s|))
  {
    hide Load, LegacyInode, LegacyEntry, Zeros;
    var s := META_MAGIC + Zeros(4 + ENTRY_SIZE * MYFS_COUNT);
    var chunks := seq(MYFS_COUNT, _ => Chunk(0, 0, 0, 0, 0, 0, 0));
    forall i | 0 <= i < |chunks|
      ensures LegacyEntry(s, 12 + ENTRY_SIZE * i, chunks[i])
    {
      ZeroEntry(s, 12 + ENTRY_SIZE * i);
    }
    assert LegacyImage(s, chunks, META_SIZE);
    LegacyRoundTrip(codec, s, chunks, META_SIZE);
  }

  lemma ZeroEntry(s: seq<byte>, at: nat)
    requires at + ENTRY_SIZE <= |s| && forall k :: at <= k < at + ENTRY_SIZE ==> s[k] == 0
    ensures LegacyEntry(s, at, Chunk(0, 0, 0, 0, 0, 0, 0))
  {
  }
}
