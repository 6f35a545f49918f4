/**
 Little-endian fields and the 32-byte chunk entry (src/core/metadata.c:16-50, 107-131).
 The functions give the bytes; the methods write them into a buffer in place, as the source does.
 */
module Wire {
  import opened Basics
  import opened ChunkMap

  function Le16(v: u16): (r: seq<byte>)
    ensures |r| == 2
  {
    [v % 0x100, v / 0x100]
  }

  function Le32(v: u32): (r: seq<byte>)
    ensures |r| == 4
  {
    [v % 0x100, v / 0x100 % 0x100, v / 0x1_0000 % 0x100, v / 0x100_0000]
  }

  function Le64(v: u64): (r: seq<byte>)
    ensures |r| == 8
  {
    Le32(v % 0x1_0000_0000) + Le32(v / 0x1_0000_0000)
  }

  function Get16(s: seq<byte>, at: nat): u16
    requires at + 2 <= |s|
  {
    s[at] as int + 0x100 * (s[at + 1] as int)
  }

  function Get32(s: seq<byte>, at: nat): u32
    requires at + 4 <= |s|
  {
    s[at] as int + 0x100 * (s[at + 1] as int) + 0x1_0000 * (s[at + 2] as int) + 0x100_0000 * (s[at + 3] as int)
  }

  function Get64(s: seq<byte>, at: nat): u64
    requires at + 8 <= |s|
  {
    Get32(s, at) as int + 0x1_0000_0000 * (Get32(s, at + 4) as int)
  }

  /** `part` stands at position `at` of `s`. */
  ghost predicate StandsAt(s: seq<byte>, at: int, part: seq<byte>) {
    0 <= at && at + |part| <= |s| && forall k :: 0 <= k < |part| ==> s[at + k] == part[k]
  }

  lemma Get16Reads(s: seq<byte>, at: nat, v: u16)
    requires StandsAt(s, at, Le16(v))
    ensures Get16(s, at) == v
  {
    assert s[at + 0] == Le16(v)[0] && s[at + 1] == Le16(v)[1];
  }

  lemma Get32Reads(s: seq<byte>, at: nat, v: u32)
    requires StandsAt(s, at, Le32(v))
    ensures Get32(s, at) == v
  {
    assert v / 0x1_0000 == v / 0x100 / 0x100 && v / 0x100_0000 == v / 0x1_0000 / 0x100;
    assert s[at + 0] == Le32(v)[0] && s[at + 1] == Le32(v)[1] && s[at + 2] == Le32(v)[2] && s[at + 3] == Le32(v)[3];
  }

  lemma Get64Reads(s: seq<byte>, at: nat, v: u64)
    requires StandsAt(s, at, Le64(v))
    ensures Get64(s, at) == v
  {
    var lo, hi := Le32(v % 0x1_0000_0000), Le32(v / 0x1_0000_0000);
    forall k | 0 <= k < 4
      ensures s[at + k] == lo[k] && s[at + 4 + k] == hi[k]
    {
      assert s[at + k] == Le64(v)[k] && s[at + (4 + k)] == Le64(v)[4 + k];
    }
    Get32Reads(s, at, v % 0x1_0000_0000);
    Get32Reads(s, at + 4, v / 0x1_0000_0000);
  }

  /** A buffer with `part` written at `at`; everything else untouched. */
  ghost predicate Wrote(before: seq<byte>, at: int, part: seq<byte>, after: seq<byte>) {
    && |after| == |before| && StandsAt(after, at, part)
    && forall k :: 0 <= k < |after| && !(at <= k < at + |part|) ==> after[k] == before[k]
  }

  method Put16(buf: array<byte>, at: nat, v: u16)
    requires at + 2 <= buf.Length
    modifies buf
    ensures Wrote(old(buf[..]), at, Le16(v), buf[..])
  {
    buf[at], buf[at + 1] := v % 0x100, v / 0x100;
  }

  method Put32(buf: array<byte>, at: nat, v: u32)
    requires at + 4 <= buf.Length
    modifies buf
    ensures Wrote(old(buf[..]), at, Le32(v), buf[..])
  {
    buf[at] := v % 0x100;
    buf[at + 1] := v / 0x100 % 0x100;
    buf[at + 2] := v / 0x1_0000 % 0x100;
    buf[at + 3] := v / 0x100_0000;
  }

  method Put64(buf: array<byte>, at: nat, v: u64)
    requires at + 8 <= buf.Length
    modifies buf
    ensures Wrote(old(buf[..]), at, Le64(v), buf[..])
  {
    Put32(buf, at, v % 0x1_0000_0000);
    Put32(buf, at + 4, v / 0x1_0000_0000);
  }

  method PutBytes(buf: array<byte>, at: nat, part: seq<byte>)
    requires at + |part| <= buf.Length
    modifies buf
    ensures Wrote(old(buf[..]), at, part, buf[..])
  {
    forall k | 0 <= k < |part| {
      buf[at + k] := part[k];
    }
  }

  const ENTRY_SIZE: int := 32

  /** `encode_entry`. */
  function EntryBytes(c: Chunk): (r: seq<byte>)
    ensures |r| == ENTRY_SIZE
  {
    Le64(c.logicalOffset) + Le64(c.physicalOffset) + Le32(c.rawSize) + Le32(c.storedSize)
    + Le32(c.checksum) + [c.codecType, c.flags, 0, 0]
  }

  /** `decode_entry`, reading at position `at`. */
  function EntryAt(s: seq<byte>, at: nat): Chunk
    requires at + ENTRY_SIZE <= |s|
  {
    Chunk(Get64(s, at), Get32(s, at + 16), Get32(s, at + 20), s[at + 28], s[at + 29], Get32(s, at + 24), Get64(s, at + 8))
  }

  lemma StandsInside(s: seq<byte>, at: int, whole: seq<byte>, k: int, part: seq<byte>)
    requires StandsAt(s, at, whole) && StandsAt(whole, k, part)
    ensures StandsAt(s, at + k, part)
  {
    forall i | 0 <= i < |part|
      ensures s[at + k + i] == part[i]
    {
      assert s[at + (k + i)] == whole[k + i];
    }
  }

  lemma EntryLayout(c: Chunk)
    ensures var e := EntryBytes(c);
            && StandsAt(e, 0, Le64(c.logicalOffset)) && StandsAt(e, 8, Le64(c.physicalOffset))
            && StandsAt(e, 16, Le32(c.rawSize)) && StandsAt(e, 20, Le32(c.storedSize))
            && StandsAt(e, 24, Le32(c.checksum)) && e[28] == c.codecType && e[29] == c.flags
  {
    hide Le64, Le32;
  }

  /** Decoding undoes encoding, wherever the entry stands. */
  lemma EntryRoundTrip(s: seq<byte>, at: nat, c: Chunk)
    requires StandsAt(s, at, EntryBytes(c))
    ensures EntryAt(s, at) == c
  {
    var e := EntryBytes(c);
    EntryLayout(c);
    StandsInside(s, at, e, 0, Le64(c.logicalOffset));
    StandsInside(s, at, e, 8, Le64(c.physicalOffset));
    StandsInside(s, at, e, 16, Le32(c.rawSize));
    StandsInside(s, at, e, 20, Le32(c.storedSize));
    StandsInside(s, at, e, 24, Le32(c.checksum));
    assert s[at + 28] == e[28] && s[at + 29] == e[29];
    Get64Reads(s, at, c.logicalOffset);
    Get64Reads(s, at + 8, c.physicalOffset);
    Get32Reads(s, at + 16, c.rawSize);
    Get32Reads(s, at + 20, c.storedSize);
    Get32Reads(s, at + 24, c.checksum);
  }

  /** Two adjacent writes are one write of the concatenation. */
  lemma WroteBoth(a: seq<byte>, b: seq<byte>, c: seq<byte>, at: int, p: seq<byte>, q: seq<byte>)
    requires Wrote(a, at, p, b) && Wrote(b, at + |p|, q, c)
    ensures Wrote(a, at, p + q, c)
  {
    forall k | 0 <= k < |p + q|
      ensures c[at + k] == (p + q)[k]
    {
      if k >= |p| { assert c[at + |p| + (k - |p|)] == q[k - |p|]; }
      else { assert c[at + k] == b[at + k]; }
    }
  }

  /** `encode_entry` into a buffer, field by field. */
  method PutEntry(buf: array<byte>, at: nat, c: Chunk)
    requires at + ENTRY_SIZE <= buf.Length
    modifies buf
    ensures Wrote(old(buf[..]), at, EntryBytes(c), buf[..])
  {
    hide Le32, Le64, Wrote;
    ghost var b0 := buf[..];
    Put64(buf, at, c.logicalOffset);
    ghost var b1 := buf[..];
    Put64(buf, at + 8, c.physicalOffset);
    WroteBoth(b0, b1, buf[..], at, Le64(c.logicalOffset), Le64(c.physicalOffset));
    b1 := buf[..];
    ghost var done := Le64(c.logicalOffset) + Le64(c.physicalOffset);
    Put32(buf, at + 16, c.rawSize);
    WroteBoth(b0, b1, buf[..], at, done, Le32(c.rawSize));
    b1, done := buf[..], done + Le32(c.rawSize);
    Put32(buf, at + 20, c.storedSize);
    WroteBoth(b0, b1, buf[..], at, done, Le32(c.storedSize));
    b1, done := buf[..], done + Le32(c.storedSize);
    Put32(buf, at + 24, c.checksum);
    WroteBoth(b0, b1, buf[..], at, done, Le32(c.checksum));
    b1, done := buf[..], done + Le32(c.checksum);
    PutBytes(buf, at + 28, [c.codecType, c.flags, 0, 0]);
    WroteBoth(b0, b1, buf[..], at, done, [c.codecType, c.flags, 0, 0]);
  }
}
