/**
 Damaged metadata files (src/core/metadata.c:133-177, 210-360): what a loader refuses, with the
 checksum an arbitrary function.  A file that loads and ends with its last record is taken, and any
 bytes are put behind it, or in the place of its parts.
 */
module JournalErrors {
  import opened Basics
  import opened Windows
  import opened ChunkMap
  import opened Wire
  import opened SortChunks
  import opened Journal
  import opened JournalProofs

  /** A file without a torn tail: it loads as `inode`, and its last record ends it. */
  ghost predicate LoadsWhole(codec: Codec, file: seq<byte>, inode: Inode) {
    LoadUnsorted(codec, file) == Ok(inode) && inode.validEnd == |file|
  }

  /** The record has the length it claims, its magic and its commit marker. */
  predicate Framed(rec: seq<byte>) {
    && |rec| >= DELTA_HEADER_SIZE + DELTA_TRAILER_SIZE && rec[..8] == DELTA_MAGIC
    && Get32(rec, 8) == |rec| == DELTA_HEADER_SIZE + ENTRY_SIZE * (Get32(rec, 32) as int) + DELTA_TRAILER_SIZE
    && Get32(rec, |rec| - 4) == COMMIT_MARKER
  }

  /** The checksum in the record is that of its body. */
  predicate Sealed(codec: Codec, rec: seq<byte>)
    requires |rec| >= DELTA_TRAILER_SIZE
  {
    codec.crc(rec[..|rec| - DELTA_TRAILER_SIZE]) == Get32(rec, |rec| - DELTA_TRAILER_SIZE)
  }

  /** What a framed record says. */
  function Carried(rec: seq<byte>): Delta
    requires Framed(rec)
  {
    Delta(Get32(rec, 24), Get32(rec, 28), EntriesAt(rec, DELTA_HEADER_SIZE, Get32(rec, 32)), Get64(rec, 40))
  }

  // ----- a record is read where it stands

  lemma ShiftedFields(f: seq<byte>, t: seq<byte>, k: nat)
    ensures k + 4 <= |t| ==> Get32(f + t, |f| + k) == Get32(t, k)
    ensures k + 8 <= |t| ==> Get64(f + t, |f| + k) == Get64(t, k)
  {
    if k + 4 <= |t| {
      assert forall i :: k <= i < |t| ==> (f + t)[|f| + i] == t[i];
    }
  }

  lemma ShiftedSlice(f: seq<byte>, t: seq<byte>, lo: nat, hi: nat)
    requires lo <= hi <= |t|
    ensures (f + t)[|f| + lo..|f| + hi] == t[lo..hi]
  {
  }

  lemma ShiftedEntries(f: seq<byte>, t: seq<byte>, at: nat, n: nat)
    requires at + ENTRY_SIZE * n <= |t|
    ensures EntriesAt(f + t, |f| + at, n) == EntriesAt(t, at, n)
  {
    var s := f + t;
    forall i | 0 <= i < n
      ensures EntryAt(s, |f| + at + ENTRY_SIZE * i) == EntryAt(t, at + ENTRY_SIZE * i)
    {
      ShiftedEntry(f, t, at + ENTRY_SIZE * i);
    }
  }

  lemma ShiftedEntry(f: seq<byte>, t: seq<byte>, at: nat)
    requires at + ENTRY_SIZE <= |t|
    ensures EntryAt(f + t, |f| + at) == EntryAt(t, at)
  {
    assert forall i :: at <= i < |t| ==> (f + t)[|f| + i] == t[i];
  }

  lemma ReadRecordShifted(codec: Codec, f: seq<byte>, t: seq<byte>)
    ensures ReadRecord(codec, f + t, |f|) == ReadRecord(codec, t, 0)
  {
    hide Get32, Get64, EntriesAt;
    if |t| >= DELTA_HEADER_SIZE {
      ShiftedSlice(f, t, 0, 8);
      ShiftedFields(f, t, 8);
      ShiftedFields(f, t, 32);
      var len, added: int := Get32(t, 8), Get32(t, 32);
      if len == DELTA_HEADER_SIZE + ENTRY_SIZE * added + DELTA_TRAILER_SIZE && len <= |t| {
        ShiftedFields(f, t, len - 4);
        ShiftedFields(f, t, len - 8);
        ShiftedSlice(f, t, 0, len - 8);
        ShiftedFields(f, t, 16);
        ShiftedFields(f, t, 24);
        ShiftedFields(f, t, 28);
        ShiftedFields(f, t, 40);
        ShiftedEntries(f, t, DELTA_HEADER_SIZE, added);
      }
    }
  }

  // ----- what follows a whole file is decided by its first record

  /** The loader's state at the end of the file. */
  function StateOf(inode: Inode): Replayed {
    Replayed(inode.chunks, inode.logicalSize, inode.sequence, inode.deltaCount, inode.journalBytes, inode.validEnd)
  }

  lemma LoadGoesOn(codec: Codec, file: seq<byte>, inode: Inode, tail: seq<byte>)
    requires LoadsWhole(codec, file, inode)
    ensures |file| >= 8 && (file + tail)[..8] == META_MAGIC
    ensures var j := Replay(codec, file + tail, StateOf(inode));
            LoadUnsorted(codec, file + tail) ==
            if j.Err? then Err(j.error) else Ok(FromReplay(j.value, inode.windowSize, inode.version))
  {
    hide ReadBase, Replay, IsPacked;
    var s := file + tail;
    var base := ReadBase(codec, file).value;
    var j := Replay(codec, file, base.start).value;
    assert s[..|file|] == file && file[..|file|] == file;
    ReadBaseLocal(codec, file, s, |file|);
    ReplayContinues(codec, file, s, base.start);
    BaseMagic(codec, s);
  }

  lemma BaseMagic(codec: Codec, s: seq<byte>)
    requires ReadBase(codec, s).Ok?
    ensures |s| >= HEADER_SIZE && s[..8] == META_MAGIC
  {
  }

  /** An error while loading is the error of the load. */
  lemma ErrorSurfaces(codec: Codec, s: seq<byte>)
    requires |s| >= 8 && s[..8] == META_MAGIC
    ensures LoadUnsorted(codec, s).Err? ==> Load(codec, s) == LoadUnsorted(codec, s)
    ensures LoadUnsorted(codec, s).Ok? ==> Load(codec, s).Ok?
  {
    hide LoadUnsorted, WithSortedChunks;
  }

  lemma ReplayRefuses(codec: Codec, file: seq<byte>, inode: Inode, tail: seq<byte>)
    requires LoadsWhole(codec, file, inode) && ReplayStep(codec, file + tail, StateOf(inode)) == Stop(Err(EIO))
    ensures Load(codec, file + tail) == Err(EIO)
  {
    hide ReadRecord, LoadUnsorted;
    LoadGoesOn(codec, file, inode, tail);
    ErrorSurfaces(codec, file + tail);
  }

  // ----- refusals

  /** Bytes where a record would start, but no record. */
  lemma WrongMagicRefused(codec: Codec, file: seq<byte>, inode: Inode, tail: seq<byte>)
    requires LoadsWhole(codec, file, inode) && |tail| >= DELTA_HEADER_SIZE && tail[..8] != DELTA_MAGIC
    ensures Load(codec, file + tail) == Err(EIO)
  {
    ReadRecordShifted(codec, file, tail);
    assert tail[0..0 + 8] == tail[..8];
    ReplayRefuses(codec, file, inode, tail);
  }

  /** The length of a record is not that of its entries. */
  lemma WrongLengthRefused(codec: Codec, file: seq<byte>, inode: Inode, tail: seq<byte>)
    requires LoadsWhole(codec, file, inode) && |tail| >= DELTA_HEADER_SIZE
    requires Get32(tail, 8) as int != DELTA_HEADER_SIZE + ENTRY_SIZE * (Get32(tail, 32) as int) + DELTA_TRAILER_SIZE
    ensures Load(codec, file + tail) == Err(EIO)
  {
    hide Get32;
    ReadRecordShifted(codec, file, tail);
    ReplayRefuses(codec, file, inode, tail);
  }

  /** A tail too short for a record header, or for the record it begins, or without its commit marker. */
  predicate Torn(tail: seq<byte>) {
    |tail| < DELTA_HEADER_SIZE ||
    (tail[..8] == DELTA_MAGIC
     && var length := Get32(tail, 8) as int;
        && length == DELTA_HEADER_SIZE + ENTRY_SIZE * (Get32(tail, 32) as int) + DELTA_TRAILER_SIZE
        && (|tail| < length || Get32(tail, length - 4) != COMMIT_MARKER))
  }

  /** A torn tail, whatever its bytes, is as good as none. */
  lemma TornTailIgnored(codec: Codec, file: seq<byte>, inode: Inode, tail: seq<byte>)
    requires LoadsWhole(codec, file, inode) && Torn(tail)
    ensures LoadUnsorted(codec, file + tail) == Ok(inode)
  {
    ReadRecordShifted(codec, file, tail);
    assert |tail| >= 8 ==> tail[0..0 + 8] == tail[..8];
    StateReads(codec, file, inode);
    hide Get32, LoadUnsorted;
    LoadGoesOn(codec, file, inode, tail);
  }

  lemma StateReads(codec: Codec, file: seq<byte>, inode: Inode)
    requires LoadUnsorted(codec, file) == Ok(inode)
    ensures FromReplay(StateOf(inode), inode.windowSize, inode.version) == inode
  {
    hide ReadBase, Replay, IsPacked;
  }

  /** What a framed record reads as, whatever follows it. */
  lemma FramedReads(codec: Codec, rec: seq<byte>, rest: seq<byte>)
    requires Framed(rec)
    ensures ReadRecord(codec, rec + rest, 0) ==
            if Sealed(codec, rec) then Ok(Some(Record(Get64(rec, 16), Carried(rec)))) else Err(EIO)
  {
    hide Get32, Get64, EntriesAt;
    var s, len := rec + rest, |rec|;
    assert s[0..0 + 8] == rec[..8] && s[0..0 + len - DELTA_TRAILER_SIZE] == rec[..len - DELTA_TRAILER_SIZE];
    PrefixFields(rec, rest, 8);
    PrefixFields(rec, rest, 16);
    PrefixFields(rec, rest, 24);
    PrefixFields(rec, rest, 28);
    PrefixFields(rec, rest, 32);
    PrefixFields(rec, rest, 40);
    PrefixFields(rec, rest, len - 4);
    PrefixFields(rec, rest, len - 8);
    PrefixEntries(rec, rest, DELTA_HEADER_SIZE, Get32(rec, 32));
  }

  lemma PrefixFields(rec: seq<byte>, rest: seq<byte>, k: nat)
    ensures k + 4 <= |rec| ==> Get32(rec + rest, k) == Get32(rec, k)
    ensures k + 8 <= |rec| ==> Get64(rec + rest, k) == Get64(rec, k)
  {
  }

  lemma PrefixEntries(rec: seq<byte>, rest: seq<byte>, at: nat, n: nat)
    requires at + ENTRY_SIZE * n <= |rec|
    ensures EntriesAt(rec + rest, at, n) == EntriesAt(rec, at, n)
  {
    EntriesLocal(rec, rec + rest, at, n, |rec|);
  }

  /**
   A whole, committed record is taken exactly if its checksum is that of its body, its number is the
   next one, and its range lies in the map; otherwise the file does not load, whatever follows.
   */
  lemma RecordTakenExactlyWhen(codec: Codec, file: seq<byte>, inode: Inode, rec: seq<byte>, rest: seq<byte>)
    requires LoadsWhole(codec, file, inode) && Framed(rec)
    ensures var first: int, removed: int, added: int := Get32(rec, 24), Get32(rec, 28), Get32(rec, 32);
            var sound := && Sealed(codec, rec) && Get64(rec, 16) == Next(inode.sequence)
                         && first + removed <= |inode.chunks| && |inode.chunks| - removed + added <= U32_MAX;
            && (!sound ==> Load(codec, file + (rec + rest)) == Err(EIO))
            && (sound ==>
                  && Applies(inode.chunks, Carried(rec))
                  && LoadsWhole(codec, file + rec, Appended(inode, Carried(rec))) && Load(codec, file + rec).Ok?)
  {
    hide Get32, Get64, EntriesAt, LoadUnsorted, Framed;
    FramedLength(rec);
    FramedReads(codec, rec, rest);
    ReadRecordShifted(codec, file, rec + rest);
    FramedReads(codec, rec, []);
    assert rec + [] == rec;
    ReadRecordShifted(codec, file, rec);
    hide ReadRecord, Sealed, LoadsWhole;
    if ReplayStep(codec, file + (rec + rest), StateOf(inode)) == Stop(Err(EIO)) {
      ReplayRefuses(codec, file, inode, rec + rest);
    } else {
      RecordTaken(codec, file, inode, rec);
    }
  }

  lemma FramedLength(rec: seq<byte>)
    requires Framed(rec)
    ensures |rec| >= DELTA_HEADER_SIZE + DELTA_TRAILER_SIZE && Carried(rec).Length() == |rec|
    ensures |Carried(rec).added| == Get32(rec, 32) && Carried(rec).first == Get32(rec, 24) && Carried(rec).removed == Get32(rec, 28)
  {
  }

  lemma AppliedIsAppended(inode: Inode, d: Delta)
    requires Applies(inode.chunks, d)
    ensures FromReplay(Apply(StateOf(inode), d), inode.windowSize, inode.version) == Appended(inode, d)
    ensures Apply(StateOf(inode), d).cursor == inode.validEnd + d.Length()
  {
    hide Splice, IsPacked, Applies;
  }

  lemma RecordReplays(codec: Codec, s: seq<byte>, j: Replayed, d: Delta)
    requires j.cursor + d.Length() == |s| && Applies(j.chunks, d)
    requires ReadRecord(codec, s, j.cursor) == Ok(Some(Record(Next(j.sequence), d)))
    ensures Replay(codec, s, j) == Ok(Apply(j, d))
  {
    hide ReadRecord, Applies, Splice;
    ReplayAtEnd(codec, s, Apply(j, d));
  }

  lemma RecordTaken(codec: Codec, file: seq<byte>, inode: Inode, rec: seq<byte>)
    requires LoadsWhole(codec, file, inode) && Framed(rec) && Applies(inode.chunks, Carried(rec))
    requires ReadRecord(codec, file + rec, |file|) == Ok(Some(Record(Next(inode.sequence), Carried(rec))))
    ensures LoadsWhole(codec, file + rec, Appended(inode, Carried(rec))) && Load(codec, file + rec).Ok?
  {
    hide ReadRecord, Framed, Carried, LoadUnsorted, Load, Applies, Replay, FromReplay, Apply, Appended;
    FramedLength(rec);
    LoadGoesOn(codec, file, inode, rec);
    AppliedIsAppended(inode, Carried(rec));
    RecordReplays(codec, file + rec, StateOf(inode), Carried(rec));
    AppendedEnd(inode, Carried(rec));
    ErrorSurfaces(codec, file + rec);
  }

  lemma AppendedEnd(inode: Inode, d: Delta)
    requires Applies(inode.chunks, d)
    ensures Appended(inode, d).validEnd == inode.validEnd + d.Length()
  {
  }

  // ----- files made by a save and appends, one record damaged

  lemma {:induction false} RecordsSplit(codec: Codec, sequence: u64, deltas: seq<Delta>, k: nat)
    requires k <= |deltas| && forall d :: d in deltas ==> d.Fits()
    ensures RecordsBytes(codec, sequence, deltas) ==
            RecordsBytes(codec, sequence, deltas[..k]) + RecordsBytes(codec, After(sequence, k), deltas[k..])
    decreases k
  {
    hide RecordsBytes, DeltaBytes;
    if k == 0 {
      assert deltas[0..] == deltas;
      NoRecords(codec, sequence, deltas[..0]);
    } else {
      var first := DeltaBytes(codec, Next(sequence), deltas[0]);
      FirstRecord(codec, sequence, deltas);
      FirstRecord(codec, sequence, deltas[..k]);
      assert deltas[..k][1..] == deltas[1..][..k - 1] && deltas[1..][k - 1..] == deltas[k..];
      RecordsSplit(codec, Next(sequence), deltas[1..], k - 1);
    }
  }

  lemma NoRecords(codec: Codec, sequence: u64, deltas: seq<Delta>)
    requires deltas == []
    ensures RecordsBytes(codec, sequence, deltas) == []
  {
  }

  lemma FirstRecord(codec: Codec, sequence: u64, deltas: seq<Delta>)
    requires deltas != [] && forall d :: d in deltas ==> d.Fits()
    ensures RecordsBytes(codec, sequence, deltas) ==
            DeltaBytes(codec, Next(sequence), deltas[0]) + RecordsBytes(codec, Next(sequence), deltas[1..])
  {
  }

  /** The number `k` records later. */
  function After(sequence: u64, k: nat): u64
    decreases k
  {
    if k == 0 then sequence else After(Next(sequence), k - 1)
  }

  lemma {:induction false} AppliedSequence(j: Replayed, deltas: seq<Delta>)
    requires AllApply(j, deltas)
    ensures ApplyAll(j, deltas).sequence == After(j.sequence, |deltas|)
    decreases |deltas|
  {
    hide Applies;
    if deltas != [] { AppliedSequence(Apply(j, deltas[0]), deltas[1..]); }
  }

  lemma {:induction false} AppliedCursor(codec: Codec, j: Replayed, deltas: seq<Delta>)
    requires AllApply(j, deltas) && forall d :: d in deltas ==> d.Fits()
    ensures ApplyAll(j, deltas).cursor == j.cursor + |RecordsBytes(codec, j.sequence, deltas)|
    decreases |deltas|
  {
    hide Applies, DeltaBytes;
    if deltas != [] {
      AppliedCursor(codec, Apply(j, deltas[0]), deltas[1..]);
      assert |RecordsBytes(codec, j.sequence, deltas)| ==
             |DeltaBytes(codec, Next(j.sequence), deltas[0])| + |RecordsBytes(codec, Next(j.sequence), deltas[1..])|;
    }
  }

  lemma {:induction false} AllWhole(codec: Codec, sequence: u64, deltas: seq<Delta>)
    requires forall d :: d in deltas ==> d.Fits()
    ensures WholeRecords(deltas, |RecordsBytes(codec, sequence, deltas)|) == |deltas|
    decreases |deltas|
  {
    hide DeltaBytes;
    if deltas != [] { AllWhole(codec, Next(sequence), deltas[1..]); }
  }

  lemma {:induction false} PrefixApplies(j: Replayed, deltas: seq<Delta>, k: nat)
    requires AllApply(j, deltas) && k <= |deltas|
    ensures AllApply(j, deltas[..k])
    decreases k
  {
    hide Applies;
    if k > 0 {
      PrefixApplies(Apply(j, deltas[0]), deltas[1..], k - 1);
      assert deltas[..k][1..] == deltas[1..][..k - 1];
    } else {
      assert deltas[..0] == [];
    }
  }

  /** The map after the first records. */
  function InodeOf(version: u16, window: u32, start: Replayed, deltas: seq<Delta>): Inode
    requires AllApply(start, deltas)
  {
    FromReplay(ApplyAll(start, deltas), EffectiveWindow(version, window), version)
  }

  /** A file made by a save and appends loads whole. */
  lemma MadeFileLoads(codec: Codec, version: u16, window: u32, chunks: seq<Chunk>, size: u64, sequence: u64, deltas: seq<Delta>)
    requires GoodFile(version, window, chunks, size, sequence, deltas)
    ensures LoadsWhole(codec, FileBytes(codec, version, window, chunks, size, sequence, deltas),
                       InodeOf(version, window, StartOf(chunks, size, sequence), deltas))
  {
    hide BaseBytes, RecordsBytes, LoadUnsorted, Load, AllApply, ApplyAll, FromReplay, WithSortedChunks, WholeRecords;
    var file := FileBytes(codec, version, window, chunks, size, sequence, deltas);
    var n := |RecordsBytes(codec, sequence, deltas)|;
    AllWhole(codec, sequence, deltas);
    LoadOfPrefix(codec, version, window, chunks, size, sequence, deltas, n);
    assert file[..HEADER_SIZE + ENTRY_SIZE * |chunks| + n] == file && deltas[..|deltas|] == deltas;
    AppliedCursor(codec, StartOf(chunks, size, sequence), deltas);
    EndOfReplay(ApplyAll(StartOf(chunks, size, sequence), deltas), EffectiveWindow(version, window), version);
  }

  lemma EndOfReplay(j: Replayed, window: u32, version: u16)
    ensures FromReplay(j, window, version).validEnd == j.cursor && FromReplay(j, window, version).sequence == j.sequence
    ensures FromReplay(j, window, version).chunks == j.chunks
  {
    hide IsPacked;
  }

  /** `damaged` has the magic, the lengths and the commit marker of `whole`. */
  predicate KeepsFrame(whole: seq<byte>, damaged: seq<byte>)
    requires |whole| >= DELTA_HEADER_SIZE + DELTA_TRAILER_SIZE
  {
    && |damaged| == |whole| && damaged[..12] == whole[..12] && damaged[32..36] == whole[32..36]
    && damaged[|whole| - 4..] == whole[|whole| - 4..]
  }

  lemma FrameKept(codec: Codec, sequence: u64, d: Delta, damaged: seq<byte>)
    requires d.Fits() && KeepsFrame(DeltaBytes(codec, sequence, d), damaged)
    ensures Framed(damaged) && Get32(damaged, 32) == |d.added|
  {
    var whole := DeltaBytes(codec, sequence, d);
    hide DeltaBytes, Le32, Get32;
    WholeFileStands(whole);
    RecordFields(codec, whole, 0, sequence, d);
    RecordTail(codec, whole, 0, sequence, d);
    SamePart(whole, damaged, 0, 12, 8);
    SamePart(whole, damaged, 32, 36, 32);
    SamePart(whole, damaged, |whole| - 4, |whole|, |whole| - 4);
    assert damaged[..8] == damaged[..12][..8] == whole[..12][..8] == whole[0..0 + 8];
  }

  lemma SamePart(a: seq<byte>, b: seq<byte>, lo: nat, hi: nat, k: nat)
    requires lo <= k && k + 4 <= hi <= |a| == |b| && a[lo..hi] == b[lo..hi]
    ensures Get32(a, k) == Get32(b, k)
  {
    forall i | lo <= i < hi
      ensures a[i] == b[i]
    {
      assert a[i] == a[lo..hi][i - lo] && b[i] == b[lo..hi][i - lo];
    }
  }

  lemma SplitFile(codec: Codec, version: u16, window: u32, chunks: seq<Chunk>, size: u64, sequence: u64, deltas: seq<Delta>,
                  k: nat) returns (rest: seq<byte>)
    requires GoodFile(version, window, chunks, size, sequence, deltas) && k < |deltas|
    ensures GoodFile(version, window, chunks, size, sequence, deltas[..k])
    ensures FileBytes(codec, version, window, chunks, size, sequence, deltas) ==
            FileBytes(codec, version, window, chunks, size, sequence, deltas[..k])
            + (DeltaBytes(codec, Next(After(sequence, k)), deltas[k]) + rest)
  {
    hide BaseBytes, DeltaBytes, Applies;
    PrefixApplies(StartOf(chunks, size, sequence), deltas, k);
    RecordsSplit(codec, sequence, deltas, k);
    rest := RecordsBytes(codec, Next(After(sequence, k)), deltas[k + 1..]);
    assert deltas[k..][0] == deltas[k] && deltas[k..][1..] == deltas[k + 1..];
  }

  /**
   One record of a file made by a save and appends is damaged, its frame intact.  If its checksum does
   not match its body, if its number is not the one it had, or if its range does not lie in the map the
   records before it lead to, the file does not load, whatever records follow.
   */
  lemma DamagedRecordRefused(codec: Codec, version: u16, window: u32, chunks: seq<Chunk>, size: u64, sequence: u64,
                             deltas: seq<Delta>, k: nat, damaged: seq<byte>)
    requires GoodFile(version, window, chunks, size, sequence, deltas) && k < |deltas|
    requires KeepsFrame(DeltaBytes(codec, Next(After(sequence, k)), deltas[k]), damaged)
    ensures var file := FileBytes(codec, version, window, chunks, size, sequence, deltas);
            var at := |FileBytes(codec, version, window, chunks, size, sequence, deltas[..k])|;
            && at + |damaged| <= |file| && AllApply(StartOf(chunks, size, sequence), deltas[..k])
            && var entries := ApplyAll(StartOf(chunks, size, sequence), deltas[..k]).chunks;
               var first: int, removed: int := Get32(damaged, 24), Get32(damaged, 28);
               (!Sealed(codec, damaged) || Get64(damaged, 16) != Next(After(sequence, k))
                || first + removed > |entries| || |entries| - removed + |deltas[k].added| > U32_MAX) ==>
               Load(codec, file[..at] + (damaged + file[at + |damaged|..])) == Err(EIO)
  {
    hide BaseBytes, RecordsBytes, FileBytes, DeltaBytes, LoadUnsorted, Load, AllApply, ApplyAll, FromReplay, Sealed, Framed, Get32, Get64,
         KeepsFrame, LoadsWhole;
    var rest := SplitFile(codec, version, window, chunks, size, sequence, deltas, k);
    var front := FileBytes(codec, version, window, chunks, size, sequence, deltas[..k]);
    var whole := DeltaBytes(codec, Next(After(sequence, k)), deltas[k]);
    var file := FileBytes(codec, version, window, chunks, size, sequence, deltas);
    SameLength(whole, damaged);
    FrontOf(front, whole, rest);
    FrameKept(codec, Next(After(sequence, k)), deltas[k], damaged);
    var start := StartOf(chunks, size, sequence);
    MadeFileLoads(codec, version, window, chunks, size, sequence, deltas[..k]);
    EndOfReplay(ApplyAll(start, deltas[..k]), EffectiveWindow(version, window), version);
    AppliedSequence(start, deltas[..k]);
    RecordTakenExactlyWhen(codec, front, InodeOf(version, window, start, deltas[..k]), damaged, rest);
  }

  lemma SameLength(whole: seq<byte>, damaged: seq<byte>)
    requires |whole| >= DELTA_HEADER_SIZE + DELTA_TRAILER_SIZE && KeepsFrame(whole, damaged)
    ensures |damaged| == |whole|
  {
  }

  lemma FrontOf(front: seq<byte>, whole: seq<byte>, rest: seq<byte>)
    ensures var file := front + (whole + rest); file[..|front|] == front && file[|front| + |whole|..] == rest
  {
  }

  // ----- the base image

  /** The header with its own checksum field zero. */
  function Unsealed(header: seq<byte>): seq<byte>
    requires |header| == HEADER_SIZE
  {
    header[..52] + Le32(0) + header[56..]
  }

  /** The fields of the header are those of a version 1 or 2 image. */
  predicate HeaderFieldsSound(header: seq<byte>)
    requires |header| == HEADER_SIZE
  {
    var version := Get16(header, 8);
    && Get16(header, 10) == HEADER_SIZE && Get32(header, 16) == ENTRY_SIZE
    && (version == VERSION_V1 || (version == VERSION_V2 && SizeValid(Get32(header, 20))))
  }

  lemma FrontFields(header: seq<byte>, rest: seq<byte>)
    requires |header| == HEADER_SIZE
    ensures var s := header + rest;
            && s[..8] == header[..8] && s[..52] + Le32(0) + s[56..HEADER_SIZE] == Unsealed(header)
            && Get16(s, 8) == Get16(header, 8) && Get16(s, 10) == Get16(header, 10) && Get32(s, 16) == Get32(header, 16)
            && Get32(s, 20) == Get32(header, 20) && Get32(s, 24) == Get32(header, 24) && Get64(s, 32) == Get64(header, 32)
            && Get64(s, 40) == Get64(header, 40) && Get32(s, 48) == Get32(header, 48) && Get32(s, 52) == Get32(header, 52)
  {
    hide Get32, Get64, Le32;
    var s := header + rest;
    assert s[..52] == header[..52] && s[56..HEADER_SIZE] == header[56..];
    PrefixFields(header, rest, 16);
    PrefixFields(header, rest, 20);
    PrefixFields(header, rest, 24);
    PrefixFields(header, rest, 32);
    PrefixFields(header, rest, 40);
    PrefixFields(header, rest, 48);
    PrefixFields(header, rest, 52);
  }

  /** What a base image reads as, whatever follows it. */
  lemma BaseReads(codec: Codec, header: seq<byte>, wire: seq<byte>, rest: seq<byte>)
    requires |header| == HEADER_SIZE && header[..8] == META_MAGIC && |wire| == ENTRY_SIZE * (Get32(header, 24) as int)
    ensures var sound := && HeaderFieldsSound(header) && codec.crc(Unsealed(header)) == Get32(header, 52)
                         && codec.crc(wire) == Get32(header, 48);
            ReadBase(codec, header + (wire + rest)) ==
            if sound then
              Ok(BaseImage(EffectiveWindow(Get16(header, 8), Get32(header, 20)), Get16(header, 8),
                           StartOf(EntriesAt(wire, 0, Get32(header, 24)), Get64(header, 32), Get64(header, 40))))
            else Err(EIO)
  {
    hide Get16, Get32, Get64, EntriesAt, Unsealed;
    FrontFields(header, wire + rest);
    assert (header + (wire + rest))[HEADER_SIZE..HEADER_SIZE + |wire|] == wire;
    assert header + (wire + rest) == header + wire + rest;
    ShiftedEntries(header, wire, 0, Get32(header, 24));
    PrefixEntries(header + wire, rest, HEADER_SIZE, Get32(header, 24));
  }

  /**
   A base image is taken exactly if its header and its entries have the checksums it states and its
   fields are those of a known version; otherwise the file does not load, whatever follows.
   */
  lemma BaseTakenExactlyWhen(codec: Codec, header: seq<byte>, wire: seq<byte>, rest: seq<byte>)
    requires |header| == HEADER_SIZE && header[..8] == META_MAGIC && |wire| == ENTRY_SIZE * (Get32(header, 24) as int)
    ensures var sound := && HeaderFieldsSound(header) && codec.crc(Unsealed(header)) == Get32(header, 52)
                         && codec.crc(wire) == Get32(header, 48);
            && (!sound ==> Load(codec, header + (wire + rest)) == Err(EIO))
            && (sound ==>
                  var start := StartOf(EntriesAt(wire, 0, Get32(header, 24)), Get64(header, 32), Get64(header, 40));
                  LoadsWhole(codec, header + wire,
                             FromReplay(start, EffectiveWindow(Get16(header, 8), Get32(header, 20)), Get16(header, 8))))
  {
    hide Get16, Get32, Get64, EntriesAt, ReadBase, Replay, FromReplay, Unsealed, HeaderFieldsSound, WithSortedChunks;
    BaseReads(codec, header, wire, rest);
    BaseReads(codec, header, wire, []);
    assert wire + [] == wire && (header + (wire + rest))[..8] == header[..8];
    var start := StartOf(EntriesAt(wire, 0, Get32(header, 24)), Get64(header, 32), Get64(header, 40));
    ReplayAtEnd(codec, header + wire, start);
    EndOfReplay(start, EffectiveWindow(Get16(header, 8), Get32(header, 20)), Get16(header, 8));
  }

  /** A file that ends within its base image does not load. */
  lemma CutBaseRefused(codec: Codec, s: seq<byte>)
    requires |s| >= 8 && s[..8] == META_MAGIC
    requires |s| < HEADER_SIZE || |s| < HEADER_SIZE + ENTRY_SIZE * (Get32(s, 24) as int)
    ensures Load(codec, s) == Err(EIO)
  {
  }

  /** A file that is too short for the count it states, or for any, does not load either. */
  lemma ShortLegacyRefused(codec: Codec, s: seq<byte>)
    requires |s| < 8 || (s[..8] != META_MAGIC && (|s| < 12 || |s| < 12 + ENTRY_SIZE * (Get32(s, 0) as int)))
    ensures Load(codec, s) == Err(EIO)
  {
  }

  /** The entries of a saved image are damaged, and their checksum with them. */
  lemma DamagedEntriesRefused(codec: Codec, version: u16, window: u32, chunks: seq<Chunk>, size: u64, sequence: u64,
                              wire: seq<byte>, rest: seq<byte>)
    requires |chunks| <= U32_MAX && |wire| == ENTRY_SIZE * |chunks| && codec.crc(wire) != codec.crc(EntriesBytes(chunks))
    ensures Load(codec, SealedHeader(codec, version, window, |chunks|, size, sequence, codec.crc(EntriesBytes(chunks)))
                        + (wire + rest)) == Err(EIO)
  {
    hide SealedHeader, EntriesBytes, Load, Get16, Get32, Get64, EntriesAt;
    var header := SealedHeader(codec, version, window, |chunks|, size, sequence, codec.crc(EntriesBytes(chunks)));
    WholeFileStands(header);
    SealedHeaderReads(codec, header, version, window, |chunks|, size, sequence, codec.crc(EntriesBytes(chunks)));
    BaseTakenExactlyWhen(codec, header, wire, rest);
  }

  /** Whatever is wrong with a file, the loader says `EIO`. */
  lemma LoadErrorsAreEIO(codec: Codec, s: seq<byte>)
    ensures Load(codec, s).Err? ==> Load(codec, s) == Err(EIO)
  {
    hide ReadBase;
    if ReadBase(codec, s).Ok? { ReplayErrorsAreEIO(codec, s, ReadBase(codec, s).value.start); }
    BaseErrorsAreEIO(codec, s);
    hide Replay, WithSortedChunks, IsPacked;
  }

  lemma BaseErrorsAreEIO(codec: Codec, s: seq<byte>)
    ensures ReadBase(codec, s).Err? ==> ReadBase(codec, s) == Err(EIO)
  {
  }

  lemma {:induction false} ReplayErrorsAreEIO(codec: Codec, s: seq<byte>, j: Replayed)
    requires j.cursor <= |s|
    ensures Replay(codec, s, j).Err? ==> Replay(codec, s, j) == Err(EIO)
    decreases |s| - j.cursor
  {
    hide Applies, Apply;
    match ReplayStep(codec, s, j)
    case Stop(_) =>
    case More(next) => ReplayErrorsAreEIO(codec, s, next);
  }
}
