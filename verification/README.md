# myfs: a verified model of the storage engine

myfs is a compressed filesystem. A logical file is an append-only data file of compressed blobs and
a chunk map that says which blob holds which bytes. The map lives in a journaled metadata file: a
base image, then delta records. Background compaction replaces the pair by a new *generation*, named
by a `.current` pointer, and hands live writers over to it.

This project models that engine in Dafny and proves what it is for. `dafny verify dfyconfig.toml`
checks everything.

## How the files fit together

| file | part of the program |
|---|---|
| `Basics`, `Lists` | bytes, widths, error codes, results; lists of distinct elements |
| `Windows`, `ChunkMap` | window arithmetic; what a chunk map over a data file means: a `seq<byte>` |
| `Repack`, `ChunkIO` | the repacking engine: its meaning on values, and the loops over buffers and blobs |
| `Region`, `WindowStats`, `Reader`, `Truncation` | region fixpoint, write classification, reading, cutting |
| `Wire`, `SortChunks`, `Journal`, `JournalProofs`, `JournalErrors`, `MetadataFile`, `Legacy` | the metadata file: bytes, meaning, round trips, torn tails, refusals, methods that read and write it |
| `FileState`, `Handles`, `Compaction`, `Interference` | one file on values; open handles on a shared generation; rewriting a generation; reading while others work |
| `FileRuns`, `Volume` | whole runs: the plain specification and the class that refines it |
| `Publication`, `PointerSafety`, `Gc`, `Lifecycle`, `Registry`, `Handoff`, `HandoffOutcome` | the generation lifecycle: publication, recovery, collection, hand-over |
| `Tickets`, `CompactQueue`, `TicketFlow`, `TicketLedger`, `TicketRuns`, `TicketFates` | adaptive tickets: one record, the queue, and both with the threads between them |
| `LockTable`, `LockProtocol`, `Scratch` | path locks and scratch leases |

Code that computes is modelled by functions. Code that changes things in place is modelled by methods
on arrays and classes, each tied by its `ensures` to a function or predicate about which the lemmas
speak. Concurrency is modelled as state machines: one action is one critical section or one system
call, and a run is any sequence of enabled actions. Fields keep the program's meaning: `rawSize` is
the length of a blob on disk, `storedSize` the number of bytes it decodes to.

The environment is explicit. A method with `healthy == false` may fail at every allocation and every
transfer, by free choice; with `healthy == true` only the reasons stated in its contract are left.
`SaveFault` and `PointerFate` say where a save or a publication fails. The codec is an arbitrary pair
of functions that undo each other on what was compressed; the CRC is an arbitrary function.

## Main results

* **A file is a byte string.** `Volume.File.Run`: any sequence of opens, writes, truncates, reads and
  compactions, in any sequence of environments, is a run of the specification in `FileRuns`. For those,
  `RunIsPlain` says that the file `.current` names is what the same operations do to one `seq<byte>`,
  `ReadsSeePlainFile` that reads deliver slices of it, `CutBytesStayCut` that truncated bytes never return.
  Where nothing fails every request is answered as it should be, and the file is a function of the
  requests alone (`Volume.File.Run`, `FileRuns.AnsweredRunIsWanted`): from a new file, for a million
  operations (`Volume.NewFileRun`).
* **The journal is atomic.** Any prefix of a metadata file loads as the state after its whole records
  (`LoadOfPrefix`), appending after any load adds exactly one record (`AppendThenLoad`), and a crash in
  the middle of a commit leaves the old or the new file (`CommitIsAtomic`). Damage is refused: a whole
  record is taken exactly if checksum, number and range are right (`JournalErrors.RecordTakenExactlyWhen`), a
  base image exactly if both checksums and its fields are (`BaseTakenExactlyWhen`), and a file made by a
  save and appends with one damaged record does not load (`DamagedRecordRefused`), whatever the CRC is.
* **Repacking preserves meaning** (`ChunkIO.RepackWindows`, `OneChunkPerDataWindow`), the region of a
  write is the least closed one (`Region.FindRegion`), and compaction keeps the content, leaves no
  waste, is then settled, and is made exactly when wanted, with the window asked for (`Compaction.Compact`).
* **`.current` is crash-safe.** In every run whose unlinks are clean - syncs that fail, power losses and
  restarts anywhere else - each value it may have after a crash names a whole generation
  (`PointerSafety.PointerAlwaysSafe`); the collector is safe under every interleaving (`Gc`) and removes
  nothing that may be named again or that a handle is open on (`Lifecycle`): the registry's counts are
  the numbers of open handles in every run (`Publication.RunKeepsCounts`). What is no longer needed can
  go (`PointerSafety.OldGenerationCanGo`, `LeftoversCanGo`, `Gc.CollectedExactlyWhen`). A hand-over never
  shows a mixed handle and never lets a write land elsewhere (`Handoff`); it ends with every writer on the
  new generation, or with nothing changed, or with the old generation closed to writes
  (`HandoffOutcome.HandOverEnds`). A read amid all this is atomic (`Interference.ReadAmid`).
* **No observed event is lost or counted twice**, through claim, queue, merge, refusal, rejection and
  hand-over, whatever steps interleave (`TicketRuns.EveryEventOnce`), and a record awaits a ticket exactly
  when one holder has it (`TicketRuns.OneHolder`). A ticket is held until it is acted on or given back, in
  one of five ways (`TicketFates.HeldUntilItEnds`, `EndsInOneWay`), nobody is ever stuck with one
  (`NobodyStuck`, `WorkEnds`), and a resize is followed by an hour without one (`NoTicketWhileCooling`).
* **Locks, queue and leases** keep their accounts under every interleaving or call sequence, nobody waits
  for a lock that nobody holds (`LockProtocol.NobodyStuck`), and a stop of the worker ends
  (`CompactQueue.StopEnds`).

## Where the code does less than it says

* *A failing operation changes nothing* is false of a truncate by path and of an open with `O_TRUNC`:
  when the directory sync after the rename of the metadata file fails, the error is returned but the
  new file stays. With nothing else failing, a truncate fails and changes the file if and only if that
  sync fails and the size is another one, an open if and only if that sync fails and the file was not
  empty (`Handles.TruncatePath`, `Handles.Open`; over steps `FileRuns.FailureChangesNothing`).
  `Handles.FailedTruncateChanges` and `Handles.FailedOpenChanges` are failing calls.
* *A version 0 file reads back as written* is false when its count and size spell the eight magic bytes of
  the later versions. `Legacy.LegacyRoundTrip` is the equivalence, `Legacy.LegacyRoundTripFails` the input.
* *Collection never removes what may be named again* is false when the removal of `.current` is not
  synced and, besides, the process restarts after it or the last move of `.current` was not synced
  either: recovery does not sync when it finds no `.current`, and the next one collects a generation
  that a power loss may bring back. `PointerSafety.RecoverySafeIffCalm` is the equivalence, in terms of
  which syncs failed and whether the process restarted, `PointerSafety.RecoverySafeIffUnexposed` the one
  over the disk; `RestartDuringUnlinkCanLoseTheFile` and `FailedSyncsCanLoseTheFile` are the two failing
  runs, the second without a restart. Every run that heeds the condition is safe
  (`PointerSafety.HeedfulRunsAreSafe`), and every run with clean unlinks heeds it.
* The `EIO` guard of the region fixpoint and the overflow error of its last window are unreachable
  (`Region.FindRegion`: at most `num_chunks + 1` rounds, and only `EFBIG` for a region beyond the offset range).

## Model

| member | source | states |
|---|---|---|
| Windows.MaskTestAcceptsSevenSizes | src/core/chunkio.c:57-62 | the bit-mask test accepts exactly the seven powers of two from 16 KiB to 1 MiB |
| Windows.CeilLeast | src/core/chunkio.c:69-78 | rounding up gives the least aligned bound; it fails exactly when that bound exceeds 64 bits |
| Windows.BaseUnique | src/core/chunkio.c:64-67 | a window is determined by any position inside it |
| ChunkMap.Payload | src/core/chunkio.c:100-148 | a payload that loads has exactly `stored_size` bytes |
| ChunkMap.Content | src/myfs.h:58-80 | the file a map stands for: `logical_size` bytes, each the covering chunk's byte or zero |
| ChunkMap.AppendKeepsBytes | src/fuse_ops/file.c:1033-1050 | appending blobs disturbs no chunk already readable and no byte of the content |
| ChunkMap.PackedIsOrdered | src/core/chunkio.c:80-94 | the packed test looks at neighbours only, yet gives order and disjointness overall |
| ChunkMap.SpliceByte | src/fuse_ops/file.c:1061-1092 | splicing changes the content inside the region only, and there it is what the new chunks denote |
| ChunkMap.SplicePacked | src/fuse_ops/file.c:1061-1092 | a packed map stays packed when whole windows of it are replaced by packed ones |
| ChunkMap.PackedCount | src/core/chunkio.c:80-94 | a packed map has no more chunks than the file has windows |
| ChunkIO.LoadPayload | src/core/chunkio.c:100-148 | returns the chunk's payload or an error, and no error when the blob is sound and the environment healthy |
| ChunkIO.AppendBlob | src/core/chunkio.c:150-186 | the new chunk stands at the end of the old file and reads back as the payload; it is the compressed frame, or the payload itself where compression fails or does not pay |
| ChunkIO.NextData | src/core/chunkio.c:188-380 | finds the first position at or after the window that holds data; everything skipped is a hole |
| ChunkIO.FillWindow | src/core/chunkio.c:188-380 | the zeroed buffer gathers exactly the bytes of the chunks in the window, and how far data reaches |
| ChunkIO.MergeWindow | src/core/chunkio.c:188-380 | the buffer is the old content overlaid by the patch |
| ChunkIO.RepackStep | src/core/chunkio.c:188-380 | one loop iteration advances by whole windows, stores at most one chunk and keeps all entries sound |
| ChunkIO.RepackWindows | src/core/chunkio.c:197-380 | the new entries denote the old content overlaid by the patch, at most one per window, within the array; the blobs written are exactly theirs; a healthy failure means too many windows or no room |
| Repack.OneChunkPerDataWindow | src/core/chunkio.c:188-380 | a window has a chunk if and only if it holds data, and then exactly one |
| Repack.RepackedIsPacked | src/core/chunkio.c:80-94 | what repacking yields passes the packed test |
| Region.FindRegion | src/fuse_ops/file.c:959-1031 | the run consumed lies inside the region, everything else outside, no smaller closed region exists; at most `num_chunks + 1` rounds, one for a packed map; fails exactly when no closed region fits the offset range |
| Region.Round | src/fuse_ops/file.c:974-1030 | a round closes the region, grows it by at least one chunk, or proves that none exists; growth never happens on a packed map |
| Region.RegionStaysInFile | src/fuse_ops/file.c:959-1031 | a region never reaches beyond the windows of the file and the write |
| WindowStats.Classify | src/fuse_ops/file.c:926-957 | the two counts are the sizes of the sets of windows filled and of windows merged |
| WindowStats.AtMostTwoPartial | src/fuse_ops/file.c:926-957 | at most the first and the last window of a write are merged |
| Reader.FindPacked | src/fuse_ops/file.c:650-757 | the binary search by window finds the same chunk or hole as the linear scan |
| Reader.FindLinear | src/fuse_ops/file.c:650-757 | the fallback finds the first chunk that covers the position |
| Reader.HoleEnd | src/fuse_ops/file.c:650-757 | the hole it reports is non-empty and covered by no chunk |
| Reader.ReadRound | src/fuse_ops/file.c:650-757 | every loop round delivers at least one byte, and the right ones |
| Reader.ReadFromInode | src/fuse_ops/file.c:638-764 | delivers min(size, end - offset) bytes of the content, leaves the rest of the buffer alone |
| Truncation.RewriteTruncated | src/fuse_ops/file.c:265-301 | the rewritten blob decodes to the prefix of the old payload |
| Truncation.Shorten | src/fuse_ops/file.c:386-424 | a chunk that straddles the new end keeps its start and loses its tail, raw or compressed |
| Truncation.CutChunks | src/fuse_ops/file.c:386-424 | the cut map is well formed and agrees with the old one below the new size |
| Wire.EntryRoundTrip | src/core/metadata.c:107-131 | decoding an entry undoes encoding it, wherever it stands |
| Wire.PutEntry | src/core/metadata.c:107-118 | the encoder writes exactly the 32 bytes of the entry and nothing else |
| Wire.Get64Reads | src/core/metadata.c:16-50 | little-endian reading undoes writing |
| SortChunks.SortInPlace | src/core/metadata.c:92-105 | the insertion sort on the array computes `Sorted` |
| SortChunks.SortedIsSorted | src/core/metadata.c:92-105 | the result is sorted by logical offset |
| SortChunks.SortedIsPermutation | src/core/metadata.c:92-105 | the result has the same chunks |
| SortChunks.SortIsIdentity | src/core/metadata.c:345-358 | on a sorted map the load-time sort changes nothing |
| JournalProofs.BaseRoundTrip | src/core/metadata.c:210-271 | a base image is read back field by field, whatever follows it |
| JournalProofs.RecordRoundTrip | src/core/metadata.c:272-345 | a whole delta record is read back as written |
| JournalProofs.TornRecordIgnored | src/core/metadata.c:272-345 | a record cut short anywhere is ignored |
| JournalProofs.UncommittedRecordIgnored | src/core/metadata.c:272-345 | a full-length record without its commit marker is ignored |
| JournalProofs.ReplayOfPrefix | src/core/metadata.c:272-345 | whatever number of journal bytes survives, replay stops after exactly the whole records |
| JournalProofs.LoadOfPrefix | src/core/metadata.c:210-360 | any prefix of the file past the base image loads as the state after the whole records in it |
| JournalProofs.LoadOfWiped | src/core/metadata.c:210-360 | with the last commit marker overwritten the file loads as if the last record had not been written |
| JournalProofs.AppendThenLoad | src/core/metadata.c:486-548 | after any successful load, torn or not, an append yields a file that loads as that state plus the record |
| JournalProofs.AppendIsAtomic | src/core/metadata.c:486-548 | any part of an appended record loads as the state before, the whole record as the state after |
| JournalProofs.TrimmedLoadsSame | src/core/metadata.c:486-548 | cutting the uncommitted tail changes nothing |
| JournalProofs.SaveThenLoad | src/core/metadata.c:409-484 | what was saved is what loads, with an empty journal |
| JournalProofs.V1Loads | src/core/metadata.c:210-271 | a version 1 image gives the same map with the 64 KiB window |
| JournalProofs.SortedLoad | src/core/metadata.c:345-358 | for a sorted map the whole load is the replay: memory order and disk order agree |
| JournalErrors.MadeFileLoads | src/core/metadata.c:210-360 | a file made by a save and appends loads, to its last byte, as the state its records lead to |
| JournalErrors.WrongMagicRefused | src/core/metadata.c:272-345 | after a file that loads whole, bytes that would be a record but do not start with its magic are `EIO` |
| JournalErrors.WrongLengthRefused | src/core/metadata.c:272-345 | so is a record whose length is not that of its entries |
| JournalErrors.TornTailIgnored | src/core/metadata.c:272-345 | a tail too short for its record, or without its commit marker, is as good as none, whatever its bytes |
| JournalErrors.RecordTakenExactlyWhen | src/core/metadata.c:272-345 | a whole committed record is taken if and only if its checksum is that of its body, its number the next one and its range in the map; otherwise the file is refused, whatever follows |
| JournalErrors.DamagedRecordRefused | src/core/metadata.c:272-345 | any one record of a file made by a save and appends, damaged with its frame intact: if checksum, number or range are wrong the file is refused |
| JournalErrors.BaseTakenExactlyWhen | src/core/metadata.c:210-271 | a base image is taken if and only if its header has the checksum it states, its entries too, and its fields are those of a known version; otherwise the file is refused, whatever follows |
| JournalErrors.DamagedEntriesRefused | src/core/metadata.c:210-271 | a saved image whose entries changed, and their checksum with them, is refused |
| JournalErrors.CutBaseRefused | src/core/metadata.c:210-271 | a file that ends within its base image is refused |
| JournalErrors.ShortLegacyRefused | src/core/metadata.c:133-177 | so is a version 0 file too short for the count it states |
| JournalErrors.LoadErrorsAreEIO | src/core/metadata.c:133-376 | whatever is wrong with a file, the loader says `EIO` |
| Legacy.LegacyRoundTrip | src/core/metadata.c:133-177 | a sorted version 0 map reads back if and only if its count and size do not spell the magic |
| Legacy.LegacyRoundTripFails | src/core/metadata.c:362-376 | a version 0 file that does not read back |
| MetadataFile.EncodeHeader | src/core/metadata.c:409-484 | the header buffer, filled field by field and checksummed last, is the sealed header |
| MetadataFile.EncodeRecord | src/core/metadata.c:486-548 | the record buffer is the record's bytes, checksum and marker included |
| MetadataFile.ReplayRecords | src/core/metadata.c:272-345 | the loop computes `Replay`, whose meaning is `ReplayOfPrefix` for what was written and `RecordTakenExactlyWhen` for anything else |
| MetadataFile.LoadMap | src/core/metadata.c:362-376 | loading gives what the file means, or an environment error; what files mean, damaged ones included, is in `JournalProofs`, `JournalErrors` and `Legacy` |
| MetadataFile.SaveMap | src/core/metadata.c:409-484 | the file appears exactly when the rename happened, whole; the error cases and their order |
| MetadataFile.AppendDelta | src/core/metadata.c:486-548 | a success appends exactly one record after the valid end; a failure leaves the file or cuts its uncommitted tail; exactly when it succeeds |
| FileState.WriteRefines | src/fuse_ops/file.c:1061-1092 | the spliced map is well formed and denotes the old content overlaid by the buffer |
| FileState.ShrinkRefines | src/fuse_ops/file.c:386-424 | the cut map denotes the prefix |
| FileState.ExtendRefines | src/fuse_ops/file.c:386-447 | a larger size adds zeros only |
| FileState.TidyIsRoomy | src/fuse_ops/file.c:841-1116 | a packed file of moderate size whose data file is not near its largest has room for a write or truncate |
| FileState.CommitStored | src/core/metadata.c:486-548 | after the append the metadata file loads as the map in memory, and that map is healthy |
| FileState.CommitIsAtomic | src/fuse_ops/file.c:1033-1108 | a crash during a commit leaves the old content, or the new once the record is whole |
| Handles.Generation.MarkSuperseded | src/core/compact.c:1843-1848 | superseding changes no content |
| Handles.AppendRecord | src/core/metadata.c:486-548 | on disk the old or the new map, never anything else; healthy success exactly when the record fits |
| Handles.RewriteRegion | src/fuse_ops/file.c:959-1050 | the region found is stored anew; in a roomy file this cannot fail |
| Handles.PlanWrite | src/fuse_ops/file.c:959-1092 | everything before the commit leaves the file as it was and plans a map that denotes the written file |
| Handles.ResizeMap | src/fuse_ops/file.c:386-447 | the planned map denotes the resized file |
| Handles.TruncatePath | src/fuse_ops/file.c:454-550 | the file is resized exactly when the rename happened, even if an error is returned; with nothing else failing, it fails and changes exactly when the directory sync fails and the size is another one; at most one window is stored anew |
| Handles.PublishMap | src/fuse_ops/file.c:529-549 | the rename decides what is visible, and every handle's cache becomes stale |
| Handles.Open | src/fuse_ops/file.c:187-252 | the new handle is coherent; the file is emptied exactly when the truncating rename happened; with nothing else failing, it fails and changes exactly when the directory sync fails and the file was not empty |
| Handles.ClearPath | src/fuse_ops/file.c:187-252 | the `O_TRUNC` step of open: empty exactly when the rename happened |
| Handles.Create | src/fuse_ops/file.c:131-169 | a new file is empty and its handle coherent; with nothing else failing, exactly when the save succeeds |
| Handles.FailedTruncateChanges | src/fuse_ops/file.c:454-550 | a call that fails and changes the file |
| Handles.FailedOpenChanges | src/fuse_ops/file.c:187-252 | a call that fails and empties the file |
| Handles.Handle.Rebind | src/core/compact.c:1914-1930 | descriptors, map, record and epoch change together and stay coherent |
| Handles.Handle.Refresh | src/fuse_ops/file.c:563-626 | afterwards the cached map is the replay of the metadata file of the current epoch |
| Handles.Handle.SaveCached | src/fuse_ops/file.c:23-49 | whatever fails, the handle stays coherent - an invalid cache goes with an old epoch - and the content is kept |
| Handles.Handle.Checkpoint | src/fuse_ops/file.c:11-49 | when due, the journal is folded into the base image; in health it is short afterwards: fewer than 1024 records, and at most a megabyte or twice the base image |
| Handles.Handle.Prepare | src/fuse_ops/file.c:869-924 | refresh and version 0 conversion keep map, size and window |
| Handles.Handle.Commit | src/fuse_ops/file.c:1091-1106 | memory and disk take over the new map together or not at all; the epoch moves |
| Handles.Handle.Write | src/fuse_ops/file.c:841-1116 | the error order; on success the content is overlaid by the buffer, on failure unchanged; the reported counts; a roomy healthy write succeeds if and only if it is permitted; how far data file and map grow; in health the journal on disk is short afterwards |
| Handles.Handle.Truncate | src/fuse_ops/file.c:314-447 | the error order; on success the content is resized, on failure unchanged; a roomy healthy truncate succeeds if and only if it is permitted; how far data file and map grow; in health the journal on disk is short afterwards |
| Handles.Handle.Read | src/fuse_ops/file.c:766-832 | the requested slice of the current content, after at most one refresh |
| Handles.StillReadable | src/fuse_ops/file.c:763-807 | a map being read denotes the same while others append blobs |
| Compaction.ChooseTarget | src/core/compact.c:41-85 | exactly when a window is halved and when it is doubled, in exact arithmetic despite saturation; always to a valid size |
| Compaction.CopyVerbatim | src/core/compact.c:2105-2131 | every blob is moved, decodes as before, and nothing else is written |
| Compaction.RepackAll | src/core/compact.c:2133-2168 | the repacked map has the same bytes at every position and is packed for the target window |
| Compaction.QuarterRule | src/core/compact.c:2052-2067 | the floating-point threshold is the integer comparison, an empty file included |
| Compaction.Decide | src/core/compact.c:2000-2067 | exactly when a generation is skipped, rewritten, resized or refused |
| Compaction.Compact | src/core/compact.c:1981-2188 | the new generation has the same content in a packed map without waste and needs no further compaction; it is made if and only if a resize is due or an ordinary compaction is asked for and worth while; its window is the target exactly if there is one; in health it succeeds, or refuses a map larger than its data file; the old one is only read |
| Interference.Others | src/fuse_ops/file.c:314-1116 | any number of mutations by others: nothing stored is lost, a new map means a new epoch |
| Interference.ReadPieces | src/fuse_ops/file.c:638-761 | with any number of mutations before every blob, the bytes are those of the map the read started with |
| Interference.HandedOver | src/core/compact.c:1605-1933 | a compaction moves a writer to a generation of the same content and leaves a reader where it is |
| Interference.ReadAmid | src/fuse_ops/file.c:763-807 | amid any mutations and hand-overs the read is atomic - a slice of what the file held at one moment of the call - and each round beyond the second is owed to a gap in which others worked |
| FileRuns.StepIsPlain | src/fuse_ops/file.c:314-1116 | every operation does to the active content what it does to a plain byte string |
| FileRuns.RunIsPlain | src/core/compact.c:1935-2222 | over every run the file `.current` names is the plain file: compaction leaves no trace |
| FileRuns.SnapshotsAreFrozen | src/myfs.h:129-140 | a generation that is no longer active never changes again |
| FileRuns.CutBytesStayCut | src/fuse_ops/file.c:314-447 | bytes cut by a truncate stay zero until written, through any extension, write or compaction |
| FileRuns.FailureChangesNothing | src/fuse_ops/file.c:454-550 | a failed step changes the file if and only if the failure came after a rename and the request was for another size, or to empty a file that was not |
| FileRuns.AcknowledgedWritesAreActive | src/fuse_ops/file.c:861-868 | an acknowledged write went to the generation `.current` names |
| FileRuns.StepKeepsWritersActive | src/core/compact.c:1884-1930 | unless a hand-over fails after publication, every writer stays on the generation `.current` names |
| FileRuns.GenerationsAreMoments | src/core/compact.c:1935-2222 | every generation holds what the active file held at some moment |
| FileRuns.ReadsSeePlainFile | src/fuse_ops/file.c:766-832 | a read delivers a slice of the plain file, of now on the active generation, of one earlier moment on an older one |
| FileRuns.AnsweredStep | src/fuse_ops/file.c:841-1116 | a request answered as it should be leaves what it asks for, and every writer active |
| FileRuns.AnsweredRunIsWanted | src/fuse_ops/file.c:187-1116 | where every request is answered so, the file depends on the requests alone, not on outcomes, compactions or hand-overs |
| Volume.File.Mutate | src/fuse_ops/file.c:314-1116 | a write or truncate through a handle is a step of the specification; with room and in health it succeeds if and only if the handle writes, is not stale and the range is valid |
| Volume.File.ReadAt | src/fuse_ops/file.c:766-832 | a read is a step of the specification, and in health delivers the slice, or the error of a negative offset |
| Volume.File.TruncateActive | src/fuse_ops/file.c:454-550 | a truncate by path is a step of the specification; with room and in health it succeeds if no fault occurs, and is visible though failed exactly if the fault comes after the rename |
| Volume.File.OpenActive | src/fuse_ops/file.c:187-252 | an open is a step of the specification; in health it succeeds without a fault, and the handle is on the active generation |
| Volume.File.HandOver | src/core/compact.c:1884-1930 | exactly the writers of the old generation move; readers stay |
| Volume.File.CompactActive | src/core/compact.c:1935-2222 | a compaction is a step of the specification; deferred while somebody writes; otherwise, in health, a generation is made exactly when worth while, with the window asked for, and what then happens is what the publication allows |
| Volume.File.Perform | src/fuse_ops/file.c:187-1116 | every operation, in every environment, is a step; where nothing fails and there is room it is answered as it should be |
| Volume.File.Run | src/fuse_ops/file.c:187-1116 | every sequence of operations in every sequence of environments is a run; where nothing fails, a packed file with room for them answers every request, and is afterwards exactly what the requests ask for |
| Volume.File.PerformCalmly | src/fuse_ops/file.c:187-1116 | each operation uses up at most a fixed part of the room, so that what is left suffices for the rest |
| Volume.NewFileRun | src/fuse_ops/file.c:131-1116 | a new file has room for a million operations, and then is what they ask for |
| Publication.StepKeepsInv | src/core/path.c:396-430 | every step of publication, recovery, collection, unlink, power loss and restart keeps the invariant, a recovery provided that the absence of `.current`, if it finds none, is durable |
| Publication.CarefulRunsAreSafe | src/core/compact.c:1773-1811 | the general form: if every recovery found the absence of `.current` durable, each value it may have after a crash names a complete generation |
| Publication.RunKeepsCounts | src/core/compact.c:327-404 | in every run each record counts exactly the handles open on its generation |
| Publication.OpenedAndClosed | src/core/compact.c:327-404 | an open file counts on what `.current` named when it was opened, and no more once it is closed |
| Publication.HandOverMovesWriters | src/core/compact.c:1884-1897 | a publication moves exactly the writers of the old generation, durable or not; readers stay; the two counts change by their number, their sum not at all, and no other does |
| Publication.AliasesWaitForReaders | src/core/compact.c:970-1015 | the legacy names are linked anew only while no handle is open on the legacy pair |
| PointerSafety.CarefulIffHeedful | src/core/compact.c:1183-1279 | which runs those are, in terms of failed syncs and restarts |
| PointerSafety.CleanUnlinksStayCalm | src/fuse_ops/dir.c:258-333 | every run in which no removal sync fails and no restart parts a removal from its sync is one of them |
| PointerSafety.HeedfulRunsAreSafe | src/core/compact.c:1773-1811 | in those runs each value `.current` may have after a crash names a complete generation |
| PointerSafety.PointerAlwaysSafe | src/core/compact.c:1773-1811 | in every run with clean unlinks, whatever other syncs fail and wherever power is lost, the same |
| PointerSafety.HeedfulRunsRemoveUnreachable | src/core/compact.c:970-1038 | in heedful runs collection removes only what no handle is open on and what no surviving `.current` can name |
| PointerSafety.RemovesOnlyUnreachable | src/core/compact.c:970-1038 | in runs with clean unlinks, the same |
| PointerSafety.PublicationTakesEffect | src/core/compact.c:1734-1811 | a prepared generation is named after the rename and, once synced, by whatever survives a power loss; the old one then waits for collection; a failure before the rename leaves it unnamed |
| PointerSafety.UnlinkTakesEffect | src/fuse_ops/dir.c:258-333 | an unlink whose syncs succeed removes the name for good, no record owes its aliases, and its last generation can be collected once nobody has it open |
| PointerSafety.PairRemovalTakesEffect | src/fuse_ops/dir.c:258-333 | the same for a file without a pointer |
| PointerSafety.OldGenerationCanGo | src/core/compact.c:970-1094 | once a publication is durable and nobody has the old generation or the legacy pair open, the old one can be marked, its aliases linked, its files removed and its record retired |
| PointerSafety.LeftoversCanGo | src/core/compact.c:1183-1279 | a recovery can collect any generation left behind that is neither named nor open |
| PointerSafety.LegacyLeftoverCanGo | src/core/compact.c:1183-1279 | and it brings back the alias step of a legacy pair that nobody has open |
| PointerSafety.RecoverySafeIffUnexposed | src/core/compact.c:1183-1279 | a recovery that finds no `.current` is harmless if and only if no unopened generation may be named again |
| PointerSafety.RecoverySafeIffCalm | src/core/compact.c:1183-1279 | the same by what can be seen: the removal was synced, or the last move was and the process has not restarted since |
| PointerSafety.HalfUnlinkedIsReachable | src/fuse_ops/dir.c:258-333 | a run from a legacy file to the middle of an unlink |
| PointerSafety.RestartDuringUnlinkCanLoseTheFile | src/fuse_ops/dir.c:258-333 | a failing run: compaction, removal of `.current`, restart; then a recovery collects what a power loss may bring back |
| PointerSafety.UnsyncedIsReachable | src/fuse_ops/dir.c:258-333 | a run from a legacy file to an unlink whose sync fails after a publication whose sync failed |
| PointerSafety.FailedSyncsCanLoseTheFile | src/fuse_ops/dir.c:258-333 | a failing run without a restart: after those two failed syncs a recovery collects what a power loss may bring back |
| Gc.StepKeepsInv | src/core/compact.c:885-1094 | every step keeps handles valid, counts exact, claims current and unlinked records free of alias duties |
| Gc.FreedOnlyWhenUnused | src/core/compact.c:1040-1094 | under every interleaving a record is freed only with no handle and no claim left on it |
| Gc.SettlesOwnClaim | src/core/compact.c:1040-1094 | every settlement of a run finds its claim current, ends it, and touches no other record, handle or claim |
| Gc.SettledOnce | src/core/compact.c:1040-1094 | each claim is settled at most once |
| Gc.FreedNeverSettled | src/core/compact.c:1040-1094 | a freed record is never settled again |
| Gc.CollectorTouchesOnlyTheDead | src/core/compact.c:885-1038 | files go only when inactive and unopened; aliases are replaced only while no handle is on a legacy record; an unlinked record never installs aliases nor touches a recreated pair |
| Gc.RetiredWorkRetires | src/core/compact.c:1040-1094 | under the path lock, retired work always frees its record |
| Gc.CollectedExactlyWhen | src/core/compact.c:885-1094 | a collection frees the record if and only if no handle is on it, the path names something else, the alias step it owes succeeded, and its files were removed or are not its own; otherwise it waits again, its duties as before |
| Gc.MarkedWaits | src/core/compact.c:684-736 | a record that is marked, or whose name is gone, waits for a collector or has one; its duties are noted and not forgotten |
| Gc.ForgottenExactlyWhen | src/core/compact.c:366-404 | closing a handle frees the record if and only if it was the last one on it, and the record neither awaits collection nor is needed |
| Gc.OpenedAndClosed | src/core/compact.c:327-404 | an open file is counted while it is open; closing it leaves a record that others use as it was |
| Lifecycle.CollectorStepsAreEnabled | src/core/compact.c:970-1038 | what the collector decides for a generation is a step the path's state allows; retirement follows removal |
| Lifecycle.LegacyCollectorStepsAreEnabled | src/core/compact.c:970-1038 | collecting the legacy record removes no files |
| Lifecycle.CollectorRemovesOnlyUnreachable | src/core/compact.c:970-1038 | in every run that is heedful or has clean unlinks, the files the collector removes belong to a generation that no surviving `.current` names |
| Registry.Record.Register | src/core/compact.c:327-364 | the handle heads the list and both counts follow |
| Registry.Record.Unregister | src/core/compact.c:366-404 | exactly this handle leaves the list, its links and record are cleared |
| Registry.Record.DetachHandle | src/core/compact.c:1706-1719 | the neighbours are joined and the counts follow |
| Registry.Record.AttachHandle | src/core/compact.c:1721-1732 | the writer heads the new list |
| Registry.Record.CollectWriters | src/core/compact.c:1605-1704 | gathers the writers in list order |
| Registry.CollectedAreTheWriters | src/core/compact.c:1605-1704 | what is gathered is exactly the writers, each once |
| Registry.HandOver | src/core/compact.c:1884-1897 | exactly the writers move, readers keep their order, no reference is lost or made up |
| Registry.InExactlyOneList | src/core/compact.c:327-404 | a handle is in one list, once |
| Handoff.StepKeepsInv | src/core/compact.c:1605-1933 | every micro-step of the hand-over, with readers interleaved, keeps the invariant |
| Handoff.ReadersSeeOneGeneration | src/core/compact.c:1884-1933 | whoever gets a cache lock finds descriptors, storage, map, epoch and record of one generation |
| Handoff.NoWriteElsewhere | src/core/compact.c:1781-1848 | on every exit, and once an unreadable `.current` reads again, a writer is on the generation `.current` names, or stale |
| HandoffOutcome.HandOverEnds | src/core/compact.c:1605-1933 | in every run a hand-over that is back at idle has switched every writer to the new generation with all its parts, or changed nothing, or closed the old generation to writes; whoever did not move is as before |
| HandoffOutcome.NeverStuck | src/core/compact.c:1605-1933 | its next step is always possible, or it waits for a writer's lock whose readers can let go |
| HandoffOutcome.ReadersKeepOut | src/core/compact.c:1605-1704 | a reader keeps the hand-over and the close of its handle out while it reads, and leaves everything as it was |
| Tickets.Record.ExpireCooldown | src/core/compact.c:495-510 | deferred evidence is halved once, when the cooldown ends |
| Tickets.Record.Claim | src/core/compact.c:512-528 | a ticket takes all the evidence, exactly when ripe; at most one is outstanding |
| Tickets.Record.Observe | src/core/compact.c:547-589 | each observed event is counted once, then perhaps claimed, never in cooldown |
| Tickets.Record.ClaimOnRelease | src/core/compact.c:591-618 | only the last writer claims |
| Tickets.Record.RecognisedIsOutstanding | src/core/compact.c:620-639 | while a ticket is awaited, the one the record recognises is the outstanding one |
| Tickets.Record.ScheduleFailed | src/core/compact.c:620-639 | the evidence comes back in full, once; other tickets have no effect |
| Tickets.Record.Reject | src/core/compact.c:1538-1554 | the counts come back, once; other tickets have no effect |
| Tickets.Record.RejectAgain | src/core/compact.c:1538-1554 | turning the same ticket down again, in any way, changes nothing |
| Tickets.Record.Begin | src/core/compact.c:1510-1536 | only the outstanding queued ticket begins |
| Tickets.Record.HandOver | src/core/compact.c:1838-1882 | the statistics pass to the new record exactly once, the ticket acted on is spent |
| CompactQueue.Queue.ScheduleLocked | src/core/compact.c:2319-2405 | the linked list changes as the specification says: merged, appended, busy or out of memory |
| CompactQueue.Queue.TakeHead | src/core/compact.c:2428-2460 | the worker takes the oldest request |
| CompactQueue.Queue.EndsTogether | src/core/compact.c:2319-2460 | head and tail are null together, and only for the empty queue |
| CompactQueue.ScheduleExtends | src/core/compact.c:2319-2405 | one request per path; a demand touches one request only and no earlier demand is lost; the request has the caller's ticket, counts included, or keeps the one it had |
| CompactQueue.StoppedMeansServed | src/core/compact.c:2481-2509 | after stop the queue is empty and every accepted call was served by an executed request |
| CompactQueue.NothingQueuedAfterExit | src/core/compact.c:2428-2509 | after the worker exits nothing is enqueued |
| CompactQueue.TakesOldestFirst | src/core/compact.c:2428-2460 | requests are executed in the order of creation |
| CompactQueue.AcceptedExactlyWhen | src/core/compact.c:2319-2405 | a call is accepted if and only if the worker serves, a request is queued or can be made, and no other ticket is queued for the path; it is then noted with a request that serves it |
| CompactQueue.ServesUntilStopped | src/core/compact.c:2462-2509 | a worker that is started serves until it is told to stop, and accepts nothing from then on |
| CompactQueue.StopEnds | src/core/compact.c:2428-2509 | once told to stop, the worker always has a step to take, each brings its exit nearer and nobody moves it away; then the join goes through with every call served |
| TicketFlow.ScheduleTickets | src/core/compact.c:2319-2405 | scheduling puts at most the caller's ticket into the queue and replaces none, provided no other ticket of the same record is queued for the path |
| TicketFlow.StepKeepsInv | src/core/compact.c:512-639 | every step of every thread keeps one holder per awaited ticket, compactions in order under their locks, and settled tickets unrecognised |
| TicketLedger.StepAccounts | src/core/compact.c:512-639 | a step loses no event and counts none twice |
| TicketRuns.StepKeepsIssued | src/core/compact.c:512-639 | a ticket reaches whoever holds it as it was claimed |
| TicketRuns.EveryEventOnce | src/core/compact.c:547-589 | over every run the events that writes brought are those in records, carried or queued tickets, halved away, spent on a resize or freed with a record |
| TicketRuns.OneHolder | src/core/compact.c:512-639 | a record is queued or in flight if and only if exactly one thread or queued request has its last ticket; in flight if and only if that is a compaction at work under the path lock |
| TicketRuns.SubmitOutcome | src/core/compact.c:2319-2405 | a ticket is accepted if and only if none is queued for the path and a request is there or can be made; no queued ticket is ever replaced; a refused one stays with the caller |
| TicketRuns.RefusedComesBack | src/fuse_ops/file.c:1118-1206 | a refused ticket, or one whose path lock cannot be had, gives its counts and evidence back to its record, which then awaits none |
| TicketRuns.FailAgainChangesNothing | src/fuse_ops/file.c:1118-1206 | reporting a compaction as failed after its ticket was settled has no effect |
| TicketFates.ClaimedExactlyWhen | src/core/compact.c:495-589 | a write claims a ticket if and only if the record awaits none, is not cooling down and has seen enough, halved evidence counted; the ticket takes all events along |
| TicketFates.ActedOnExactlyWhen | src/core/compact.c:1510-1554 | over every run, a compaction acts on its ticket if and only if the active generation is the one it was claimed from; otherwise it goes back with its counts |
| TicketFates.GivesWayExactlyWhen | src/core/compact.c:1960-1965 | over every run, a compaction without a ticket gives way if and only if somebody has one for the active generation |
| TicketFates.HeldUntilItEnds | src/core/compact.c:1935-2222 | a ticket is held until its holder reports failure, turns it down, finds it stale, cannot resolve the path, or has acted on it |
| TicketFates.EndsInOneWay | src/core/compact.c:1538-1882 | acted on, its events are spent, those seen since go to the new generation, which cools down; in any other way they are back in the record, as new evidence only if it never got to a compaction |
| TicketFates.NobodyStuck | src/core/compact.c:1935-2460 | in every state of a run a thread at work can go on, unless it waits for a path that another one has locked, which can |
| TicketFates.WorkEnds | src/core/compact.c:1935-2460 | each step of a thread brings it nearer its end and concerns no other thread |
| TicketFates.DirectWithoutWorker | src/fuse_ops/file.c:1118-1206 | once the worker is being stopped the caller compacts itself, with its ticket, and nothing is queued |
| TicketFates.FreedForGood | src/core/compact.c:366-404 | a freed record takes its events with it and leaves its ticket, if one is out, to its holder; its id never comes back |
| TicketFates.EvidenceIsActedOn | src/core/compact.c:1935-2222 | the whole way, step by possible step: a write ripens a record, its ticket is claimed, queued, taken, begun and acted on; all its events are spent, and the new generation cools down for exactly an hour |
| TicketFates.NoTicketWhileCooling | src/core/compact.c:1844-1882 | over every run, after a resize the new generation claims no ticket for an hour, and an ordinary compaction does not shorten the hour |
| LockTable.Unlink | src/core/lock.c:167-176 | removing an entry from a doubly linked bucket leaves the others linked in order |
| LockTable.Table.Find | src/core/lock.c:152-165 | finds the entry of the path if and only if there is one |
| LockTable.Table.LookUp | src/core/lock.c:203-270 | one more reference to the path, or refused exactly for a long path, a full count or no memory |
| LockTable.Table.Release | src/core/lock.c:178-201 | one reference fewer; the entry goes exactly with the last one |
| LockTable.LinearTable.LookUp | benchmarks/fixtures/lock_table_linear.c:21-51 | the same on the linear list |
| LockTable.LinearTable.Release | benchmarks/fixtures/lock_table_linear.c:53-72 | the same on the linear list |
| LockTable.LookUpBoth | benchmarks/fixtures/lock_table_linear.c:21-51 | both tables accept the same requests and go on meaning the same |
| LockTable.ReleaseBoth | benchmarks/fixtures/lock_table_linear.c:53-72 | both tables reclaim together and go on meaning the same |
| LockProtocol.StepKeepsInv | src/core/lock.c:178-279 | every step of every thread keeps table, threads, owners and counts consistent |
| LockProtocol.MutualExclusion | src/core/lock.c:203-279 | under every interleaving at most one thread holds a path |
| LockProtocol.ReclaimedExactlyWhenUnused | src/core/lock.c:178-201 | an entry is in memory if and only if a holder, waiter or finishing unlocker refers to it |
| LockProtocol.OneEntryPerPath | src/core/lock.c:152-270 | threads share an entry if and only if they asked for the same path |
| LockProtocol.EmptyWhenIdle | src/core/lock.c:178-201 | nothing is left behind |
| LockProtocol.LookUpMeans | src/core/lock.c:203-270 | the look-up step is the look-up of the tables in memory |
| LockProtocol.DropMeans | src/core/lock.c:178-201 | the drop step is the release of the tables in memory |
| LockProtocol.NobodyStuck | src/core/lock.c:203-279 | under every interleaving a thread that asked for a path can go on, and is then nearer its end, if and only if no other thread holds that path |
| LockProtocol.EveryStepIsNearer | src/core/lock.c:178-279 | whatever a thread does once it has asked brings it nearer its end, a failed lock included, and concerns no other thread |
| LockProtocol.LockedAndReleased | src/core/lock.c:178-279 | a path nobody holds is got, and when it is let go the table and every other thread are as before |
| Scratch.Context.Acquire | src/core/chunkio_scratch.c:134-187 | exactly when a request succeeds and when it is served from the retained buffer; live leases keep their memory; capacity only grows, within the role's limit |
| Scratch.Context.Release | src/core/chunkio_scratch.c:189-204 | the lease ends, its slot is free, others are untouched; a second release does nothing |
| Scratch.Context.AcquireTemporary | src/core/chunkio_scratch.c:117-132 | a fresh block of the lease's own |
| Scratch.Context.LeasesAreDisjoint | src/core/chunkio_scratch.c:134-204 | no two live leases share memory, and a slot has at most one |

## Left out

- FUSE callbacks, mounting, directories, `mknod`, `utimens`, logging and test hooks: plumbing without a deep property.
- Zstd, its thread contexts and the magic-byte rule that skips incompressible data: the codec is any pair of functions that undo each other; the bound on a compressed window in `Scratch` stands for a macro of zstd.h, which is not part of this model.
- CRC strength: the checksum is an arbitrary function, so nothing is claimed about arbitrary corruption.
- Partial transfers and EINTR loops: a transfer is whole, or fails after any part of it.
- Failures of a rollback (`src/core/metadata.c:533-538`), of `pthread` mutexes, and wrap-around of epochs, evaluation and claim ids at 2^64; the sequence number does wrap as in the program. The delta count is unbounded here and 32 bits wide there.
- Handles.PlanWrite: a map of 2^32 or more chunks is refused with `ENOMEM`; the program computes that count in 32 bits before it allocates. A write's result is the byte count as an unbounded number, not a C `int`.
- Legacy maps with overlapping chunks, and creating a file over an existing one: excluded, as the program never makes such maps. Files that carry other bytes than a whole struct after a version 0 map are modelled.
- MetadataFile.SaveMap: installing the legacy names after the rename is part of the `AfterRename` fault; temporary file names are not modelled.
- Handles.Generation.MarkSuperseded: the registry record and the storage it describes are one object in `Handles`; `Registry`, `Gc` and `Tickets` model the record by itself.
- Volume.File.Run: the form where nothing fails speaks of packed files of at most a terabyte whose data file is far from its largest; a version 0 map that is not packed, and larger files, are covered one operation at a time, by the room that `Volume.File.Perform` asks for. The file's operations are serialised by the path lock; releasing a handle changes no content and is modelled in `Registry`, `Gc` and `Tickets`. Reads amid mutations and hand-overs are in `Interference.ReadAmid`, whose number of busy gaps is a parameter, as the program's loop has no bound of its own.
- Handoff.NoWriteElsewhere: unlinks are excluded, as after one no pointer is left to compare with; the new descriptors are opened before the locks are taken, which no other thread can see; the order in which locks are taken (`qsort` by address) is arbitrary here.
- Publication.StepKeepsInv: supposes for a recovery what the program does not check; without it the invariant fails, and `PointerSafety` says exactly when it holds.
- PointerSafety.PointerAlwaysSafe: one logical path, ids never reused, and a successful directory sync makes the directory as it is now durable. When a publication's last sync fails the writers follow the visible `.current`, and writes acknowledged after that may be lost with it: this is what the program does, and no durability of content is claimed there.
- Gc.CollectorTouchesOnlyTheDead: supposes that the path lock is held from claim to settlement, as all callers do; the other results do not. Outcomes of resolving storage and of removing files are free.
- Tickets.Record.HandOver: conservation is exact until a total exceeds 64 bits, where the program saturates.
- TicketFlow.StepKeepsInv: a ticket names its record by an id that is never reused, where the program compares storage identities. Work done under the path lock before the queue or a record is touched is one step with it; failures of the registry's own mutex are not modelled.
- CompactQueue.StoppedMeansServed: a request the worker takes counts as executed even if the path lock cannot be allocated for it; `TicketFlow` models that failure.
- LockTable.LookUpBoth: for paths shorter than `PATH_MAX` and counts below the largest `unsigned`; beyond those the linear form has no check to agree with.
- LockTable.Table.LookUp: the quality of the hash is irrelevant and not modelled; initialising a mutex does not fail.
- Destroying the lock table, the registry and a thread's scratch context at exit.
- The order of equal logical offsets cannot arise in a sorted disjoint map; the sort is stable all the same, which is not stated.
- Benchmarks other than the linear lock table.
