/**
 Reading while others work (src/fuse_ops/file.c:561-761, 766-835).  Writes, truncates and compactions
 hold the path lock, a read only its handle's cache lock: mutations fall between the rounds of a read
 and between the blobs of a round, hand-overs of the handle between rounds.
 */
module Interference {
  import opened Basics
  import opened Windows
  import opened ChunkMap
  import opened ChunkIO
  import opened Journal
  import opened JournalProofs
  import opened MetadataFile
  import opened FileState
  import opened Reader
  import opened Handles
  import Compaction

  /** Any mutation by somebody else on the generation. */
  method OtherMutation(g: Generation)
    requires g.Valid()
    modifies g, g.data, g.meta
    ensures Advances(g)
    ensures g.meta == old(g.meta) || fresh(g.meta)
  {
    hide Load, Stored, Healthy, FileContent, Overlaid, Resized, Codec.Lawful;
    var size: int, bytes: seq<byte>, healthy: bool := *, *, *;
    if * {
      if size <= OFF_MAX {
        var fault := ChooseFault();
        var r, renamed := TruncatePath(g, size, fault, healthy);
      }
    } else {
      var loaded := LoadMap(g.codec, g.meta, true);
      var other := new Handle(g, true, loaded.value);
      if * {
        var r, full, partial := other.Write(size, bytes, healthy);
      } else if size <= OFF_MAX {
        var r := other.Truncate(size, healthy);
      }
    }
  }

  /** The contents a file goes through, the first and the last of them known. */
  predicate From(moments: seq<seq<byte>>, first: seq<byte>, last: seq<byte>) {
    0 < |moments| && moments[0] == first && moments[|moments| - 1] == last
  }

  /** Any number of mutations by others. */
  method Others(g: Generation) returns (ghost moments: seq<seq<byte>>)
    requires g.Valid()
    modifies g, g.data, g.meta
    ensures Advances(g) && (g.meta == old(g.meta) || fresh(g.meta))
    ensures From(moments, old(g.Content()), g.Content())
  {
    hide Load, Stored, Healthy, FileContent, Codec.Lawful;
    moments := [g.Content()];
    var n: nat := *;
    while n > 0
      invariant Advances(g) && (g.meta == old(g.meta) || fresh(g.meta))
      invariant From(moments, old(g.Content()), g.Content())
    {
      OtherMutation(g);
      moments, n := moments + [g.Content()], n - 1;
    }
  }

  /** One round of the read loop, after others were at work. */
  method PieceAmid(g: Generation, inode: Inode, ghost data: seq<byte>, count: nat, cur: nat, healthy: bool)
    returns (r: Result<seq<byte>>, ghost moments: seq<seq<byte>>)
    requires g.Valid() && data <= g.data.bytes && Healthy(g.codec, data, inode)
    requires inode.fullyPacked ==> IsPacked(inode.chunks, inode.windowSize)
    requires 0 < count && cur < inode.logicalSize
    modifies g, g.data, g.meta
    ensures Advances(g) && (g.meta == old(g.meta) || fresh(g.meta))
    ensures From(moments, old(g.Content()), g.Content())
    ensures r.Ok? ==>
              && 0 < |r.value| <= count && cur + |r.value| <= inode.logicalSize
              && forall k :: 0 <= k < |r.value| ==> r.value[k] == FileContent(g.codec, data, inode)[cur + k]
    ensures healthy ==> r.Ok?
  {
    hide Load, Stored, Healthy, Codec.Lawful, WellFormed, IsPacked;
    moments := Others(g);
    StillReadable(g.codec, data, g.data.bytes, inode);
    ContentIs(g.codec, data, inode);
    r := ReadRound(g.codec, g.data, inode.chunks, inode.logicalSize, inode.fullyPacked, inode.windowSize, count, cur, healthy);
  }

  /** `read_from_inode` with others at work before every blob: the bytes are those of the map it started with. */
  method ReadPieces(g: Generation, inode: Inode, buf: array<byte>, count: nat, offset: int, healthy: bool)
    returns (r: Result<nat>, ghost moments: seq<seq<byte>>)
    requires g.Valid() && Healthy(g.codec, g.data.bytes, inode)
    requires inode.fullyPacked ==> IsPacked(inode.chunks, inode.windowSize)
    requires count <= buf.Length
    modifies buf, g, g.data, g.meta
    ensures Advances(g) && (g.meta == old(g.meta) || fresh(g.meta))
    ensures From(moments, old(g.Content()), g.Content())
    ensures offset < 0 ==> r.Err?
    ensures 0 <= offset && r.Ok? ==>
              var content := FileContent(g.codec, old(g.data.bytes), inode);
              && r.value == (if offset < |content| then Min(count, |content| - offset) else 0)
              && (offset < |content| ==> buf[..r.value] == content[offset..offset + r.value])
              && buf[r.value..] == old(buf[r.value..])
    ensures healthy && 0 <= offset ==> r.Ok?
  {
    hide Load, Stored, Healthy, Codec.Lawful, FileContent, IsPacked;
    ghost var data := g.data.bytes;
    ghost var content := FileContent(g.codec, data, inode);
    ContentIs(g.codec, data, inode);
    assert |content| == inode.logicalSize;
    moments := [g.Content()];
    if offset < 0 { return Err(EINVAL), moments; }
    if offset >= inode.logicalSize { return Ok(0), moments; }
    var done := 0;
    while done < count && offset + done < inode.logicalSize
      invariant Advances(g) && (g.meta == old(g.meta) || fresh(g.meta)) && data <= g.data.bytes
      invariant From(moments, old(g.Content()), g.Content())
      invariant 0 <= done <= count && offset + done <= inode.logicalSize
      invariant forall k :: 0 <= k < done ==> buf[k] == content[offset + k]
      invariant forall k :: done <= k < buf.Length ==> buf[k] == old(buf[k])
    {
      var piece;
      ghost var more;
      piece, more := PieceAmid(g, inode, data, count - done, offset + done, healthy);
      moments := moments + more;
      if piece.Err? { return Err(piece.error), moments; }
      CopyIn(buf, done, piece.value, content, offset);
      done := done + |piece.value|;
    }
    r := Ok(done);
  }

  method CopyIn(buf: array<byte>, at: nat, piece: seq<byte>, ghost content: seq<byte>, offset: nat)
    requires at + |piece| <= buf.Length && offset + at + |piece| <= |content|
    requires forall k :: 0 <= k < |piece| ==> piece[k] == content[offset + at + k]
    modifies buf
    ensures forall k :: at <= k < at + |piece| ==> buf[k] == content[offset + k]
    ensures forall k :: (0 <= k < at || at + |piece| <= k < buf.Length) ==> buf[k] == old(buf[k])
  {
    forall k | 0 <= k < |piece| {
      buf[at + k] := piece[k];
    }
    forall k | at <= k < at + |piece|
      ensures buf[k] == content[offset + k]
    {
      assert buf[at + (k - at)] == piece[k - at];
    }
  }

  /** A compaction of the handle's generation: a writer is handed over, a reader stays. */
  method HandedOver(h: Handle)
    requires h.Sound()
    modifies h, h.generation
    ensures h.Sound() && (old(h.Current()) ==> h.Current())
    ensures h.generation.Content() == old(h.generation.Content())
    ensures h.generation == old(h.generation) || fresh(h.generation)
    ensures h.generation.data == old(h.generation.data) || fresh(h.generation.data)
    ensures h.generation.meta == old(h.generation.meta) || fresh(h.generation.meta)
  {
    hide Load, Stored, Healthy, FileContent, Codec.Lawful;
    var ordinary: bool, adaptive: Option<Compaction.Sample>, healthy: bool := *, *, *;
    var r := Compaction.Compact(h.generation, ordinary, adaptive, healthy);
    if r.Ok? && r.value.Some? {
      h.generation.MarkSuperseded();
      if h.writable { h.Rebind(r.value.value.0, r.value.value.1); }
    }
  }

  /** Whatever happens to a handle while its cache lock is free. */
  method Between(h: Handle) returns (ghost moments: seq<seq<byte>>)
    requires h.Sound()
    modifies h, h.generation, h.generation.data, h.generation.meta
    ensures h.Sound() && From(moments, old(h.generation.Content()), h.generation.Content())
    ensures h.generation == old(h.generation) || fresh(h.generation)
    ensures h.generation.data == old(h.generation.data) || fresh(h.generation.data)
    ensures h.generation.meta == old(h.generation.meta) || fresh(h.generation.meta)
  {
    hide Load, Stored, Healthy, FileContent, Codec.Lawful;
    moments := [h.generation.Content()];
    var n: nat := *;
    while n > 0
      invariant h.Sound() && From(moments, old(h.generation.Content()), h.generation.Content())
      invariant h.generation == old(h.generation) || fresh(h.generation)
      invariant h.generation.data == old(h.generation.data) || fresh(h.generation.data)
      invariant h.generation.meta == old(h.generation.meta) || fresh(h.generation.meta)
    {
      if * {
        OtherMutation(h.generation);
      } else {
        HandedOver(h);
      }
      moments, n := moments + [h.generation.Content()], n - 1;
    }
  }

  /** The read of a round whose cache is current. */
  method ReadCurrent(h: Handle, buf: array<byte>, count: nat, offset: int, healthy: bool)
    returns (r: Result<nat>, ghost moments: seq<seq<byte>>)
    requires h.Sound() && h.Current() && count <= buf.Length
    modifies buf, h.generation, h.generation.data, h.generation.meta
    ensures h.Sound() && From(moments, old(h.generation.Content()), h.generation.Content())
    ensures offset < 0 ==> r.Err?
    ensures 0 <= offset && r.Ok? ==>
              var content := old(h.generation.Content());
              && r.value == (if offset < |content| then Min(count, |content| - offset) else 0)
              && (offset < |content| ==> buf[..r.value] == content[offset..offset + r.value])
              && buf[r.value..] == old(buf[r.value..])
    ensures healthy && 0 <= offset ==> r.Ok?
  {
    hide Load, Stored, Healthy, FileContent, Codec.Lawful, IsPacked;
    PackedFlag(h.generation.codec, h.generation.meta.bytes, h.inode);
    r, moments := ReadPieces(h.generation, h.inode, buf, count, offset, healthy);
  }

  /**
   `myfs_read` amid all that.  `moments` are the contents the handle's file goes through meanwhile.
   The read is atomic: it delivers a slice of one of them.  Only a gap after a refresh in which others
   were busy costs a further round, and `busy` bounds those.
   */
  method ReadAmid(h: Handle, buf: array<byte>, count: nat, offset: int, busy: nat, healthy: bool)
    returns (r: Result<nat>, rounds: nat, ghost moments: seq<seq<byte>>, ghost at: nat)
    requires h.Sound() && count <= buf.Length
    modifies h, buf, h.generation, h.generation.data, h.generation.meta
    ensures h.Sound() && (h.generation == old(h.generation) || fresh(h.generation))
    ensures From(moments, old(h.generation.Content()), h.generation.Content()) && at < |moments|
    ensures 1 <= rounds <= busy + 2
    ensures offset < 0 ==> r.Err?
    ensures 0 <= offset && r.Ok? ==>
              var content := moments[at];
              && r.value == (if offset < |content| then Min(count, |content| - offset) else 0)
              && (offset < |content| ==> buf[..r.value] == content[offset..offset + r.value])
              && buf[r.value..] == old(buf[r.value..])
    ensures healthy && 0 <= offset ==> r.Ok?
  {
    hide Load, Stored, Healthy, FileContent, Codec.Lawful;
    var left := busy;
    rounds, moments, at := 0, [h.generation.Content()], 0;
    while true
      invariant h.Sound() && buf[..] == old(buf[..])
      invariant h.generation == old(h.generation) || fresh(h.generation)
      invariant h.generation.data == old(h.generation.data) || fresh(h.generation.data)
      invariant h.generation.meta == old(h.generation.meta) || fresh(h.generation.meta)
      invariant From(moments, old(h.generation.Content()), h.generation.Content())
      invariant 0 <= left <= busy && (rounds == 0 || rounds <= busy - left || (h.Current() && rounds == busy - left + 1))
      decreases left, if h.Current() then 0 else 1
    {
      rounds, at := rounds + 1, |moments| - 1;
      if h.cacheValid && h.seen == h.generation.epoch {
        ghost var more;
        r, more := ReadCurrent(h, buf, count, offset, healthy);
        moments := moments + more;
        return;
      }
      assert rounds <= busy - left + 1;
      ghost var before := Between(h);
      moments := moments + before;
      var refreshed := h.Refresh(healthy);
      if refreshed.Err? { return Err(refreshed.error), rounds, moments, at; }
      if left > 0 {
        if * {
          ghost var after := Between(h);
          moments, left := moments + after, left - 1;
        }
      }
    }
  }
}
