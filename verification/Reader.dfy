/**
 Reading (src/fuse_ops/file.c:638-761): binary search by window for packed maps, a linear scan for
 the rest, zeros for holes.
 */
module Reader {
  import opened Basics
  import opened Windows
  import opened ChunkMap
  import opened ChunkIO

  /** The first chunk covering `p` at or after index `from`: the permanent fallback of the source. */
  function FirstCovering(chunks: seq<Chunk>, p: int, from: nat): (r: Option<nat>)
    requires from <= |chunks|
    ensures r.Some? ==> from <= r.value < |chunks| && chunks[r.value].Covers(p)
    ensures r.None? ==> forall i :: from <= i < |chunks| ==> !chunks[i].Covers(p)
    decreases |chunks| - from
  {
    if from == |chunks| then None
    else if chunks[from].Covers(p) then Some(from)
    else FirstCovering(chunks, p, from + 1)
  }

  method FindLinear(chunks: seq<Chunk>, p: int) returns (r: Option<nat>)
    ensures r == FirstCovering(chunks, p, 0)
  {
    for i := 0 to |chunks|
      invariant FirstCovering(chunks, p, 0) == FirstCovering(chunks, p, i)
    {
      if chunks[i].Covers(p) { return Some(i); }
    }
    r := None;
  }

  /** On a packed map a chunk covering `p` can only start the window of `p`. */
  lemma PackedCoverStartsWindow(chunks: seq<Chunk>, w: int, p: int, lo: nat)
    requires IsPacked(chunks, w) && lo <= |chunks|
    requires forall i :: 0 <= i < lo ==> chunks[i].logicalOffset < Base(p, w)
    requires forall i :: lo <= i < |chunks| ==> Base(p, w) <= chunks[i].logicalOffset
    ensures FirstCovering(chunks, p, 0) ==
            if lo < |chunks| && chunks[lo].logicalOffset == Base(p, w) && p < chunks[lo].End() then Some(lo) else None
  {
    BaseBounds(p, w);
    var r := FirstCovering(chunks, p, 0);
    if r.Some? {
      PackedChunkInOneWindow(chunks, w, r.value, p);
      if lo < r.value { PackedIncreasing(chunks, w, lo, r.value); }
    }
  }

  /** The binary search for packed maps finds what the linear scan finds. */
  method FindPacked(chunks: seq<Chunk>, w: int, p: int) returns (r: Option<nat>)
    requires IsPacked(chunks, w)
    ensures r == FirstCovering(chunks, p, 0)
  {
    var want := Base(p, w);
    var lo, hi := 0, |chunks|;
    while lo < hi
      invariant 0 <= lo <= hi <= |chunks|
      invariant forall i :: 0 <= i < lo ==> chunks[i].logicalOffset < want
      invariant forall i :: hi <= i < |chunks| ==> want <= chunks[i].logicalOffset
    {
      var mid := lo + (hi - lo) / 2;
      if chunks[mid].logicalOffset < want {
        forall i | 0 <= i < mid ensures chunks[i].logicalOffset < want { PackedIncreasing(chunks, w, i, mid); }
        lo := mid + 1;
      } else {
        forall i | mid < i < |chunks| ensures want <= chunks[i].logicalOffset { PackedIncreasing(chunks, w, mid, i); }
        hi := mid;
      }
    }
    PackedCoverStartsWindow(chunks, w, p, lo);
    r := if lo < |chunks| && chunks[lo].logicalOffset == want && p < chunks[lo].End() then Some(lo) else None;
  }

  /** Where the hole at `p` ends: the next chunk, or the end of the file. */
  method HoleEnd(chunks: seq<Chunk>, size: int, p: int) returns (next: int)
    requires Ordered(chunks) && p < size && !Covered(chunks, p)
    ensures p < next
    ensures forall q :: p <= q < next && q < size ==> !Covered(chunks, q)
  {
    next := size;
    for i := 0 to |chunks|
      invariant next == size
      invariant forall j :: 0 <= j < i ==> chunks[j].logicalOffset <= p
    {
      if chunks[i].logicalOffset > p {
        next := chunks[i].logicalOffset;
        LaterChunksStartLater(chunks, i);
        assert forall j :: 0 <= j < i ==> chunks[j].End() <= p by {
          forall j | 0 <= j < i ensures chunks[j].End() <= p { assert !chunks[j].Covers(p); }
        }
        return;
      }
    }
    assert forall j :: 0 <= j < |chunks| ==> chunks[j].End() <= p by {
      forall j | 0 <= j < |chunks| ensures chunks[j].End() <= p { assert !chunks[j].Covers(p); }
    }
  }

  lemma ChunkSlice(codec: Codec, data: seq<byte>, chunks: seq<Chunk>, i: nat, cur: int, piece: seq<byte>)
    requires Ordered(chunks) && i < |chunks| && Payload(codec, data, chunks[i]).Some?
    requires chunks[i].logicalOffset <= cur && cur + |piece| <= chunks[i].End()
    requires var at := cur - chunks[i].logicalOffset; piece == Payload(codec, data, chunks[i]).value[at..at + |piece|]
    ensures forall k :: 0 <= k < |piece| ==> piece[k] == ByteAt(codec, data, chunks, cur + k)
  {
    hide Payload;
    forall k | 0 <= k < |piece|
      ensures piece[k] == ByteAt(codec, data, chunks, cur + k)
    {
      ByteAtChunk(codec, data, chunks, i, cur + k);
    }
  }

  /** One round of the read loop delivers at least one byte of the content. */
  method ReadRound(codec: Codec, fd: DataFile, chunks: seq<Chunk>, size: nat, packed: bool, w: int,
                   remaining: nat, cur: nat, healthy: bool) returns (r: Result<seq<byte>>)
    requires WellFormed(codec, fd.bytes, chunks, size) && (packed ==> IsPacked(chunks, w))
    requires 0 < remaining && cur < size
    ensures r.Ok? ==>
              && 0 < |r.value| <= remaining && cur + |r.value| <= size
              && forall k :: 0 <= k < |r.value| ==> r.value[k] == ByteAt(codec, fd.bytes, chunks, cur + k)
    ensures healthy ==> r.Ok?
  {
    var idx: Option<nat>;
    if packed {
      idx := FindPacked(chunks, w, cur);
    } else {
      idx := FindLinear(chunks, cur);
    }
    if idx.None? {
      var next := HoleEnd(chunks, size, cur);
      var n := Min(remaining, Min(next - cur, size - cur));
      r := Ok(Zeros(n));
    } else {
      var c := chunks[idx.value];
      assert Readable(codec, fd.bytes, c);
      var at := cur - c.logicalOffset;
      var n := Min(remaining, Min(c.storedSize - at, size - cur));
      if !healthy {
        if * { return Err(ENOMEM); }
      }
      var payload := LoadPayload(codec, fd, c, healthy);
      if payload.Err? { return Err(EIO); }
      r := Ok(payload.value[at..at + n]);
      ChunkSlice(codec, fd.bytes, chunks, idx.value, cur, r.value);
    }
  }

  /** `read_from_inode`: the requested slice of the content, cut at the end of the file. */
  method ReadFromInode(codec: Codec, fd: DataFile, chunks: seq<Chunk>, size: nat, packed: bool, w: int,
                       buf: array<byte>, count: nat, offset: int, healthy: bool) returns (r: Result<nat>)
    requires WellFormed(codec, fd.bytes, chunks, size) && (packed ==> IsPacked(chunks, w))
    requires count <= buf.Length
    modifies buf
    ensures offset < 0 ==> r == Err(EINVAL)
    ensures 0 <= offset && r.Ok? ==>
              && r.value == (if offset < size then Min(count, size - offset) else 0)
              && (offset < size ==> buf[..r.value] == Content(codec, fd.bytes, chunks, size)[offset..offset + r.value])
              && buf[r.value..] == old(buf[r.value..])
    ensures healthy && 0 <= offset ==> r.Ok?
  {
    if offset < 0 { return Err(EINVAL); }
    if offset >= size { return Ok(0); }
    var done := 0;
    while done < count && offset + done < size
      invariant 0 <= done <= count && offset + done <= size
      invariant forall k :: 0 <= k < done ==> buf[k] == ByteAt(codec, fd.bytes, chunks, offset + k)
      invariant forall k :: done <= k < buf.Length ==> buf[k] == old(buf[k])
    {
      hide *;
      var piece := ReadRound(codec, fd, chunks, size, packed, w, count - done, offset + done, healthy);
      if piece.Err? { return Err(piece.error); }
      var n := |piece.value|;
      forall k | 0 <= k < n {
        buf[done + k] := piece.value[k];
      }
      forall k | 0 <= k < done + n
        ensures buf[k] == ByteAt(codec, fd.bytes, chunks, offset + k)
      {
        if done <= k { assert buf[k] == piece.value[k - done]; }
      }
      done := done + n;
    }
    r := Ok(done);
  }
}
