/**
 A file with its generations and open handles, and every operation on it: each is a step of the
 plain model of FileRuns, in every environment.
 */
module Volume {
  import opened Basics
  import opened ChunkMap
  import opened ChunkIO
  import opened Journal
  import opened MetadataFile
  import opened FileState
  import opened Handles
  import opened Compaction
  import opened FileRuns
  import opened Lists

  /**
   What becomes of the pointer: nothing, a move that cannot be told from none, or a move, after which
   the new registry record can be made or not.
   */
  datatype PointerFate = NotPublished | Unreadable(moved: bool) | Visible(recordMade: bool)

  /** Generation `g` holds `content` and carries the flag `superseded`. */
  ghost predicate Holds(g: Generation, content: seq<byte>, superseded: bool)
    reads g, g.data, g.meta
  {
    g.Valid() && g.Content() == content && g.superseded == superseded
  }

  /** Handle `h` is bound to `g`. */
  ghost predicate Bound(h: Handle, g: Generation, writer: bool)
    reads h, h.generation, h.generation.meta
  {
    h.generation == g && h.writable == writer && h.Coherent()
  }

  /** No two generations share a file. */
  ghost predicate Apart(gens: seq<Generation>)
    reads gens
  {
    forall i, j :: 0 <= i < |gens| && 0 <= j < |gens| && i != j ==>
      gens[i] != gens[j] && gens[i].data != gens[j].data && gens[i].meta != gens[j].meta
  }

  lemma ValidLoads(g: Generation)
    requires g.Valid()
    ensures Load(g.codec, g.meta.bytes).Ok?
  {
    hide Load, Stored, Healthy, Codec.Lawful;
  }

  /** What a write or truncate through a handle does to the content, given its outcome. */
  ghost predicate Mutates(op: Op, out: Outcome, writer: bool, superseded: bool, content: seq<byte>, content': seq<byte>) {
    if out.Failed? then content' == content
    else if op.Write? then
      && out == Done
      && if |op.buf| == 0 then content' == content
         else writer && !superseded && 0 <= op.offset && op.offset + |op.buf| <= OFF_MAX
              && content' == Overlaid(content, op.offset, op.buf)
    else
      op.TruncateHandle? && out == Done && writer && !superseded && 0 <= op.size && content' == Resized(content, op.size)
  }

  lemma MutationIsStep(v: View, k: nat, op: Op, out: Outcome, content: seq<byte>, v': View)
    requires Shape(v) && k < |v.at| && v' == WithContent(v, v.at[k], content)
    requires (op.Write? || op.TruncateHandle?) && op.handle == k
    requires Mutates(op, out, v.writer[k], v.superseded[v.at[k]], v.contents[v.at[k]], content)
    ensures Shape(v') && Step(v, op, out, v')
  {
    hide Overlaid, Resized;
  }

  lemma MutationAnswers(v: View, k: nat, op: Op, out: Outcome, disk: Inode, data: nat, disk': Inode, data': nat)
    requires Shape(v) && k < |v.at| && (op.Write? || op.TruncateHandle?) && op.handle == k && (out == Done || out.Failed?)
    requires v.at[k] == v.active ==> Grew(disk, data, disk', data') && (out == Done <==> Permitted(op, v.writer[k], v.superseded[v.active]))
    requires v.at[k] != v.active ==> disk' == disk && data' == data && (out == Done <==> Permitted(op, v.writer[k], true))
    ensures Answers(v, op, out) && Grew(disk, data, disk', data')
  {
  }

  lemma PathStep(v: View, op: Op, out: Outcome, content: seq<byte>, v': View)
    requires Shape(v) && v' == WithContent(v, v.active, content) && op.TruncatePath?
    requires out == Done || out.Failed? || out.FailedVisible?
    requires out.Failed? ==> content == v.contents[v.active]
    requires !out.Failed? ==> 0 <= op.size && content == Resized(v.contents[v.active], op.size)
    ensures Shape(v') && Step(v, op, out, v')
  {
    hide Resized;
  }

  lemma PathAnswers(v: View, size: int, out: Outcome)
    requires Shape(v) && (out == Done || out.Failed? || out.FailedVisible?)
    ensures (out == Done <==> 0 <= size) && !out.FailedVisible? ==> Answers(v, TruncatePath(size), out)
  {
  }

  lemma ModestRoom(g: Generation, op: Op)
    requires g.Valid() && Load(g.codec, g.meta.bytes).Ok?
    requires FileState.Tidy(g.Disk()) && Slack(g.Disk(), |g.data.bytes|) >= 0 && Modest(op)
    ensures RoomFor(op, g.Disk(), |g.data.bytes|)
  {
    hide Load, Stored, Healthy, Roomy;
    if op.Write? && 0 <= op.offset {
      TidyIsRoomy(g.codec, g.meta.bytes, g.data.bytes, g.Disk(), op.offset + |op.buf|);
    }
    TidyIsRoomy(g.codec, g.meta.bytes, g.data.bytes, g.Disk(), 0);
  }

  lemma CompactRoom(ordinary: bool, adaptive: Option<Sample>, disk: Inode, data: nat)
    ensures RoomFor(FileRuns.Compact(ordinary, adaptive), disk, data) <==> data <= OFF_MAX && disk.logicalSize <= TERABYTE
    ensures Grew(disk, data, disk, data)
  {
  }

  lemma CompactAnswers(v: View, ordinary: bool, adaptive: Option<Sample>, out: Outcome)
    requires Shape(v)
    ensures out == Done || out == Moved || out.Failed? ==> Answers(v, FileRuns.Compact(ordinary, adaptive), out)
  {
  }

  lemma OpenAnswers(v: View, writable: bool, truncate: bool, out: Outcome)
    requires Shape(v)
    ensures out == Done ==> Answers(v, Open(writable, truncate), out)
  {
  }

  lemma ContentUpdated(v: View, i: nat, content: seq<byte>)
    requires Shape(v) && i < |v.contents|
    ensures var v' := WithContent(v, i, content);
            && Shape(v') && v'.at == v.at && v'.writer == v.writer && v'.superseded == v.superseded && v'.active == v.active
            && |v'.contents| == |v.contents|
            && forall j :: 0 <= j < |v.contents| ==> v'.contents[j] == if j == i then content else v.contents[j]
  {
  }

  lemma OpenStep(v: View, writable: bool, truncate: bool, out: Outcome, content: seq<byte>, attached: bool, v': View)
    requires Shape(v) && (attached <==> out == Done) && (out == Done || out.Failed? || out.FailedVisible?)
    requires v' == if attached then WithContent(v, v.active, content).(at := v.at + [v.active], writer := v.writer + [writable])
                   else WithContent(v, v.active, content)
    requires out.Failed? ==> content == v.contents[v.active]
    requires out.FailedVisible? ==> truncate && content == []
    requires out == Done ==> content == if truncate then [] else v.contents[v.active]
    ensures Step(v, Open(writable, truncate), out, v')
  {
  }

  /** The files have room for what the operation adds. */
  predicate RoomFor(op: Op, disk: Inode, data: nat) {
    match op
    case Write(_, offset, buf) => 0 <= offset && offset + |buf| <= OFF_MAX ==> Roomy(disk, data, offset + |buf|)
    case TruncateHandle(_, _) => Roomy(disk, data, 0)
    case TruncatePath(_) => data + U32_MAX <= OFF_MAX
    case Compact(_, _) => data <= OFF_MAX && disk.logicalSize <= TERABYTE
    case _ => true
  }

  /** `Asked`, for a write or truncate through one handle. */
  predicate Permitted(op: Op, writer: bool, superseded: bool) {
    if op.Write? then |op.buf| == 0 || (writer && !superseded && 0 <= op.offset && op.offset + |op.buf| <= OFF_MAX)
    else op.TruncateHandle? && writer && !superseded && 0 <= op.size
  }

  /** `myfs_write` and `myfs_truncate` on a handle. */
  method MutateHandle(h: Handle, op: Op, healthy: bool) returns (out: Outcome)
    requires h.Sound() && (op.Write? || (op.TruncateHandle? && op.size <= OFF_MAX))
    modifies h, h.generation, h.generation.data, h.generation.meta
    ensures h.generation == old(h.generation) && Advances(h.generation) && h.Sound()
    ensures Mutates(op, out, h.writable, old(h.generation.superseded), old(h.generation.Content()), h.generation.Content())
    ensures healthy && RoomFor(op, old(h.generation.Disk()), |old(h.generation.data.bytes)|) ==>
              && Expands(h.generation)
              && (out == Done <==> Permitted(op, h.writable, old(h.generation.superseded)))
    ensures old(h.generation.superseded) ==> (out == Done <==> Permitted(op, h.writable, true))
    ensures out == Done || out.Failed?
  {
    hide Load, Stored, Healthy, FileContent, Overlaid, Resized, Codec.Lawful, Generation.Valid, Roomy;
    if op.Write? {
      var r, full, partial := h.Write(op.offset, op.buf, healthy);
      out := if r.Ok? then Done else Failed(r.error);
    } else {
      var r := h.Truncate(op.size, healthy);
      out := if r.Ok? then Done else Failed(r.error);
    }
  }

  class File {
    var gens: seq<Generation>
    var active: nat
    var handles: seq<Handle>
    ghost var view: View
    /** Everything the file consists of. */
    ghost var repr: set<object>

    ghost predicate Valid()
      reads this, repr
    {
      && this !in repr
      && (forall i :: 0 <= i < |gens| ==> gens[i] in repr && gens[i].data in repr && gens[i].meta in repr)
      && (forall k :: 0 <= k < |handles| ==> handles[k] in repr)
      && Shape(view) && view.active == active
      && |view.contents| == |gens| && |view.at| == |handles|
      && Apart(gens) && Distinct(handles)
      && (forall i :: 0 <= i < |gens| ==> Holds(gens[i], view.contents[i], view.superseded[i]))
      && (forall k :: 0 <= k < |handles| ==> handles[k].generation == gens[view.at[k]])
      && (forall k :: 0 <= k < |handles| ==> Bound(handles[k], gens[view.at[k]], view.writer[k]))
    }

    /** The active generation holds the content that `view` says. */
    lemma ActiveHolds()
      requires Valid()
      ensures active < |gens| && active < |view.contents|
      ensures gens[active].Valid() && Load(gens[active].codec, gens[active].meta.bytes).Ok?
      ensures gens[active].Content() == view.contents[active]
    {
    }

    /** The map of the active generation, and the size of its data file. */
    ghost function Map(): Inode
      reads this, repr
      requires Valid()
    {
      ActiveHolds();
      gens[active].Disk()
    }

    ghost function DataSize(): nat
      reads this, repr
      requires Valid()
    {
      |gens[active].data.bytes|
    }

    lemma MapIs()
      requires Valid()
      ensures active < |gens| && Load(gens[active].codec, gens[active].meta.bytes).Ok?
      ensures Map() == gens[active].Disk() && DataSize() == |gens[active].data.bytes|
    {
      ActiveHolds();
    }

    /** The objects after a mutation through handle `k`; only the bookkeeping of `view` is left. */
    method MutateObjects(k: nat, op: Op, healthy: bool) returns (out: Outcome, ghost content: seq<byte>)
      requires Valid() && k < |handles|
      requires op.Write? || (op.TruncateHandle? && op.size <= OFF_MAX)
      modifies handles[k], gens[view.at[k]], gens[view.at[k]].data, gens[view.at[k]].meta
      ensures Apart(gens) && Holds(gens[view.at[k]], content, view.superseded[view.at[k]])
      ensures Mutates(op, out, view.writer[k], view.superseded[view.at[k]], view.contents[view.at[k]], content)
      ensures forall j :: 0 <= j < |gens| && j != view.at[k] ==> Holds(gens[j], view.contents[j], view.superseded[j])
      ensures forall j :: 0 <= j < |gens| && j != view.at[k] ==> gens[j].meta == old(gens[j].meta)
      ensures forall m :: 0 <= m < |handles| ==> handles[m].generation == gens[view.at[m]]
      ensures forall m :: 0 <= m < |handles| ==> Bound(handles[m], gens[view.at[m]], view.writer[m])
      ensures gens[view.at[k]].meta == old(gens[view.at[k]].meta) || fresh(gens[view.at[k]].meta)
      ensures view.at[k] < |gens| && active < |gens|
      ensures old(Load(gens[active].codec, gens[active].meta.bytes)).Ok? && Load(gens[active].codec, gens[active].meta.bytes).Ok?
      ensures healthy && view.at[k] == active && RoomFor(op, old(gens[active].Disk()), |old(gens[active].data.bytes)|) ==>
                && Grew(old(gens[active].Disk()), |old(gens[active].data.bytes)|, gens[active].Disk(), |gens[active].data.bytes|)
                && (out == Done <==> Permitted(op, view.writer[k], view.superseded[active]))
      ensures view.at[k] != active ==>
                && gens[active].Disk() == old(gens[active].Disk()) && gens[active].data.bytes == old(gens[active].data.bytes)
                && (out == Done <==> Permitted(op, view.writer[k], true))
      ensures out == Done || out.Failed?
    {
      hide Load, Stored, Healthy, Codec.Lawful, Generation.Valid, Generation.Content, Mutates, RoomFor, Permitted, Grew;
      ActiveHolds();
      ghost var g := gens[view.at[k]];
      assert Holds(g, view.contents[view.at[k]], view.superseded[view.at[k]]) && Bound(handles[k], g, view.writer[k]);
      out := MutateHandle(handles[k], op, healthy);
      ValidLoads(g);
      if view.at[k] != active {
        assert gens[active].meta == old(gens[active].meta) && gens[active].meta.bytes == old(gens[active].meta.bytes);
      }
      content := g.Content();
    }

    /** The books brought up to date when generation `i` has a new content, and perhaps a new metadata file. */
    ghost method Rebook(i: nat, content: seq<byte>)
      requires this !in repr && i < |gens|
      requires forall j :: 0 <= j < |gens| ==> gens[j] in repr && gens[j].data in repr && (j != i ==> gens[j].meta in repr)
      requires forall k :: 0 <= k < |handles| ==> handles[k] in repr
      requires Shape(view) && view.active == active && |view.contents| == |gens| && |view.at| == |handles|
      requires Apart(gens) && Distinct(handles)
      requires Holds(gens[i], content, view.superseded[i])
      requires forall j :: 0 <= j < |gens| && j != i ==> Holds(gens[j], view.contents[j], view.superseded[j])
      requires forall k :: 0 <= k < |handles| ==> handles[k].generation == gens[view.at[k]]
      requires forall k :: 0 <= k < |handles| ==> Bound(handles[k], gens[view.at[k]], view.writer[k])
      modifies this`view, this`repr
      ensures Valid() && view == WithContent(old(view), i, content) && repr == old(repr) + {gens[i].meta}
    {
      hide Holds, Bound, Apart, WithContent;
      repr := repr + {gens[i].meta};
      view := WithContent(view, i, content);
      ContentUpdated(old(view), i, content);
    }

    /** The bookkeeping of a mutation. */
    method MutateBooks(k: nat, op: Op, healthy: bool) returns (out: Outcome)
      requires Valid() && k < |handles|
      requires (op.Write? || (op.TruncateHandle? && op.size <= OFF_MAX)) && op.handle == k
      modifies this, repr
      ensures Valid() && fresh(repr - old(repr)) && Shape(old(view)) && Step(old(view), op, out, view)
      ensures gens == old(gens) && active == old(active) && active < |gens| && k < |old(view).at|
      ensures old(Load(gens[active].codec, gens[active].meta.bytes)).Ok? && Load(gens[active].codec, gens[active].meta.bytes).Ok?
      ensures healthy && old(view).at[k] == active && RoomFor(op, old(gens[active].Disk()), |old(gens[active].data.bytes)|) ==>
                && Grew(old(gens[active].Disk()), |old(gens[active].data.bytes)|, gens[active].Disk(), |gens[active].data.bytes|)
                && (out == Done <==> Permitted(op, old(view).writer[k], old(view).superseded[active]))
      ensures old(view).at[k] != active ==>
                && gens[active].Disk() == old(gens[active].Disk()) && gens[active].data.bytes == old(gens[active].data.bytes)
                && (out == Done <==> Permitted(op, old(view).writer[k], true))
      ensures out == Done || out.Failed?
    {
      hide Holds, Bound, Apart, Step, WithContent, Mutates, RoomFor, Permitted, Grew, Load;
      ghost var content;
      out, content := MutateObjects(k, op, healthy);
      Rebook(view.at[k], content);
      MutationIsStep(old(view), k, op, out, content, view);
    }

    method Mutate(k: nat, op: Op, healthy: bool) returns (out: Outcome)
      requires Valid() && k < |handles|
      requires (op.Write? || (op.TruncateHandle? && op.size <= OFF_MAX)) && op.handle == k
      modifies this, repr
      ensures Valid() && fresh(repr - old(repr)) && Shape(old(view)) && Step(old(view), op, out, view)
      ensures healthy && RoomFor(op, old(Map()), old(DataSize())) ==>
                Answers(old(view), op, out) && Grew(old(Map()), old(DataSize()), Map(), DataSize())
    {
      hide *;
      Counts();
      MapIs();
      ghost var disk, data := Map(), DataSize();
      out := MutateBooks(k, op, healthy);
      MapIs();
      if healthy && RoomFor(op, disk, data) {
        MutationAnswers(old(view), k, op, out, disk, data, Map(), DataSize());
      }
    }

    /** `myfs_read` on a handle. */
    method ReadAt(k: nat, offset: int, count: nat, healthy: bool) returns (out: Outcome)
      requires Valid() && k < |handles|
      modifies this, repr
      ensures Valid() && fresh(repr - old(repr)) && Shape(old(view)) && Step(old(view), Read(k, offset, count), out, view)
      ensures Map() == old(Map()) && DataSize() == old(DataSize())
      ensures healthy ==> Answers(old(view), Read(k, offset, count), out)
    {
      hide Load, Stored, Healthy, Codec.Lawful, Generation.Valid, Generation.Content, Apart;
      MapIs();
      ghost var g := gens[view.at[k]];
      assert Holds(g, view.contents[view.at[k]], view.superseded[view.at[k]]) && Bound(handles[k], g, view.writer[k]);
      var buf := new byte[count];
      var r, rounds := handles[k].Read(buf, count, offset, healthy);
      if r.Err? { return Failed(r.error); }
      out := Bytes(buf[..r.value]);
    }

    /** The data file of the active generation is far from the largest. */
    ghost predicate HasRoom()
      reads this, repr
      requires Valid()
    {
      |gens[active].data.bytes| + U32_MAX <= OFF_MAX
    }

    lemma HasRoomMeans(op: Op)
      requires Valid() && op.TruncatePath?
      ensures RoomFor(op, Map(), DataSize()) <==> HasRoom()
    {
      MapIs();
    }

    /** A tidy file with room left has room for any modest operation. */
    lemma RoomHere(op: Op)
      requires Valid() && FileState.Tidy(Map()) && Slack(Map(), DataSize()) >= 0 && Modest(op)
      ensures RoomFor(op, Map(), DataSize())
    {
      MapIs();
      ActiveHolds();
      var g := gens[active];
      hide Holds, Bound, Apart, Load, Stored, Healthy, Roomy;
      ModestRoom(g, op);
    }

    lemma MapSize()
      requires Valid()
      ensures Map().logicalSize == |Active(view)|
    {
      MapIs();
      ActiveHolds();
      gens[active].DiskPacked();
    }

    /** An operation on the path: it concerns the active generation. */
    method TruncateBooks(size: int, fault: SaveFault, healthy: bool) returns (out: Outcome)
      requires Valid() && size <= OFF_MAX
      modifies this, repr
      ensures Valid() && fresh(repr - old(repr)) && Shape(old(view)) && Step(old(view), TruncatePath(size), out, view)
      ensures gens == old(gens) && active == old(active) && active < |gens|
      ensures old(Load(gens[active].codec, gens[active].meta.bytes)).Ok? && Load(gens[active].codec, gens[active].meta.bytes).Ok?
      ensures Grew(old(gens[active].Disk()), |old(gens[active].data.bytes)|, gens[active].Disk(), |gens[active].data.bytes|)
      ensures out == Done || out.Failed? || out.FailedVisible?
      ensures healthy && old(HasRoom()) ==> (out == Done <==> fault == NoFault && 0 <= size)
      ensures out.FailedVisible? ==> fault == AfterRename
      ensures healthy && old(HasRoom()) ==> (out.FailedVisible? <==> fault == AfterRename && 0 <= size)
    {
      hide Holds, Bound, Apart, Step, WithContent, Resized, Load, Grew;
      ghost var content;
      out, content := TruncateObjects(size, fault, healthy);
      repr := repr + {gens[active].meta};
      view := WithContent(view, active, content);
      ContentUpdated(old(view), active, content);
      PathStep(old(view), TruncatePath(size), out, content, view);
    }

    method TruncateActive(size: int, fault: SaveFault, healthy: bool) returns (out: Outcome)
      requires Valid() && size <= OFF_MAX
      modifies this, repr
      ensures Valid() && fresh(repr - old(repr)) && Shape(old(view)) && Step(old(view), TruncatePath(size), out, view)
      ensures Grew(old(Map()), old(DataSize()), Map(), DataSize())
      ensures out.FailedVisible? ==> fault == AfterRename
      ensures healthy && old(HasRoom()) ==>
                && (out.FailedVisible? <==> fault == AfterRename && 0 <= size)
                && (fault == NoFault ==> Answers(old(view), TruncatePath(size), out))
    {
      hide *;
      Counts();
      MapIs();
      out := TruncateBooks(size, fault, healthy);
      MapIs();
      PathAnswers(old(view), size, out);
    }

    method TruncateObjects(size: int, fault: SaveFault, healthy: bool) returns (out: Outcome, ghost content: seq<byte>)
      requires Valid() && size <= OFF_MAX
      modifies gens[active], gens[active].data
      ensures Apart(gens) && Holds(gens[active], content, view.superseded[active])
      ensures out == Done || out.Failed? || out.FailedVisible?
      ensures active < |gens|
      ensures old(Load(gens[active].codec, gens[active].meta.bytes)).Ok? && Load(gens[active].codec, gens[active].meta.bytes).Ok?
      ensures Grew(old(gens[active].Disk()), |old(gens[active].data.bytes)|, gens[active].Disk(), |gens[active].data.bytes|)
      ensures healthy && old(HasRoom()) ==> (out == Done <==> fault == NoFault && 0 <= size)
      ensures out.FailedVisible? ==> fault == AfterRename
      ensures healthy && old(HasRoom()) ==> (out.FailedVisible? <==> fault == AfterRename && 0 <= size)
      ensures out.Failed? ==> content == view.contents[active]
      ensures !out.Failed? ==> 0 <= size && content == Resized(view.contents[active], size)
      ensures forall j :: 0 <= j < |gens| && j != active ==> Holds(gens[j], view.contents[j], view.superseded[j])
      ensures forall m :: 0 <= m < |handles| ==> handles[m].generation == gens[view.at[m]]
      ensures forall m :: 0 <= m < |handles| ==> Bound(handles[m], gens[view.at[m]], view.writer[m])
      ensures gens[active].meta == old(gens[active].meta) || fresh(gens[active].meta)
    {
      hide Load, Stored, Healthy, Codec.Lawful, Generation.Valid, Generation.Content, Resized, Grew;
      ActiveHolds();
      var g := gens[active];
      assert Holds(g, view.contents[active], view.superseded[active]);
      var r, renamed := Handles.TruncatePath(g, size, fault, healthy);
      ValidLoads(g);
      content := g.Content();
      out := if r.Ok? then Done else if renamed then FailedVisible(r.error) else Failed(r.error);
    }

    /** `myfs_open`. */
    method OpenActive(writable: bool, truncate: bool, fault: SaveFault, healthy: bool) returns (out: Outcome)
      requires Valid()
      modifies this, repr
      ensures Valid() && fresh(repr - old(repr)) && Shape(old(view)) && Step(old(view), Open(writable, truncate), out, view)
      ensures Grew(old(Map()), old(DataSize()), Map(), DataSize())
      ensures out.FailedVisible? ==> truncate && fault != BeforeRename
      ensures healthy ==> (out.FailedVisible? <==> truncate && fault == AfterRename)
      ensures healthy && fault == NoFault ==> Answers(old(view), Open(writable, truncate), out)
    {
      hide Valid, Holds, Apart, Step, Bound, Grew, Answers, Map, DataSize, Load;
      MapIs();
      ghost var content;
      var h;
      out, h, content := OpenCleared(writable, truncate, fault, healthy);
      MapIs();
      if h.Some? { Attach(h.value); MapIs(); }
      OpenStep(old(view), writable, truncate, out, content, h.Some?, view);
      OpenAnswers(old(view), writable, truncate, out);
    }

    /** The clearing of a truncating open; the handle is not attached yet. */
    method OpenCleared(writable: bool, truncate: bool, fault: SaveFault, healthy: bool)
      returns (out: Outcome, h: Option<Handle>, ghost content: seq<byte>)
      requires Valid()
      modifies this`view, this`repr, repr
      ensures Valid() && fresh(repr - old(repr)) && Shape(old(view)) && view == WithContent(old(view), old(view).active, content)
      ensures gens == old(gens) && active == old(active) && active < |gens|
      ensures old(Load(gens[active].codec, gens[active].meta.bytes)).Ok? && Load(gens[active].codec, gens[active].meta.bytes).Ok?
      ensures Grew(old(gens[active].Disk()), |old(gens[active].data.bytes)|, gens[active].Disk(), |gens[active].data.bytes|)
      ensures healthy && fault == NoFault ==> out == Done
      ensures out == Done || out.Failed? || out.FailedVisible?
      ensures h.Some? <==> out == Done
      ensures h.Some? ==> fresh(h.value) && h.value !in repr && h.value.writable == writable
      ensures h.Some? ==> active < |gens| && h.value.generation == gens[active] && Bound(h.value, gens[active], writable)
      ensures out.Failed? ==> content == old(view).contents[old(view).active]
      ensures out.FailedVisible? ==> truncate && fault != BeforeRename && content == []
      ensures healthy ==> (out.FailedVisible? <==> truncate && fault == AfterRename)
      ensures out == Done ==> content == if truncate then [] else old(view).contents[old(view).active]
    {
      hide Holds, Bound, Apart, WithContent, Grew, Load;
      out, h, content := OpenObjects(writable, truncate, fault, healthy);
      repr := repr + {gens[active].meta};
      view := WithContent(view, active, content);
      ContentUpdated(old(view), active, content);
      assert h.Some? ==> h.value as object != gens[active].meta;
    }

    /** Registering a new handle with the active generation. */
    method Attach(h: Handle)
      requires Valid() && h !in repr && h != this as object && active < |gens|
      requires h.generation == gens[active] && Bound(h, gens[active], h.writable)
      modifies this
      ensures Valid() && repr == old(repr) + {h} && gens == old(gens) && active == old(active)
      ensures view == old(view).(at := old(view).at + [old(view).active], writer := old(view).writer + [h.writable])
    {
      hide Holds, Bound, Apart;
      handles := handles + [h];
      repr := repr + {h};
      view := view.(at := view.at + [active], writer := view.writer + [h.writable]);
    }

    method OpenObjects(writable: bool, truncate: bool, fault: SaveFault, healthy: bool)
      returns (out: Outcome, h: Option<Handle>, ghost content: seq<byte>)
      requires Valid()
      modifies gens[active]
      ensures Apart(gens) && Holds(gens[active], content, view.superseded[active])
      ensures active < |gens|
      ensures old(Load(gens[active].codec, gens[active].meta.bytes)).Ok? && Load(gens[active].codec, gens[active].meta.bytes).Ok?
      ensures Grew(old(gens[active].Disk()), |old(gens[active].data.bytes)|, gens[active].Disk(), |gens[active].data.bytes|)
      ensures healthy && fault == NoFault ==> out == Done
      ensures out == Done || out.Failed? || out.FailedVisible?
      ensures h.Some? <==> out == Done
      ensures h.Some? ==> fresh(h.value) && h.value.writable == writable && h.value.generation == gens[active]
      ensures h.Some? ==> Bound(h.value, gens[active], writable)
      ensures out.Failed? ==> content == view.contents[active]
      ensures out.FailedVisible? ==> truncate && fault != BeforeRename && content == []
      ensures healthy ==> (out.FailedVisible? <==> truncate && fault == AfterRename)
      ensures out == Done ==> content == if truncate then [] else view.contents[active]
      ensures forall j :: 0 <= j < |gens| && j != active ==> Holds(gens[j], view.contents[j], view.superseded[j])
      ensures forall m :: 0 <= m < |handles| ==> handles[m].generation == gens[view.at[m]]
      ensures forall m :: 0 <= m < |handles| ==> Bound(handles[m], gens[view.at[m]], view.writer[m])
      ensures gens[active].meta == old(gens[active].meta) || fresh(gens[active].meta)
    {
      hide Load, Stored, Healthy, Codec.Lawful, Generation.Valid, Generation.Content, Grew;
      ActiveHolds();
      var g := gens[active];
      assert Holds(g, view.contents[active], view.superseded[active]);
      var r, renamed := Handles.Open(g, writable, truncate, fault, healthy);
      ValidLoads(g);
      content := g.Content();
      h := if r.Ok? then Some(r.value) else None;
      out := if r.Ok? then Done else if renamed then FailedVisible(r.error) else Failed(r.error);
    }

    /** Somebody has the active generation open for writing. */
    ghost predicate Busy()
      reads this, handles
    {
      exists k :: 0 <= k < |handles| && k < |view.at| && view.at[k] == active && handles[k].writable
    }

    lemma BusyMeans()
      requires Valid()
      ensures Busy() <==> exists k :: 0 <= k < |handles| && view.at[k] == active && handles[k].writable
    {
      hide Holds, Bound, Apart;
    }

    /** The active generation can be read in full, and stays within a terabyte. */
    ghost predicate Compactable()
      reads this, repr
      requires Valid()
    {
      var g := gens[active];
      && Load(g.codec, g.meta.bytes).Ok? && TotalRaw(g.Disk().chunks) <= |g.data.bytes| <= OFF_MAX && g.Disk().logicalSize <= TERABYTE
    }

    /** A compaction of the active generation has something to do: another window, or an ordinary rewrite. */
    ghost predicate WorthCompacting(ordinary: bool, adaptive: Option<Sample>)
      reads this, repr
      requires Valid()
    {
      var g := gens[active];
      && Load(g.codec, g.meta.bytes).Ok?
      && (WantedWindow(g.Disk(), |g.data.bytes|, adaptive).Some?
          || ((ordinary || adaptive.None?) && NeedsCompaction(g.Disk(), |g.data.bytes|)))
    }

    /** The window a compaction gives the active generation. */
    ghost function NextWindow(adaptive: Option<Sample>): int
      reads this, repr
      requires Valid()
    {
      var wanted := WantedWindow(Map(), DataSize(), adaptive);
      if wanted.Some? then wanted.value else Map().windowSize
    }

    lemma WorthMeans(ordinary: bool, adaptive: Option<Sample>)
      requires Valid()
      ensures active < |gens| && Load(gens[active].codec, gens[active].meta.bytes).Ok?
      ensures var g := gens[active];
              && (Compactable() <==> TotalRaw(g.Disk().chunks) <= |g.data.bytes| <= OFF_MAX && g.Disk().logicalSize <= TERABYTE)
              && (WorthCompacting(ordinary, adaptive) <==>
                    WantedWindow(g.Disk(), |g.data.bytes|, adaptive).Some?
                    || ((ordinary || adaptive.None?) && NeedsCompaction(g.Disk(), |g.data.bytes|)))
              && Map() == g.Disk() && DataSize() == |g.data.bytes|
              && NextWindow(adaptive) ==
                 (var wanted := WantedWindow(g.Disk(), |g.data.bytes|, adaptive); if wanted.Some? then wanted.value else g.Disk().windowSize)
    {
      ActiveHolds();
      hide Holds, Bound, Apart, WantedWindow, NeedsCompaction;
    }

    /** `generation_writer_refs_locked` of the active generation. */
    method HasWriters() returns (found: bool)
      requires Valid()
      ensures found <==> exists k :: 0 <= k < |handles| && view.at[k] == active && handles[k].writable
    {
      hide Holds, Bound;
      for k := 0 to |handles|
        invariant forall m :: 0 <= m < k ==> !(view.at[m] == active && handles[m].writable)
      {
        if handles[k].generation == gens[active] && handles[k].writable { return true; }
      }
      found := false;
    }

    /** The active generation takes no more writes; the bookkeeping of `view` is left. */
    method SupersedeObjects()
      requires Valid()
      modifies gens[active]
      ensures Apart(gens) && gens[active].data == old(gens[active].data) && gens[active].meta == old(gens[active].meta)
      ensures forall j :: 0 <= j < |gens| ==> Holds(gens[j], view.contents[j], j == active || view.superseded[j])
      ensures forall m :: 0 <= m < |handles| ==> handles[m].generation == gens[view.at[m]]
      ensures forall m :: 0 <= m < |handles| ==> Bound(handles[m], gens[view.at[m]], view.writer[m])
    {
      hide Load, Generation.Valid, Generation.Content;
      var g := gens[active];
      assert Holds(g, view.contents[active], view.superseded[active]);
      g.MarkSuperseded();
    }

    /** The pointer moved: the old generation is superseded, the new one active. */
    method Adopt(n: Generation)
      requires Valid() && n !in repr && n.data !in repr && n.meta !in repr && n != this as object
      requires Holds(n, view.contents[active], false)
      modifies this, gens[active]
      ensures Valid() && repr == old(repr) + {n, n.data, n.meta} && handles == old(handles)
      ensures gens == old(gens) + [n] && active == |old(gens)|
      ensures view == WithGeneration(old(view))
    {
      hide Holds, Bound;
      SupersedeObjects();
      gens := gens + [n];
      repr := repr + {n, n.data, n.meta};
      view := WithGeneration(view);
      active := |gens| - 1;
    }

    /** The pointer could not be read back: the old generation takes no more writes. */
    method Supersede()
      requires Valid()
      modifies this, gens[active]
      ensures Valid() && repr == old(repr) && view == old(view).(superseded := old(view).superseded[old(view).active := true])
    {
      hide Holds, Bound, Apart;
      SupersedeObjects();
      view := view.(superseded := view.superseded[active := true]);
    }

    /** One writer is bound to the active generation. */
    method MoveHandle(k: nat, bundle: Inode)
      requires Valid() && k < |handles| && Load(gens[active].codec, gens[active].meta.bytes) == Ok(bundle)
      modifies this`view, handles[k]
      ensures Valid() && view == old(view).(at := old(view).at[k := old(view).active])
    {
      hide Load, Generation.Valid, Generation.Content;
      var g := gens[active];
      assert Holds(g, view.contents[active], view.superseded[active]);
      assert Bound(handles[k], gens[view.at[k]], view.writer[k]);
      handles[k].Rebind(g, bundle);
      view := view.(at := view.at[k := active]);
    }

    /** `publish_and_handoff` after the pointer moved: every writer of the old generation moves, in one transaction. */
    method HandOver(was: Generation, bundle: Inode)
      requires Valid() && Load(gens[active].codec, gens[active].meta.bytes) == Ok(bundle)
      requires active > 0 && was == gens[active - 1]
      modifies this`view, handles
      ensures Valid()
      ensures view == old(view).(at := MovedTo(old(view).at, old(view).writer, active - 1, active, |old(view).at|))
      ensures Map() == bundle && DataSize() == old(DataSize())
    {
      hide *;
      Counts();
      MapIs();
      ghost var v := view;
      MovedNone(v.at, v.writer, active - 1, active);
      assert v.(at := v.at) == v;
      for k := 0 to |handles|
        invariant handles == old(handles) && gens == old(gens) && active == old(active) && Valid()
        invariant view == v.(at := MovedTo(v.at, v.writer, active - 1, active, k))
        invariant Load(gens[active].codec, gens[active].meta.bytes) == Ok(bundle)
      {
        MoveWriter(k, was, bundle, v);
      }
      BundleIs(bundle);
    }

    lemma BundleIs(bundle: Inode)
      requires Valid() && Load(gens[active].codec, gens[active].meta.bytes) == Ok(bundle)
      ensures Map() == bundle && DataSize() == |gens[active].data.bytes|
    {
    }

    lemma Counts()
      requires Valid()
      ensures Shape(view) && view.active == active && active + 1 == |gens| == |view.contents|
      ensures |view.at| == |handles| && |view.writer| == |handles|
      ensures gens[active] in repr && forall k :: 0 <= k < |handles| ==> handles[k] in repr
    {
    }

    /** One step of the hand-over. */
    method MoveWriter(k: nat, was: Generation, bundle: Inode, ghost v: View)
      requires Valid() && k < |handles| && |v.writer| == |v.at|
      requires active > 0 && was == gens[active - 1]
      requires view == v.(at := MovedTo(v.at, v.writer, active - 1, active, k))
      requires Load(gens[active].codec, gens[active].meta.bytes) == Ok(bundle)
      modifies this`view, handles[k]
      ensures Valid() && view == v.(at := MovedTo(v.at, v.writer, active - 1, active, k + 1))
      ensures Load(gens[active].codec, gens[active].meta.bytes) == Ok(bundle)
    {
      hide Holds, Bound, Apart, Load, MovedTo;
      BindingOf(k);
      MovedOneMore(v.at, v.writer, active - 1, active, k);
      if handles[k].generation == was && handles[k].writable {
        MoveHandle(k, bundle);
      }
    }

    /** A handle is bound to the generation that `view` says. */
    lemma BindingOf(k: nat)
      requires Valid() && active > 0 && k < |handles|
      ensures handles[k].generation == gens[active - 1] <==> view.at[k] == active - 1
      ensures handles[k].writable == view.writer[k]
    {
      hide Holds;
      assert Bound(handles[k], gens[view.at[k]], view.writer[k]);
    }

    /** `compact_data_file_locked`: rewrite, publish, hand over. */
    method CompactActive(ordinary: bool, adaptive: Option<Sample>, publication: PointerFate, healthy: bool) returns (out: Outcome)
      requires Valid()
      modifies this, repr
      ensures Valid() && fresh(repr - old(repr)) && Shape(old(view)) && Step(old(view), FileRuns.Compact(ordinary, adaptive), out, view)
      ensures publication == Visible(true) ==>
                && Answers(old(view), FileRuns.Compact(ordinary, adaptive), out)
                && (RoomFor(FileRuns.Compact(ordinary, adaptive), old(Map()), old(DataSize())) ==>
                      Grew(old(Map()), old(DataSize()), Map(), DataSize()))
      ensures adaptive.None? && old(Busy()) ==> out == Done && view == old(view)
      ensures out == Moved ==> publication == Visible(true)
      ensures out.Published? ==> publication == Visible(false)
      ensures out.Lost? ==> publication.Unreadable? && (view.active != old(view).active <==> publication.moved)
      ensures healthy && !(adaptive.None? && old(Busy())) && old(Compactable()) ==>
                if old(WorthCompacting(ordinary, adaptive)) then
                  && (publication == Visible(true) ==> out == Moved) && (publication == Visible(false) ==> out.Published?)
                  && (publication.Unreadable? ==> out.Lost?) && (publication == NotPublished ==> out.Failed?)
                else out == Done
      ensures old(Compactable()) && view.active != old(view).active ==>
                old(WorthCompacting(ordinary, adaptive)) && Map().windowSize == old(NextWindow(adaptive))
    {
      hide *;
      Counts();
      ghost var v := view;
      BusyMeans();
      WorthMeans(ordinary, adaptive);
      MapIs();
      CompactRoom(ordinary, adaptive, Map(), DataSize());
      if adaptive.None? {
        var busy := HasWriters();
        if busy {
          CompactStep(v, ordinary, adaptive, Done, view);
          CompactAnswers(v, ordinary, adaptive, Done);
          return Done;
        }
      }
      ActiveHolds();
      var r := Compaction.Compact(gens[active], ordinary, adaptive, healthy);
      if r.Err? || r.value.None? || publication == NotPublished {
        out := if r.Err? then Failed(r.error) else if r.value.None? then Done else Failed(EIO);
        CompactStep(v, ordinary, adaptive, out, view);
        CompactAnswers(v, ordinary, adaptive, out);
      } else if publication == Unreadable(false) {
        Supersede();
        out := Lost(EIO);
        CompactStep(v, ordinary, adaptive, out, view);
        CompactAnswers(v, ordinary, adaptive, out);
      } else {
        var was := gens[active];
        HoldsNew(r.value.value.0, view.contents[active]);
        DiskIs(r.value.value.0, r.value.value.1);
        Adopt(r.value.value.0);
        Counts();
        BundleIs(r.value.value.1);
        if publication == Unreadable(true) {
          out := Lost(EIO);
        } else if publication.recordMade {
          HandOver(was, r.value.value.1);
          out := Moved;
        } else {
          out := Published(ENOMEM);
        }
        CompactStep(v, ordinary, adaptive, out, view);
        CompactAnswers(v, ordinary, adaptive, out);
      }
    }

    /** A file with one generation and nobody holding it open. */
    constructor (g: Generation)
      requires g.Valid() && !g.superseded
      ensures Valid() && view == View([g.Content()], [false], 0, [], []) && repr == {g, g.data, g.meta}
    {
      hide Load, Stored, Healthy, FileContent, Codec.Lawful, Generation.Valid, Generation.Content;
      ValidLoads(g);
      gens, active, handles := [g], 0, [];
      view, repr := View([g.Content()], [false], 0, [], []), {g, g.data, g.meta};
    }

    /** Any operation, in any environment. */
    method Perform(op: Op, env: Env) returns (out: Outcome)
      requires Valid() && InRange(op)
      modifies this, repr
      ensures Valid() && fresh(repr - old(repr)) && Shape(old(view)) && Step(old(view), op, out, view)
      ensures env.Calm() && RoomFor(op, old(Map()), old(DataSize())) ==>
                Answers(old(view), op, out) && Grew(old(Map()), old(DataSize()), Map(), DataSize())
    {
      hide *;
      Counts();
      CalmMeans(env);
      GrewSame(Map(), DataSize());
      if op.TruncatePath? { HasRoomMeans(op); }
      match op
      case Open(writable, truncate) => out := OpenActive(writable, truncate, env.fault, env.healthy);
      case TruncatePath(size) => SizeInRange(op); out := TruncateActive(size, env.fault, env.healthy);
      case Compact(ordinary, adaptive) => out := CompactActive(ordinary, adaptive, env.publication, env.healthy);
      case Read(k, offset, count) =>
        if k < |handles| { out := ReadAt(k, offset, count, env.healthy); }
        else { out := Failed(EIO); FailedStep(view, op, EIO); NoHandleAnswers(view, op); }
      case Write(k, _, _) =>
        if k < |handles| { out := Mutate(k, op, env.healthy); }
        else { out := Failed(EIO); FailedStep(view, op, EIO); NoHandleAnswers(view, op); }
      case TruncateHandle(k, _) =>
        SizeInRange(op);
        if k < |handles| { out := Mutate(k, op, env.healthy); }
        else { out := Failed(EIO); FailedStep(view, op, EIO); NoHandleAnswers(view, op); }
    }

    /** Everything that is to come finds the file tidy, with room for every step. */
    ghost predicate Spare(steps: nat)
      reads this, repr
      requires Valid()
    {
      FileState.Tidy(Map()) && Slack(Map(), DataSize()) >= steps * STEP
    }

    /** One operation of a run in which nothing fails. */
    method PerformCalmly(op: Op, env: Env, ghost steps: nat) returns (out: Outcome)
      requires Valid() && InRange(op)
      modifies this, repr
      ensures Valid() && fresh(repr - old(repr)) && Shape(old(view)) && Step(old(view), op, out, view)
      ensures env.Calm() && Modest(op) && old(Spare(steps + 1)) ==> Answers(old(view), op, out) && Spare(steps)
    {
      hide Valid, Step, Shape, Answers, Map, DataSize, RoomFor, Grew, Active, Slack, Modest;
      Counts();
      ghost var disk, data := Map(), DataSize();
      MapSize();
      ghost var roomy := Modest(op) && Spare(steps + 1);
      if roomy { RoomHere(op); }
      out := Perform(op, env);
      Counts();
      MapSize();
      if env.Calm() && roomy {
        ModestStaysSmall(old(view), op, out, view);
        StillTidy(disk, data, Map(), DataSize());
      }
    }

    /**
     Any sequence of operations, in any sequence of environments, is a run of the plain model: each
     outcome and each state is one that FileRuns allows.  Where nothing fails, a tidy file with room for
     all of them answers every request as it should.
     */
    method Run(ops: seq<Op>, envs: seq<Env>) returns (outs: seq<Outcome>, ghost views: seq<View>)
      requires Valid() && |envs| == |ops| && forall i :: 0 <= i < |ops| ==> InRange(ops[i])
      modifies this, repr
      ensures Valid() && fresh(repr - old(repr)) && IsRun(views, ops, outs)
      ensures views[0] == old(view) && views[|ops|] == view
      ensures AllCalm(ops, envs) && old(Spare(|ops|)) ==> AllAnswered(views, ops, outs)
      ensures Shape(old(view)) && Shape(view)
      ensures AllCalm(ops, envs) && old(Spare(|ops|)) && Live(old(view)) ==>
                Active(view) == WantedRun(Active(old(view)), old(view).writer, ops)
    {
      hide *;
      Counts();
      outs, views := [], [view];
      RunStarts(view);
      assert ops[..0] == [];
      ghost var calm := AllCalm(ops, envs) && Spare(|ops|);
      for i := 0 to |ops|
        invariant Valid() && fresh(repr - old(repr)) && IsRun(views, ops[..i], outs)
        invariant |views| == i + 1 && views[0] == old(view) && views[i] == view
        invariant calm ==> Spare(|ops| - i) && AllAnswered(views, ops[..i], outs)
      {
        if calm { CalmAt(ops, envs, i); }
        var out := PerformCalmly(ops[i], envs[i], |ops| - i - 1);
        Counts();
        RunGrows(views, ops[..i], outs, ops[i], out, view);
        if calm { AnswersGrow(views, ops[..i], outs, ops[i], out, view); }
        assert ops[..i + 1] == ops[..i] + [ops[i]];
        outs, views := outs + [out], views + [view];
      }
      Counts();
      assert ops[..|ops|] == ops;
      if calm && Live(views[0]) { AnsweredRunIsWanted(views, ops, outs); }
    }
  }

  /** A million operations on a new file, in an environment that does not fail: the file is what they ask for. */
  method NewFileRun(codec: Codec, ops: seq<Op>, envs: seq<Env>) returns (file: File)
    requires codec.Lawful() && |envs| == |ops| <= 1_000_000 && (forall i :: 0 <= i < |ops| ==> InRange(ops[i])) && AllCalm(ops, envs)
    ensures file.Valid() && Shape(file.view) && Active(file.view) == WantedRun([], [], ops)
  {
    hide AllCalm, WantedRun, Load, Stored, Healthy, FileContent, Codec.Lawful, InRange, FileState.Tidy, Slack;
    var created := Create(codec, true, NoFault, true);
    file := new File(created.value.generation);
    file.MapIs();
    NewIsSpare(|ops|);
    var outs, views := file.Run(ops, envs);
  }

  lemma NewIsSpare(n: nat)
    requires n <= 1_000_000
    ensures FileState.Tidy(NewInode()) && Slack(NewInode(), 0) >= n * STEP
  {
  }

  /** Nothing fails, and no operation leaves the moderate sizes. */
  predicate AllCalm(ops: seq<Op>, envs: seq<Env>)
    requires |envs| == |ops|
  {
    forall i :: 0 <= i < |ops| ==> envs[i].Calm() && Modest(ops[i])
  }

  lemma CalmAt(ops: seq<Op>, envs: seq<Env>, i: nat)
    requires |envs| == |ops| && AllCalm(ops, envs) && i < |ops|
    ensures envs[i].Calm() && Modest(ops[i])
  {
  }

  lemma StillTidy(disk: Inode, data: nat, disk': Inode, data': nat)
    requires FileState.Tidy(disk) && Grew(disk, data, disk', data') && disk'.logicalSize <= TERABYTE
    ensures FileState.Tidy(disk') && Slack(disk', data') >= Slack(disk, data) - STEP
  {
  }

  lemma AnswersGrow(views: seq<View>, ops: seq<Op>, outs: seq<Outcome>, op: Op, out: Outcome, v: View)
    requires IsRun(views, ops, outs) && AllAnswered(views, ops, outs) && IsRun(views + [v], ops + [op], outs + [out])
    requires Shape(views[|ops|]) && Answers(views[|ops|], op, out)
    ensures AllAnswered(views + [v], ops + [op], outs + [out])
  {
    hide Step, Answers;
  }

  lemma DiskIs(g: Generation, bundle: Inode)
    requires Load(g.codec, g.meta.bytes) == Ok(bundle)
    ensures g.Disk() == bundle
  {
  }

  lemma HoldsNew(g: Generation, content: seq<byte>)
    requires g.Valid() && !g.superseded && Load(g.codec, g.meta.bytes).Ok? && g.Content() == content
    ensures Holds(g, content, false)
  {
  }

  lemma CompactStep(v: View, ordinary: bool, adaptive: Option<Sample>, out: Outcome, v': View)
    requires Shape(v) && (out == Done || out.Failed? || out == Moved || out.Published? || out.Lost?)
    requires out == Done || out.Failed? ==> v' == v
    requires out.Lost? ==> v' == v.(superseded := v.superseded[v.active := true]) || v' == WithGeneration(v)
    requires out.Published? ==> v' == WithGeneration(v)
    requires out == Moved ==>
               var g := WithGeneration(v);
               |g.writer| == |g.at| && v' == g.(at := MovedTo(g.at, g.writer, v.active, v.active + 1, |g.at|))
    ensures Step(v, FileRuns.Compact(ordinary, adaptive), out, v')
  {
    if out == Moved {
      assert v'.at == HandedOver(v).at;
    }
  }

  /** The bindings when the first `n` writers of `was` have moved to `now`. */
  ghost function MovedTo(at: seq<nat>, writer: seq<bool>, was: nat, now: nat, n: nat): seq<nat>
    requires |writer| == |at|
  {
    seq(|at|, k requires 0 <= k < |at| => if k < n && at[k] == was && writer[k] then now else at[k])
  }

  lemma MovedNone(at: seq<nat>, writer: seq<bool>, was: nat, now: nat)
    requires |writer| == |at|
    ensures MovedTo(at, writer, was, now, 0) == at
  {
  }

  lemma MovedOneMore(at: seq<nat>, writer: seq<bool>, was: nat, now: nat, k: nat)
    requires |writer| == |at| && k < |at|
    ensures var m := MovedTo(at, writer, was, now, k);
            && m[k] == at[k]
            && MovedTo(at, writer, was, now, k + 1) == if at[k] == was && writer[k] then m[k := now] else m
  {
  }

  /** What the environment does to one operation. */
  datatype Env = Env(healthy: bool, fault: SaveFault, publication: PointerFate) {
    predicate Calm() { healthy && fault == NoFault && publication == Visible(true) }
  }

  lemma CalmMeans(env: Env)
    ensures env.Calm() <==> env.healthy && env.fault == NoFault && env.publication == Visible(true)
  {
  }

  lemma GrewSame(disk: Inode, data: nat)
    ensures Grew(disk, data, disk, data)
  {
  }

  lemma NoHandleAnswers(v: View, op: Op)
    requires Shape(v) && (op.Write? || op.TruncateHandle? || op.Read?) && op.handle >= |v.at|
    ensures Answers(v, op, Failed(EIO))
  {
  }

  /** Sizes are file offsets. */
  predicate InRange(op: Op) {
    (op.TruncateHandle? ==> op.size <= OFF_MAX) && (op.TruncatePath? ==> op.size <= OFF_MAX)
  }

  lemma SizeInRange(op: Op)
    requires InRange(op)
    ensures (op.TruncateHandle? ==> op.size <= OFF_MAX) && (op.TruncatePath? ==> op.size <= OFF_MAX)
  {
  }

  lemma FailedStep(v: View, op: Op, e: Errno)
    requires Shape(v)
    ensures Step(v, op, Failed(e), v)
  {
  }

  lemma RunStarts(v: View)
    requires Shape(v)
    ensures IsRun([v], [], []) && AllAnswered([v], [], [])
  {
  }

  lemma RunGrows(views: seq<View>, ops: seq<Op>, outs: seq<Outcome>, op: Op, out: Outcome, v: View)
    requires IsRun(views, ops, outs) && Shape(v)
    requires Shape(views[|ops|]) && Step(views[|ops|], op, out, v)
    ensures IsRun(views + [v], ops + [op], outs + [out])
  {
    hide Step, Shape;
  }
}
