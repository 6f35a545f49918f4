/**
 Runs of a file, without its machinery: what each operation may do to the contents of the
 generations, and why the file everybody names behaves like one plain byte string.
 */
module FileRuns {
  import opened Basics
  import opened FileState
  import opened Compaction

  /**
   The contents of every generation made so far, which one `.current` names, and which one each
   open handle is bound to.
   */
  datatype View = View(contents: seq<seq<byte>>, superseded: seq<bool>, active: nat, at: seq<nat>, writer: seq<bool>)

  datatype Op =
    | Open(writable: bool, truncate: bool)
    | Write(handle: nat, offset: int, buf: seq<byte>)
    | TruncateHandle(handle: nat, size: int)
    | TruncatePath(size: int)
    | Read(handle: nat, offset: int, count: nat)
    | Compact(ordinary: bool, adaptive: Option<Sample>)

  /**
   `FailedVisible`: an error after the rename of a metadata file.  `Moved`: a compaction that
   handed its writers over.  `Published`: the pointer moved but the hand-over failed.  `Lost`: the
   pointer could not be read back after a failed publication; it may have moved or not, and the
   writers of the old generation are stale either way.
   */
  datatype Outcome = Done | Bytes(data: seq<byte>) | Moved | Failed(error: Errno) | FailedVisible(error: Errno)
                   | Published(error: Errno) | Lost(error: Errno)

  predicate Shape(v: View) {
    && |v.superseded| == |v.contents| && v.active + 1 == |v.contents| && |v.writer| == |v.at|
    && (forall k :: 0 <= k < |v.at| ==> v.at[k] < |v.contents|)
    && (forall i :: 0 <= i < |v.contents| && i != v.active ==> v.superseded[i])
  }

  function Active(v: View): seq<byte>
    requires Shape(v)
  {
    v.contents[v.active]
  }

  /** The part of `content` that a read of `count` bytes at `offset` delivers. */
  function Slice(content: seq<byte>, offset: nat, count: nat): seq<byte> {
    if offset < |content| then content[offset..offset + Min(count, |content| - offset)] else []
  }

  function WithContent(v: View, i: nat, content: seq<byte>): View
    requires i < |v.contents|
  {
    v.(contents := v.contents[i := content])
  }

  /** A new generation with the content of the active one becomes the active one. */
  function WithGeneration(v: View): View
    requires Shape(v)
  {
    v.(contents := v.contents + [Active(v)], superseded := v.superseded[v.active := true] + [false], active := |v.contents|)
  }

  /** Hand-over moves the writers of the active generation; readers stay where they are. */
  function HandedOver(v: View): View
    requires Shape(v)
  {
    WithGeneration(v).(at := seq(|v.at|, k requires 0 <= k < |v.at| =>
      if v.at[k] == v.active && v.writer[k] then |v.contents| else v.at[k]))
  }

  predicate StepOpen(v: View, writable: bool, truncate: bool, out: Outcome, v': View)
    requires Shape(v)
  {
    var cleared := if truncate then WithContent(v, v.active, []) else v;
    match out
    case Done => v' == cleared.(at := v.at + [v.active], writer := v.writer + [writable])
    case FailedVisible(_) => truncate && v' == cleared
    case Failed(_) => v' == v
    case _ => false
  }

  predicate StepWrite(v: View, h: nat, offset: int, buf: seq<byte>, out: Outcome, v': View)
    requires Shape(v)
  {
    match out
    case Done =>
      && h < |v.at|
      && if |buf| == 0 then v' == v
         else v.writer[h] && !v.superseded[v.at[h]] && 0 <= offset && offset + |buf| <= OFF_MAX
              && v' == WithContent(v, v.at[h], Overlaid(v.contents[v.at[h]], offset, buf))
    case Failed(_) => v' == v
    case _ => false
  }

  predicate StepTruncateHandle(v: View, h: nat, size: int, out: Outcome, v': View)
    requires Shape(v)
  {
    match out
    case Done =>
      && h < |v.at| && v.writer[h] && !v.superseded[v.at[h]] && 0 <= size
      && v' == WithContent(v, v.at[h], Resized(v.contents[v.at[h]], size))
    case Failed(_) => v' == v
    case _ => false
  }

  predicate StepTruncatePath(v: View, size: int, out: Outcome, v': View)
    requires Shape(v)
  {
    match out
    case Done => 0 <= size && v' == WithContent(v, v.active, Resized(Active(v), size))
    case FailedVisible(_) => 0 <= size && v' == WithContent(v, v.active, Resized(Active(v), size))
    case Failed(_) => v' == v
    case _ => false
  }

  predicate StepRead(v: View, h: nat, offset: int, count: nat, out: Outcome, v': View)
    requires Shape(v)
  {
    && v' == v
    && match out
       case Bytes(data) => h < |v.at| && 0 <= offset && data == Slice(v.contents[v.at[h]], offset, count)
       case Failed(_) => true
       case _ => false
  }

  predicate StepCompact(v: View, out: Outcome, v': View)
    requires Shape(v)
  {
    match out
    case Done => v' == v
    case Failed(_) => v' == v
    case Moved => v' == HandedOver(v)
    case Published(_) => v' == WithGeneration(v)
    case Lost(_) => v' == v.(superseded := v.superseded[v.active := true]) || v' == WithGeneration(v)
    case _ => false
  }

  predicate Step(v: View, op: Op, out: Outcome, v': View)
    requires Shape(v)
  {
    match op
    case Open(writable, truncate) => StepOpen(v, writable, truncate, out, v')
    case Write(h, offset, buf) => StepWrite(v, h, offset, buf, out, v')
    case TruncateHandle(h, size) => StepTruncateHandle(v, h, size, out, v')
    case TruncatePath(size) => StepTruncatePath(v, size, out, v')
    case Read(h, offset, count) => StepRead(v, h, offset, count, out, v')
    case Compact(_, _) => StepCompact(v, out, v')
  }

  /** The request is one that can be met: the handle is there, may do it, and the range is in bounds. */
  predicate Asked(v: View, op: Op)
    requires Shape(v)
  {
    match op
    case Open(_, _) => true
    case Write(h, offset, buf) =>
      h < |v.at| && (|buf| == 0 || (v.writer[h] && !v.superseded[v.at[h]] && 0 <= offset && offset + |buf| <= OFF_MAX))
    case TruncateHandle(h, size) => h < |v.at| && v.writer[h] && !v.superseded[v.at[h]] && 0 <= size
    case TruncatePath(size) => 0 <= size
    case Read(h, offset, _) => h < |v.at| && 0 <= offset
    case Compact(_, _) => true
  }

  /** Where nothing fails and there is room, a request succeeds exactly if it can be met. */
  predicate Answers(v: View, op: Op, out: Outcome)
    requires Shape(v)
  {
    match op
    case Compact(_, _) => out == Done || out == Moved || out.Failed?
    case Read(_, _, _) => if Asked(v, op) then out.Bytes? else out.Failed?
    case _ => if Asked(v, op) then out == Done else out.Failed?
  }

  lemma StepKeepsShape(v: View, op: Op, out: Outcome, v': View)
    requires Shape(v) && Step(v, op, out, v')
    ensures Shape(v')
  {
  }

  /** `views` are the states a run goes through. */
  ghost predicate IsRun(views: seq<View>, ops: seq<Op>, outs: seq<Outcome>) {
    && |views| == |ops| + 1 && |outs| == |ops|
    && (forall i :: 0 <= i < |views| ==> Shape(views[i]))
    && forall i :: 0 <= i < |ops| ==> Step(views[i], ops[i], outs[i], views[i + 1])
  }

  // ----- the plain file

  /** The same operations on one byte string: generations, handles and compaction are gone. */
  function Plain(content: seq<byte>, op: Op, out: Outcome): seq<byte> {
    match op
    case Open(_, truncate) => if truncate && (out == Done || out.FailedVisible?) then [] else content
    case Write(_, offset, buf) => if out == Done && |buf| > 0 && 0 <= offset then Overlaid(content, offset, buf) else content
    case TruncateHandle(_, size) => if out == Done && 0 <= size then Resized(content, size) else content
    case TruncatePath(size) => if (out == Done || out.FailedVisible?) && 0 <= size then Resized(content, size) else content
    case _ => content
  }

  function PlainRun(content: seq<byte>, ops: seq<Op>, outs: seq<Outcome>): seq<byte>
    requires |outs| == |ops|
  {
    if ops == [] then content
    else Plain(PlainRun(content, ops[..|ops| - 1], outs[..|ops| - 1]), ops[|ops| - 1], outs[|ops| - 1])
  }

  /** A write that is acknowledged went to the generation `.current` names. */
  lemma AcknowledgedWritesAreActive(v: View, h: nat, offset: int, buf: seq<byte>, v': View)
    requires Shape(v) && StepWrite(v, h, offset, buf, Done, v') && |buf| > 0
    ensures v.at[h] == v.active
  {
  }

  lemma StepIsPlain(v: View, op: Op, out: Outcome, v': View)
    requires Shape(v) && Step(v, op, out, v')
    ensures Shape(v') && Active(v') == Plain(Active(v), op, out)
  {
    hide Overlaid, Resized;
    StepKeepsShape(v, op, out, v');
  }

  // ----- runs in which nothing fails

  /** The operation stays within a terabyte. */
  predicate Modest(op: Op) {
    match op
    case Write(_, offset, buf) => offset + |buf| <= TERABYTE
    case TruncateHandle(_, size) => size <= TERABYTE
    case TruncatePath(size) => size <= TERABYTE
    case _ => true
  }

  lemma ModestStaysSmall(v: View, op: Op, out: Outcome, v': View)
    requires Shape(v) && Step(v, op, out, v') && Modest(op) && |Active(v)| <= TERABYTE
    ensures Shape(v') && |Active(v')| <= TERABYTE
  {
    StepIsPlain(v, op, out, v');
  }

  /** Every request of the run is answered as it would be where nothing fails. */
  ghost predicate AllAnswered(views: seq<View>, ops: seq<Op>, outs: seq<Outcome>)
    requires IsRun(views, ops, outs)
  {
    forall i :: 0 <= i < |ops| ==> Answers(views[i], ops[i], outs[i])
  }

  /** What a request does to the writers that are open, and to the file, all by itself. */
  function Opened(writers: seq<bool>, op: Op): seq<bool> {
    if op.Open? then writers + [op.writable] else writers
  }

  function Wanted(content: seq<byte>, writers: seq<bool>, op: Op): seq<byte> {
    match op
    case Open(_, truncate) => if truncate then [] else content
    case Write(h, offset, buf) =>
      if h < |writers| && writers[h] && |buf| > 0 && 0 <= offset && offset + |buf| <= OFF_MAX
      then Overlaid(content, offset, buf) else content
    case TruncateHandle(h, size) => if h < |writers| && writers[h] && 0 <= size then Resized(content, size) else content
    case TruncatePath(size) => if 0 <= size then Resized(content, size) else content
    case _ => content
  }

  function WritersAfter(writers: seq<bool>, ops: seq<Op>): seq<bool> {
    if ops == [] then writers else Opened(WritersAfter(writers, ops[..|ops| - 1]), ops[|ops| - 1])
  }

  /** The file that the requests ask for, and nothing else is looked at. */
  function WantedRun(content: seq<byte>, writers: seq<bool>, ops: seq<Op>): seq<byte> {
    if ops == [] then content
    else Wanted(WantedRun(content, writers, ops[..|ops| - 1]), WritersAfter(writers, ops[..|ops| - 1]), ops[|ops| - 1])
  }

  /** Nobody is stale, and the file takes writes. */
  predicate Live(v: View) { WritersActive(v) && !v.superseded[v.active] }

  lemma AnsweredStep(v: View, op: Op, out: Outcome, v': View)
    requires Live(v) && Step(v, op, out, v') && Answers(v, op, out)
    ensures Live(v') && v'.writer == Opened(v.writer, op) && Active(v') == Wanted(Active(v), v.writer, op)
  {
    hide Overlaid, Resized;
    StepIsPlain(v, op, out, v');
    StepKeepsWritersActive(v, op, out, v');
  }

  /**
   Where nothing fails, the file is what was asked for: it depends on the requests alone - on which
   handles write, and on the ranges - and not on any outcome, compaction or hand-over.
   */
  lemma {:induction false} AnsweredRunIsWanted(views: seq<View>, ops: seq<Op>, outs: seq<Outcome>)
    requires IsRun(views, ops, outs) && AllAnswered(views, ops, outs) && Live(views[0])
    ensures Live(views[|ops|]) && views[|ops|].writer == WritersAfter(views[0].writer, ops)
    ensures Active(views[|ops|]) == WantedRun(Active(views[0]), views[0].writer, ops)
    decreases |ops|
  {
    LastStep(views, ops, outs);
    if ops != [] {
      RunPrefix(views, ops, outs);
      var n := |ops| - 1;
      assert Answers(views[n], ops[n], outs[n]);
      AnsweredRunIsWanted(views[..|ops|], ops[..n], outs[..n]);
      hide Step, Wanted, Opened, IsRun, Answers, Live;
      AnsweredStep(views[n], ops[n], outs[n], views[n + 1]);
    }
  }

  lemma RunPrefix(views: seq<View>, ops: seq<Op>, outs: seq<Outcome>)
    requires IsRun(views, ops, outs) && ops != []
    ensures IsRun(views[..|ops|], ops[..|ops| - 1], outs[..|ops| - 1])
  {
    hide Step, Shape;
  }

  lemma LastStep(views: seq<View>, ops: seq<Op>, outs: seq<Outcome>)
    requires IsRun(views, ops, outs)
    ensures Shape(views[0]) && Shape(views[|ops|])
    ensures ops != [] ==> Shape(views[|ops| - 1]) && Step(views[|ops| - 1], ops[|ops| - 1], outs[|ops| - 1], views[|ops|])
  {
    hide Step, Shape;
  }

  /**
   Over every run the file named by the pointer is the plain file: compactions, failed operations,
   refreshes and snapshots leave no trace in it.
   */
  lemma {:induction false} RunIsPlain(views: seq<View>, ops: seq<Op>, outs: seq<Outcome>)
    requires IsRun(views, ops, outs)
    ensures Shape(views[0]) && Shape(views[|ops|])
    ensures Active(views[|ops|]) == PlainRun(Active(views[0]), ops, outs)
    decreases |ops|
  {
    LastStep(views, ops, outs);
    if ops != [] {
      RunPrefix(views, ops, outs);
      var n := |ops| - 1;
      RunIsPlain(views[..|ops|], ops[..n], outs[..n]);
      hide Step, Shape, Plain, IsRun;
      StepIsPlain(views[n], ops[n], outs[n], views[n + 1]);
    }
  }

  /** A superseded generation that is no longer active never changes, whatever happens later. */
  lemma {:induction false} SnapshotsAreFrozen(views: seq<View>, ops: seq<Op>, outs: seq<Outcome>, i: nat)
    requires IsRun(views, ops, outs) && i < |views[0].contents| && i != views[0].active
    ensures i < |views[|ops|].contents| && i != views[|ops|].active
    ensures views[|ops|].contents[i] == views[0].contents[i]
    decreases |ops|
  {
    LastStep(views, ops, outs);
    if ops != [] {
      RunPrefix(views, ops, outs);
      var n := |ops| - 1;
      SnapshotsAreFrozen(views[..|ops|], ops[..n], outs[..n], i);
      hide IsRun, Overlaid, Resized;
      StepKeepsSnapshot(views[n], ops[n], outs[n], views[n + 1], i);
    }
  }

  lemma StepKeepsSnapshot(v: View, op: Op, out: Outcome, v': View, i: nat)
    requires Shape(v) && Step(v, op, out, v') && i < |v.contents| && i != v.active
    ensures i < |v'.contents| && i != v'.active && v'.contents[i] == v.contents[i]
  {
    hide Overlaid, Resized;
  }

  /** The byte at `p`, with zeros beyond the end. */
  function At(content: seq<byte>, p: nat): byte { if p < |content| then content[p] else 0 }

  /** The operation stored something at position `p`. */
  predicate WroteAt(op: Op, out: Outcome, p: nat) {
    op.Write? && out == Done && op.offset <= p < op.offset + |op.buf|
  }

  /**
   Bytes cut by a truncate never come back: a position that holds nothing or zero stays so, through
   extensions, other writes and compactions, until it is written itself.
   */
  lemma {:induction false} CutBytesStayCut(content: seq<byte>, ops: seq<Op>, outs: seq<Outcome>, p: nat)
    requires |outs| == |ops| && At(content, p) == 0
    requires forall i :: 0 <= i < |ops| ==> !WroteAt(ops[i], outs[i], p)
    ensures At(PlainRun(content, ops, outs), p) == 0
    decreases |ops|
  {
    if ops != [] {
      var n := |ops| - 1;
      CutBytesStayCut(content, ops[..n], outs[..n], p);
      PlainKeepsZero(PlainRun(content, ops[..n], outs[..n]), ops[n], outs[n], p);
    }
  }

  lemma PlainKeepsZero(content: seq<byte>, op: Op, out: Outcome, p: nat)
    requires At(content, p) == 0 && !WroteAt(op, out, p)
    ensures At(Plain(content, op, out), p) == 0
  {
  }

  /**
   Nothing changes unless the outcome says so.  A path truncate or a truncating open may fail after
   its rename, and such a failure changes the file if and only if its size is not the one asked for.
   The methods that truncate say when they fail that way.
   */
  lemma FailureChangesNothing(v: View, op: Op, out: Outcome, v': View)
    requires Shape(v) && Step(v, op, out, v')
    requires out.Failed? || out.FailedVisible? || out.Published? || out.Lost?
    ensures Shape(v')
    ensures Active(v') != Active(v) <==>
            out.FailedVisible? && ((op.TruncatePath? && op.size != |Active(v)|) || (op.Open? && op.truncate && Active(v) != []))
  {
    StepIsPlain(v, op, out, v');
    hide Overlaid;
    if op.TruncatePath? && out.FailedVisible? && op.size == |Active(v)| {
      assert Resized(Active(v), op.size) == Active(v);
    }
  }

  /** With no failed hand-over, every writer stays on the generation `.current` names. */
  predicate WritersActive(v: View) {
    Shape(v) && forall k :: 0 <= k < |v.at| && v.writer[k] ==> v.at[k] == v.active
  }

  lemma StepKeepsWritersActive(v: View, op: Op, out: Outcome, v': View)
    requires WritersActive(v) && Step(v, op, out, v') && !out.Published? && (out.Lost? ==> v'.active == v.active)
    ensures WritersActive(v')
  {
    hide Overlaid, Resized;
    StepKeepsShape(v, op, out, v');
    forall k | 0 <= k < |v'.at| && v'.writer[k]
      ensures v'.at[k] == v'.active
    {
      if k < |v.at| { assert v.writer[k] ==> v.at[k] == v.active; }
    }
  }

  // ----- what readers see

  ghost predicate IsMoment(views: seq<View>, n: nat, content: seq<byte>) {
    exists j :: 0 <= j <= n && j < |views| && Shape(views[j]) && content == Active(views[j])
  }

  /** Every generation holds what the active file held at some moment of the run. */
  lemma {:induction false} GenerationsAreMoments(views: seq<View>, ops: seq<Op>, outs: seq<Outcome>, i: nat)
    requires IsRun(views, ops, outs) && |views[0].contents| == 1 && i < |views[|ops|].contents|
    ensures IsMoment(views, |ops|, views[|ops|].contents[i])
    decreases |ops|
  {
    LastStep(views, ops, outs);
    var n := |ops|;
    if i != views[n].active && n > 0 {
      RunPrefix(views, ops, outs);
      var v := views[n - 1];
      GenerationBefore(v, ops[n - 1], outs[n - 1], views[n], i);
      if i != v.active {
        GenerationsAreMoments(views[..n], ops[..n - 1], outs[..n - 1], i);
        assert views[..n][n - 1] == v;
        var j :| 0 <= j <= n - 1 && Shape(views[..n][j]) && v.contents[i] == Active(views[..n][j]);
        assert views[..n][j] == views[j];
      }
    }
  }

  lemma GenerationBefore(v: View, op: Op, out: Outcome, v': View, i: nat)
    requires Shape(v) && Step(v, op, out, v') && i < |v'.contents| && i != v'.active
    ensures i < |v.contents| && v'.contents[i] == v.contents[i]
  {
    hide Overlaid, Resized;
  }

  /**
   A read on a handle of the active generation delivers the requested slice of the plain file; a
   reader left behind on an older generation sees the plain file of one earlier moment.
   */
  lemma ReadsSeePlainFile(views: seq<View>, ops: seq<Op>, outs: seq<Outcome>, n: nat)
    requires IsRun(views, ops, outs) && n < |ops| && |views[0].contents| == 1
    requires ops[n].Read? && outs[n].Bytes?
    ensures Shape(views[0]) && ops[n].handle < |views[n].at| && 0 <= ops[n].offset
    ensures exists j :: 0 <= j <= n && (views[n].at[ops[n].handle] == views[n].active ==> j == n)
              && outs[n].data == Slice(PlainRun(Active(views[0]), ops[..j], outs[..j]), ops[n].offset, ops[n].count)
  {
    assert Step(views[n], ops[n], outs[n], views[n + 1]);
    var g := views[n].at[ops[n].handle];
    RunUpTo(views, ops, outs, n);
    var vs := views[..n + 1];
    assert vs[n] == views[n];
    GenerationsAreMoments(vs, ops[..n], outs[..n], g);
    var j: nat;
    if g == views[n].active {
      j := n;
    } else {
      j :| 0 <= j <= n && Shape(vs[j]) && views[n].contents[g] == Active(vs[j]);
    }
    hide Step, Shape, IsMoment;
    RunUpTo(views, ops, outs, j);
    RunIsPlain(views[..j + 1], ops[..j], outs[..j]);
  }

  lemma RunUpTo(views: seq<View>, ops: seq<Op>, outs: seq<Outcome>, n: nat)
    requires IsRun(views, ops, outs) && n <= |ops|
    ensures IsRun(views[..n + 1], ops[..n], outs[..n])
    ensures Shape(views[0]) && Shape(views[n])
  {
    hide Step, Shape;
  }
}
