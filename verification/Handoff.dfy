/**
 The live hand-over of writers to a new generation (src/core/compact.c:1605-1933), step by step.  The
 thread that hands over holds the path lock; it locks the cache of every writer, publishes, switches
 the registry, swaps the descriptors and unlocks.  Readers take a cache lock at any moment.
 */
module Handoff {
  import opened Basics

  type Gen = nat

  /**
   What a handle consists of, each part with the generation it belongs to: descriptors, storage,
   chunk map, the record whose epoch it has seen, and its registry record.
   */
  datatype Handle = Handle(dataFd: Gen, metaFd: Gen, storage: Gen, chunkMap: Gen, seenOf: Gen, record: Gen,
                           writable: bool, readers: nat, locked: bool)

  /** An unreadable pointer names the old or the new generation of the publication that was lost. */
  datatype Pointer = Names(generation: Gen) | Unreadable

  datatype Pc =
    | Idle
    | Locking(done: nat)
    | Publishing
    | Registering
    | Swapping(done: nat)
    | Unlocking(left: nat)

  /** `writers` are the prepared handles, in the order their locks are taken. */
  datatype State = State(handles: map<nat, Handle>, pointer: Pointer, superseded: set<Gen>,
                         was: Gen, next: Gen, writers: seq<nat>, pc: Pc)

  /** What a publication did, as far as its caller can tell. */
  datatype Outcome = NotVisible | Visible | Lost

  datatype Action =
    | Open(handle: nat, writable: bool)
    | Close(handle: nat)
    | BeginRead(handle: nat)
    | EndRead(handle: nat)
    | Begin(next: Gen, writers: seq<nat>)
    | LockNext
    | LockFails
    | Publish(outcome: Outcome)
    | Resolve(generation: Gen)
    | Switch(recordMade: bool)
    | SwapNext
    | UnlockNext
    | Finish

  /** The writable handles of generation `g`, each once. */
  predicate ListsWriters(s: State, g: Gen, writers: seq<nat>) {
    && (forall i, j :: 0 <= i < j < |writers| ==> writers[i] != writers[j])
    && (forall h :: h in writers ==> h in s.handles && s.handles[h].writable && s.handles[h].record == g)
    && (forall h :: h in s.handles && s.handles[h].writable && s.handles[h].record == g ==> h in writers)
  }

  predicate Enabled(s: State, a: Action) {
    match a
    case Open(h, _) => s.pc == Idle && h !in s.handles && s.pointer.Names?
    case Close(h) => s.pc == Idle && h in s.handles && s.handles[h].readers == 0
    case BeginRead(h) => h in s.handles && !s.handles[h].locked
    case EndRead(h) => h in s.handles && s.handles[h].readers > 0
    case Begin(next, writers) =>
      s.pc == Idle && s.pointer.Names? && ListsWriters(s, s.pointer.generation, writers)
      && next != s.pointer.generation && next !in s.superseded
      && forall h :: h in s.handles ==> s.handles[h].record != next
    case LockNext => s.pc.Locking? && s.pc.done < |s.writers| && s.writers[s.pc.done] in s.handles && s.handles[s.writers[s.pc.done]].readers == 0
    case LockFails => s.pc.Locking?
    case Publish(_) => s.pc == Publishing
    case Resolve(g) => s.pc == Idle && s.pointer.Unreadable? && (g == s.was || g == s.next)
    case Switch(_) => s.pc == Registering
    case SwapNext => s.pc.Swapping? && s.pc.done < |s.writers| && s.writers[s.pc.done] in s.handles
    case UnlockNext => s.pc.Unlocking? && 0 < s.pc.left <= |s.writers| && s.writers[s.pc.left - 1] in s.handles
    case Finish => (s.pc.Locking? && s.pc.done == |s.writers|) || (s.pc.Swapping? && s.pc.done == |s.writers|) || s.pc == Unlocking(0)
  }

  function Update(s: State, h: nat, handle: Handle): State { s.(handles := s.handles[h := handle]) }

  /** The registry transaction: record, storage and epoch of all the writers at once. */
  function Switched(s: State): map<nat, Handle> {
    map h | h in s.handles ::
      if h in s.writers then s.handles[h].(storage := s.next, seenOf := s.next, record := s.next) else s.handles[h]
  }

  function After(s: State, a: Action): State
    requires Enabled(s, a)
  {
    match a
    case Open(h, writable) =>
      var g := s.pointer.generation;
      Update(s, h, Handle(g, g, g, g, g, g, writable, 0, false))
    case Close(h) => s.(handles := s.handles - {h})
    case BeginRead(h) => Update(s, h, s.handles[h].(readers := s.handles[h].readers + 1))
    case EndRead(h) => Update(s, h, s.handles[h].(readers := s.handles[h].readers - 1))
    case Begin(next, writers) =>
      s.(was := s.pointer.generation, next := next, writers := writers, pc := Locking(0))
    case LockNext =>
      var h := s.writers[s.pc.done];
      Update(s, h, s.handles[h].(locked := true)).(pc := Locking(s.pc.done + 1))
    case LockFails => s.(pc := Unlocking(s.pc.done))
    case Resolve(g) => s.(pointer := Names(g))
    case Publish(NotVisible) => s.(pc := Unlocking(|s.writers|))
    case Publish(Visible) => s.(pointer := Names(s.next), pc := Registering)
    case Publish(Lost) => s.(pointer := Unreadable, superseded := s.superseded + {s.was}, pc := Unlocking(|s.writers|))
    case Switch(recordMade) =>
      var t := s.(superseded := s.superseded + {s.was});
      if recordMade then t.(handles := Switched(s), pc := Swapping(0)) else t.(pc := Unlocking(|s.writers|))
    case SwapNext =>
      var h := s.writers[s.pc.done];
      Update(s, h, s.handles[h].(dataFd := s.next, metaFd := s.next, chunkMap := s.next)).(pc := Swapping(s.pc.done + 1))
    case UnlockNext =>
      var h := s.writers[s.pc.left - 1];
      Update(s, h, s.handles[h].(locked := false)).(pc := Unlocking(s.pc.left - 1))
    case Finish =>
      if s.pc.Locking? then s.(pc := Publishing)
      else if s.pc.Swapping? then s.(pc := Unlocking(|s.writers|))
      else s.(pc := Idle, writers := [])
  }

  // ----- the invariant

  /** All parts of the handle belong to one generation. */
  predicate Uniform(h: Handle) {
    h.dataFd == h.record && h.metaFd == h.record && h.storage == h.record && h.chunkMap == h.record && h.seenOf == h.record
  }

  /** Between the registry switch and its own swap a handle is mixed. */
  predicate HalfSwapped(h: Handle, was: Gen, next: Gen) {
    h.storage == next && h.seenOf == next && h.record == next && h.dataFd == was && h.metaFd == was && h.chunkMap == was
  }

  /** How many of the writers are locked. */
  function LockedCount(s: State): nat {
    match s.pc
    case Idle => 0
    case Locking(done) => done
    case Unlocking(left) => left
    case _ => |s.writers|
  }

  /** The writers are distinct and exist; the hand-over holds the locks of the first of them. */
  ghost predicate LockInv(s: State) {
    && LockedCount(s) <= |s.writers| && (s.pc == Idle ==> s.writers == []) && (s.pc.Swapping? ==> s.pc.done <= |s.writers|)
    && (forall i, j :: 0 <= i < j < |s.writers| ==> s.writers[i] != s.writers[j])
    && (forall i :: 0 <= i < |s.writers| ==> s.writers[i] in s.handles && s.handles[s.writers[i]].writable)
    && (forall i :: 0 <= i < |s.writers| ==> (s.handles[s.writers[i]].locked <==> i < LockedCount(s)))
    && (forall h :: h in s.handles && h !in s.writers ==> !s.handles[h].locked)
    && (forall h :: h in s.handles && s.handles[h].locked ==> s.handles[h].readers == 0)
  }

  ghost predicate PartsInv(s: State) {
    if s.pc.Swapping? then
      && (forall h :: h in s.handles && h !in s.writers ==> Uniform(s.handles[h]))
      && (forall i :: 0 <= i < |s.writers| && s.writers[i] in s.handles ==>
            if i < s.pc.done then Uniform(s.handles[s.writers[i]]) && s.handles[s.writers[i]].record == s.next
            else HalfSwapped(s.handles[s.writers[i]], s.was, s.next))
    else forall h :: h in s.handles ==> Uniform(s.handles[h])
  }

  /** An unlocked writer is on the generation `.current` names, or its record is superseded. */
  ghost predicate WriterInv(s: State) {
    && (forall h :: h in s.handles && s.handles[h].writable && !s.handles[h].locked ==>
          s.pointer == Names(s.handles[h].record) || s.handles[h].record in s.superseded)
    && match s.pc
       case Idle => true
       case Locking(_) => s.pointer == Names(s.was) && AllWriters(s, s.was)
       case Publishing => s.pointer == Names(s.was) && AllWriters(s, s.was)
       case Registering => s.pointer == Names(s.next) && AllWriters(s, s.was)
       case Swapping(_) => s.pointer == Names(s.next) && AllOn(s, s.next)
       case Unlocking(_) => forall i :: 0 <= i < |s.writers| && s.writers[i] in s.handles ==>
         s.pointer == Names(s.handles[s.writers[i]].record) || s.handles[s.writers[i]].record in s.superseded
  }

  ghost predicate AllOn(s: State, g: Gen) {
    forall i :: 0 <= i < |s.writers| && s.writers[i] in s.handles ==> s.handles[s.writers[i]].record == g
  }

  ghost predicate AllWriters(s: State, g: Gen) {
    AllOn(s, g) && forall h :: h in s.handles && s.handles[h].writable && s.handles[h].record == g ==> h in s.writers
  }

  ghost predicate Inv(s: State) { LockInv(s) && PartsInv(s) && WriterInv(s) }

  lemma HandleKeepsLocks(s: State, a: Action)
    requires LockInv(s) && Enabled(s, a) && (a.BeginRead? || a.EndRead? || a.Open? || a.Close?)
    ensures LockInv(After(s, a))
  {
  }

  lemma BeginKeepsLocks(s: State, a: Action)
    requires LockInv(s) && Enabled(s, a) && (a.Begin? || a.Resolve?)
    ensures LockInv(After(s, a))
  {
  }

  lemma LockKeepsLocks(s: State, a: Action)
    requires LockInv(s) && Enabled(s, a) && (a.LockNext? || a.LockFails?)
    ensures LockInv(After(s, a))
  {
  }

  lemma UnlockKeepsLocks(s: State, a: Action)
    requires LockInv(s) && Enabled(s, a) && (a.UnlockNext? || a.Finish?)
    ensures LockInv(After(s, a))
  {
  }

  lemma MoveKeepsLocks(s: State, a: Action)
    requires LockInv(s) && Enabled(s, a) && (a.Publish? || a.SwapNext?)
    ensures LockInv(After(s, a))
  {
  }

  lemma SwitchKeepsLocks(s: State, a: Action)
    requires LockInv(s) && Enabled(s, a) && (a.Switch?)
    ensures LockInv(After(s, a))
  {
  }

  lemma HandleKeepsWriters(s: State, a: Action)
    requires LockInv(s) && WriterInv(s) && Enabled(s, a) && (a.BeginRead? || a.EndRead? || a.Open? || a.Close?)
    ensures WriterInv(After(s, a))
  {
  }

  lemma BeginKeepsWriters(s: State, a: Action)
    requires LockInv(s) && WriterInv(s) && Enabled(s, a) && (a.Begin? || a.Resolve?)
    ensures WriterInv(After(s, a))
  {
  }

  lemma LockKeepsWriters(s: State, a: Action)
    requires LockInv(s) && WriterInv(s) && Enabled(s, a) && (a.LockNext? || a.LockFails?)
    ensures WriterInv(After(s, a))
  {
  }

  lemma UnlockKeepsWriters(s: State, a: Action)
    requires LockInv(s) && WriterInv(s) && Enabled(s, a) && (a.UnlockNext? || a.Finish?)
    ensures WriterInv(After(s, a))
  {
  }

  lemma MoveKeepsWriters(s: State, a: Action)
    requires LockInv(s) && WriterInv(s) && Enabled(s, a) && (a.Publish? || a.SwapNext?)
    ensures WriterInv(After(s, a))
  {
  }

  lemma SwitchKeepsWriters(s: State, a: Action)
    requires LockInv(s) && WriterInv(s) && Enabled(s, a) && (a.Switch?)
    ensures WriterInv(After(s, a))
  {
  }

  lemma StepKeepsLocks(s: State, a: Action)
    requires LockInv(s) && Enabled(s, a)
    ensures LockInv(After(s, a))
  {
    hide Enabled, After, LockInv, WriterInv;
    match a
    case Open(_, _) => HandleKeepsLocks(s, a);
    case Close(_) => HandleKeepsLocks(s, a);
    case BeginRead(_) => HandleKeepsLocks(s, a);
    case EndRead(_) => HandleKeepsLocks(s, a);
    case Begin(_, _) => BeginKeepsLocks(s, a);
    case LockNext => LockKeepsLocks(s, a);
    case LockFails => LockKeepsLocks(s, a);
    case Publish(_) => MoveKeepsLocks(s, a);
    case Resolve(_) => BeginKeepsLocks(s, a);
    case Switch(_) => SwitchKeepsLocks(s, a);
    case SwapNext => MoveKeepsLocks(s, a);
    case UnlockNext => UnlockKeepsLocks(s, a);
    case Finish => UnlockKeepsLocks(s, a);
  }

  lemma StepKeepsWriters(s: State, a: Action)
    requires LockInv(s) && WriterInv(s) && Enabled(s, a)
    ensures WriterInv(After(s, a))
  {
    hide Enabled, After, LockInv, WriterInv;
    match a
    case Open(_, _) => HandleKeepsWriters(s, a);
    case Close(_) => HandleKeepsWriters(s, a);
    case BeginRead(_) => HandleKeepsWriters(s, a);
    case EndRead(_) => HandleKeepsWriters(s, a);
    case Begin(_, _) => BeginKeepsWriters(s, a);
    case LockNext => LockKeepsWriters(s, a);
    case LockFails => LockKeepsWriters(s, a);
    case Publish(_) => MoveKeepsWriters(s, a);
    case Resolve(_) => BeginKeepsWriters(s, a);
    case Switch(_) => SwitchKeepsWriters(s, a);
    case SwapNext => MoveKeepsWriters(s, a);
    case UnlockNext => UnlockKeepsWriters(s, a);
    case Finish => UnlockKeepsWriters(s, a);
  }

  lemma SwitchKeepsParts(s: State, a: Action)
    requires LockInv(s) && PartsInv(s) && WriterInv(s) && Enabled(s, a) && a.Switch?
    ensures PartsInv(After(s, a))
  {
  }

  lemma HandleKeepsParts(s: State, a: Action)
    requires LockInv(s) && PartsInv(s) && Enabled(s, a) && (a.BeginRead? || a.EndRead? || a.Open? || a.Close?)
    ensures PartsInv(After(s, a))
  {
  }

  lemma SwapKeepsParts(s: State)
    requires LockInv(s) && PartsInv(s) && Enabled(s, SwapNext)
    ensures PartsInv(After(s, SwapNext))
  {
  }

  lemma OtherKeepsParts(s: State, a: Action)
    requires LockInv(s) && PartsInv(s) && Enabled(s, a) && !a.Switch? && !a.SwapNext?
    requires !(a.BeginRead? || a.EndRead? || a.Open? || a.Close?)
    ensures PartsInv(After(s, a))
  {
  }

  lemma StepKeepsParts(s: State, a: Action)
    requires LockInv(s) && PartsInv(s) && WriterInv(s) && Enabled(s, a)
    ensures PartsInv(After(s, a))
  {
    hide Enabled, After, LockInv, PartsInv, WriterInv;
    match a
    case Switch(_) => SwitchKeepsParts(s, a);
    case SwapNext => SwapKeepsParts(s);
    case Open(_, _) => HandleKeepsParts(s, a);
    case Close(_) => HandleKeepsParts(s, a);
    case BeginRead(_) => HandleKeepsParts(s, a);
    case EndRead(_) => HandleKeepsParts(s, a);
    case _ => OtherKeepsParts(s, a);
  }

  lemma StepKeepsInv(s: State, a: Action)
    requires Inv(s) && Enabled(s, a)
    ensures Inv(After(s, a))
  {
    hide Enabled, After, LockInv, PartsInv, WriterInv;
    StepKeepsLocks(s, a);
    StepKeepsParts(s, a);
    StepKeepsWriters(s, a);
  }

  // ----- runs

  /** Any handles, none mid-way, writers on the generation of the pointer or superseded. */
  ghost predicate Initial(s: State) {
    && s.pc == Idle && s.writers == []
    && (forall h :: h in s.handles ==> Uniform(s.handles[h]) && !s.handles[h].locked)
    && forall h :: h in s.handles && s.handles[h].writable ==>
         s.pointer == Names(s.handles[h].record) || s.handles[h].record in s.superseded
  }

  function RunOf(s: State, actions: seq<Action>): Option<State> {
    if actions == [] then Some(s)
    else
      var before := RunOf(s, actions[..|actions| - 1]);
      if before.None? || !Enabled(before.value, actions[|actions| - 1]) then None
      else Some(After(before.value, actions[|actions| - 1]))
  }

  lemma {:induction false} RunKeepsInv(s: State, actions: seq<Action>)
    requires Initial(s) && RunOf(s, actions).Some?
    ensures Inv(RunOf(s, actions).value)
    decreases |actions|
  {
    if actions != [] {
      var n := |actions| - 1;
      RunKeepsInv(s, actions[..n]);
      hide Enabled, After, Inv, Initial;
      StepKeepsInv(RunOf(s, actions[..n]).value, actions[n]);
    }
  }

  /**
   Whoever gets a cache lock, at any moment of any hand-over, finds descriptors, storage, map, epoch
   and record of one generation.
   */
  lemma ReadersSeeOneGeneration(s: State, actions: seq<Action>, h: nat)
    requires Initial(s) && RunOf(s, actions).Some? && h in RunOf(s, actions).value.handles
    requires var now := RunOf(s, actions).value; !now.handles[h].locked || now.handles[h].readers > 0
    ensures Uniform(RunOf(s, actions).value.handles[h])
  {
    RunKeepsInv(s, actions);
    WritersLockedWhileSwapping(RunOf(s, actions).value, h);
  }

  lemma WritersLockedWhileSwapping(s: State, h: nat)
    requires LockInv(s)
    ensures s.pc.Swapping? && h in s.writers ==> h in s.handles && s.handles[h].locked
  {
  }

  /**
   On every exit a writer is bound to the generation that `.current` names, or is stale: no write
   can be acknowledged on any other generation.
   */
  lemma NoWriteElsewhere(s: State, actions: seq<Action>, h: nat)
    requires Initial(s) && RunOf(s, actions).Some? && RunOf(s, actions).value.pc == Idle
    requires var now := RunOf(s, actions).value;
             h in now.handles && now.handles[h].writable && now.handles[h].record !in now.superseded
    ensures var now := RunOf(s, actions).value;
            now.pointer == Names(now.handles[h].dataFd) && Uniform(now.handles[h])
  {
    RunKeepsInv(s, actions);
  }
}
