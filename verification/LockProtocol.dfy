/**
 The path locks as threads see them (src/core/lock.c:178-279): every interleaving of look-up, mutex
 acquisition, mutex release and reference drop.  A look-up or a drop is one step, because it runs
 under a shard mutex; waiting for a path mutex is not.
 */
module LockProtocol {
  import opened Basics
  import LockTable

  /** A location of a lock entry in memory; never reused while the model runs. */
  type Id = nat

  /** Where a thread is; `path` is the path it asked for. */
  datatype Pc =
    | Idle
    | Waiting(entry: Id, path: string)
    | Holding(entry: Id, path: string)
    | Finishing(entry: Id, path: string)

  datatype Entry = Entry(path: string, refs: nat, owner: Option<nat>)

  /** The table by path, the entries in memory, and the threads. */
  datatype State = State(table: map<string, Id>, entries: map<Id, Entry>, pcs: map<nat, Pc>, unused: Id)

  datatype Action =
    | LookUp(path: string)
    | OutOfMemory
    | LockMutex
    | LockFails
    | UnlockMutex
    | Drop

  predicate Uses(pc: Pc, e: Id) { !pc.Idle? && pc.entry == e }

  /** The threads that hold a reference: holders, waiters and finishing unlockers. */
  ghost function Users(s: State, e: Id): set<nat> {
    set t | t in s.pcs && Uses(s.pcs[t], e)
  }

  predicate Enabled(s: State, t: nat, a: Action) {
    && t in s.pcs
    && match a
       case LookUp(path) => s.pcs[t].Idle?
       case OutOfMemory => s.pcs[t].Idle?
       case LockMutex => s.pcs[t].Waiting? && s.pcs[t].entry in s.entries && s.entries[s.pcs[t].entry].owner.None?
       case LockFails => s.pcs[t].Waiting?
       case UnlockMutex => s.pcs[t].Holding? && s.pcs[t].entry in s.entries
       case Drop => s.pcs[t].Finishing? && s.pcs[t].entry in s.entries
  }

  /** The critical section of `myfs_lock_file`: find or make the entry, take a reference. */
  function AfterLookUp(s: State, t: nat, path: string): State
    requires t in s.pcs
  {
    if path in s.table && s.table[path] in s.entries then
      var e := s.table[path];
      if s.entries[e].refs >= LockTable.UINT_MAX then s
      else s.(entries := s.entries[e := s.entries[e].(refs := s.entries[e].refs + 1)], pcs := s.pcs[t := Waiting(e, path)])
    else
      State(s.table[path := s.unused], s.entries[s.unused := Entry(path, 1, None)],
            s.pcs[t := Waiting(s.unused, path)], s.unused + 1)
  }

  /** The critical section of `release_entry_reference`: drop it, and the entry with the last one. */
  function AfterDrop(s: State, t: nat): State
    requires t in s.pcs && !s.pcs[t].Idle? && s.pcs[t].entry in s.entries
  {
    var e := s.pcs[t].entry;
    var pcs := s.pcs[t := Idle];
    if s.entries[e].refs == 0 then s.(pcs := pcs)
    else if s.entries[e].refs == 1 then
      s.(table := s.table - {s.entries[e].path}, entries := s.entries - {e}, pcs := pcs)
    else s.(entries := s.entries[e := s.entries[e].(refs := s.entries[e].refs - 1)], pcs := pcs)
  }

  function After(s: State, t: nat, a: Action): State
    requires Enabled(s, t, a)
  {
    match a
    case LookUp(path) => AfterLookUp(s, t, path)
    case OutOfMemory => s
    case LockMutex =>
      var pc := s.pcs[t];
      s.(entries := s.entries[pc.entry := s.entries[pc.entry].(owner := Some(t))], pcs := s.pcs[t := Holding(pc.entry, pc.path)])
    case LockFails => s.(pcs := s.pcs[t := Finishing(s.pcs[t].entry, s.pcs[t].path)])
    case UnlockMutex =>
      var pc := s.pcs[t];
      s.(entries := s.entries[pc.entry := s.entries[pc.entry].(owner := None)], pcs := s.pcs[t := Finishing(pc.entry, pc.path)])
    case Drop => AfterDrop(s, t)
  }

  // ----- the invariant

  /** The table and the entries describe each other; entries in memory are in use. */
  ghost predicate TableInv(s: State) {
    && (forall p :: p in s.table ==> s.table[p] in s.entries && s.entries[s.table[p]].path == p)
    && (forall e :: e in s.entries ==> s.entries[e].path in s.table && s.table[s.entries[e].path] == e && e < s.unused)
  }

  /** A thread refers to the entry of its path, and to no other. */
  ghost predicate ThreadInv(s: State) {
    forall t :: t in s.pcs && !s.pcs[t].Idle? ==>
      s.pcs[t].entry in s.entries && s.entries[s.pcs[t].entry].path == s.pcs[t].path
  }

  ghost predicate OwnerInv(s: State) {
    forall e :: e in s.entries ==>
      && (forall t :: t in s.pcs ==> (s.entries[e].owner == Some(t) <==> s.pcs[t].Holding? && s.pcs[t].entry == e))
      && (s.entries[e].owner.Some? ==> s.entries[e].owner.value in s.pcs)
  }

  /** `refs` counts exactly the holders, waiters and finishing unlockers, and is never zero. */
  ghost predicate RefsInv(s: State) {
    forall e :: e in s.entries ==> s.entries[e].refs == |Users(s, e)| && s.entries[e].refs > 0
  }

  ghost predicate Inv(s: State) { TableInv(s) && ThreadInv(s) && OwnerInv(s) && RefsInv(s) }

  /** A thread that moves on changes only its own membership. */
  lemma UsersAfter(s: State, s': State, t: nat, e: Id)
    requires t in s.pcs && t in s'.pcs && s'.pcs == s.pcs[t := s'.pcs[t]]
    ensures Users(s', e) == if Uses(s'.pcs[t], e) then Users(s, e) + {t} else Users(s, e) - {t}
    ensures t in Users(s, e) <==> Uses(s.pcs[t], e)
  {
    assert forall u :: u in s'.pcs <==> u in s.pcs;
  }

  lemma LookUpKeepsTable(s: State, t: nat, path: string)
    requires TableInv(s) && ThreadInv(s) && t in s.pcs
    ensures TableInv(AfterLookUp(s, t, path)) && ThreadInv(AfterLookUp(s, t, path))
  {
  }

  lemma LookUpKeepsOwners(s: State, t: nat, path: string)
    requires TableInv(s) && ThreadInv(s) && OwnerInv(s) && t in s.pcs && s.pcs[t].Idle?
    ensures OwnerInv(AfterLookUp(s, t, path))
  {
  }

  lemma LookUpUsers(s: State, t: nat, path: string, e: Id)
    requires t in s.pcs && s.pcs[t].Idle? && AfterLookUp(s, t, path) != s
    ensures var s' := AfterLookUp(s, t, path);
            Users(s', e) == (if s'.pcs[t].entry == e then Users(s, e) + {t} else Users(s, e)) && t !in Users(s, e)
  {
    UsersAfter(s, AfterLookUp(s, t, path), t, e);
  }

  lemma UnusedHasNoUsers(s: State)
    requires TableInv(s) && ThreadInv(s)
    ensures Users(s, s.unused) == {} && s.unused !in s.entries
  {
  }

  lemma LookUpKeepsRefs(s: State, t: nat, path: string)
    requires TableInv(s) && ThreadInv(s) && RefsInv(s) && t in s.pcs && s.pcs[t].Idle?
    ensures RefsInv(AfterLookUp(s, t, path))
  {
    hide TableInv, ThreadInv, Users;
    UnusedHasNoUsers(s);
    var s' := AfterLookUp(s, t, path);
    if s' != s {
      forall e | e in s'.entries
        ensures s'.entries[e].refs == |Users(s', e)| && s'.entries[e].refs > 0
      {
        LookUpUsers(s, t, path, e);
      }
    }
  }

  lemma DropUsers(s: State, t: nat)
    requires Enabled(s, t, Drop)
    ensures var s' := AfterDrop(s, t);
            && (forall e :: e != s.pcs[t].entry ==> Users(s', e) == Users(s, e))
            && Users(s', s.pcs[t].entry) == Users(s, s.pcs[t].entry) - {t}
            && t in Users(s, s.pcs[t].entry)
  {
    var s' := AfterDrop(s, t);
    forall e
      ensures e != s.pcs[t].entry ==> Users(s', e) == Users(s, e)
      ensures e == s.pcs[t].entry ==> Users(s', e) == Users(s, e) - {t} && t in Users(s, e)
    {
      UsersAfter(s, s', t, e);
    }
  }

  /** The last reference is the dropping thread's own. */
  lemma LastUserDrops(s: State, t: nat)
    requires Inv(s) && Enabled(s, t, Drop) && s.entries[s.pcs[t].entry].refs == 1
    ensures forall u :: u in s.pcs && Uses(s.pcs[u], s.pcs[t].entry) ==> u == t
  {
    DropUsers(s, t);
    var users := Users(s, s.pcs[t].entry);
    assert |users - {t}| == 0;
    assert users == users - {t} + {t};
    assert forall u :: u in s.pcs && Uses(s.pcs[u], s.pcs[t].entry) ==> u in users;
  }

  lemma DropKeepsRefs(s: State, t: nat)
    requires RefsInv(s) && Enabled(s, t, Drop)
    ensures RefsInv(AfterDrop(s, t))
  {
    DropUsers(s, t);
    hide Users;
  }

  lemma DropKeepsInv(s: State, t: nat)
    requires Inv(s) && Enabled(s, t, Drop)
    ensures Inv(AfterDrop(s, t))
  {
    DropKeepsRefs(s, t);
    if s.entries[s.pcs[t].entry].refs == 1 { LastUserDrops(s, t); }
    hide RefsInv, Users;
    DropKeepsRest(s, t);
  }

  lemma DropKeepsRest(s: State, t: nat)
    requires TableInv(s) && ThreadInv(s) && OwnerInv(s) && Enabled(s, t, Drop)
    requires s.entries[s.pcs[t].entry].refs == 1 ==> forall u :: u in s.pcs && Uses(s.pcs[u], s.pcs[t].entry) ==> u == t
    ensures TableInv(AfterDrop(s, t)) && ThreadInv(AfterDrop(s, t)) && OwnerInv(AfterDrop(s, t))
  {
  }

  lemma MutexKeepsTable(s: State, t: nat, a: Action)
    requires TableInv(s) && ThreadInv(s) && Enabled(s, t, a) && (a == LockMutex || a == LockFails || a == UnlockMutex)
    ensures TableInv(After(s, t, a)) && ThreadInv(After(s, t, a))
  {
  }

  lemma MutexKeepsOwners(s: State, t: nat, a: Action)
    requires ThreadInv(s) && OwnerInv(s) && Enabled(s, t, a) && (a == LockMutex || a == LockFails || a == UnlockMutex)
    ensures OwnerInv(After(s, t, a))
  {
  }

  lemma MutexKeepsRefs(s: State, t: nat, a: Action)
    requires RefsInv(s) && ThreadInv(s) && Enabled(s, t, a) && (a == LockMutex || a == LockFails || a == UnlockMutex)
    ensures RefsInv(After(s, t, a))
  {
    var s' := After(s, t, a);
    forall e | e in s.entries
      ensures Users(s', e) == Users(s, e)
    {
      UsersAfter(s, s', t, e);
    }
  }

  /** Every step of every thread keeps the invariant. */
  lemma StepKeepsInv(s: State, t: nat, a: Action)
    requires Inv(s) && Enabled(s, t, a)
    ensures Inv(After(s, t, a))
  {
    hide TableInv, ThreadInv, OwnerInv, RefsInv;
    match a
    case LookUp(path) =>
      LookUpKeepsTable(s, t, path);
      LookUpKeepsOwners(s, t, path);
      LookUpKeepsRefs(s, t, path);
    case OutOfMemory =>
    case Drop => DropKeepsInv(s, t);
    case _ =>
      MutexKeepsTable(s, t, a);
      MutexKeepsOwners(s, t, a);
      MutexKeepsRefs(s, t, a);
  }

  // ----- runs

  datatype Event = Event(thread: nat, action: Action)

  predicate Initial(s: State) {
    s.table == map[] && s.entries == map[] && forall t :: t in s.pcs ==> s.pcs[t].Idle?
  }

  /** The state after a schedule, if each of its steps was possible. */
  function RunOf(s: State, events: seq<Event>): (r: Option<State>) {
    if events == [] then Some(s)
    else
      var before := RunOf(s, events[..|events| - 1]);
      var e := events[|events| - 1];
      if before.None? || !Enabled(before.value, e.thread, e.action) then None
      else Some(After(before.value, e.thread, e.action))
  }

  lemma {:induction false} RunKeepsInv(s: State, events: seq<Event>)
    requires Initial(s) && RunOf(s, events).Some?
    ensures Inv(RunOf(s, events).value)
    decreases |events|
  {
    if events != [] {
      var n := |events| - 1;
      RunKeepsInv(s, events[..n]);
      StepKeepsInv(RunOf(s, events[..n]).value, events[n].thread, events[n].action);
    }
  }

  /** Under every interleaving at most one thread holds a path. */
  lemma MutualExclusion(s: State, events: seq<Event>, t: nat, u: nat)
    requires Initial(s) && RunOf(s, events).Some?
    requires var now := RunOf(s, events).value;
             && t in now.pcs && u in now.pcs && now.pcs[t].Holding? && now.pcs[u].Holding?
             && now.pcs[t].path == now.pcs[u].path
    ensures t == u
  {
    RunKeepsInv(s, events);
    var now := RunOf(s, events).value;
    assert now.entries[now.pcs[t].entry].path == now.entries[now.pcs[u].entry].path;
    assert now.entries[now.pcs[t].entry].owner == Some(t);
    assert now.entries[now.pcs[u].entry].owner == Some(u);
  }

  /**
   An entry is in memory exactly as long as some thread refers to it: it is never reclaimed under a
   holder, a waiter or a finishing unlocker, and never left behind.
   */
  lemma ReclaimedExactlyWhenUnused(s: State, events: seq<Event>, e: Id)
    requires Initial(s) && RunOf(s, events).Some?
    ensures var now := RunOf(s, events).value; e in now.entries <==> Users(now, e) != {}
  {
    RunKeepsInv(s, events);
    var now := RunOf(s, events).value;
    if t :| t in Users(now, e) {
      assert now.pcs[t].entry in now.entries;
    }
  }

  /** One entry per path, and it is the one every thread on that path uses. */
  lemma OneEntryPerPath(s: State, events: seq<Event>, t: nat, u: nat)
    requires Initial(s) && RunOf(s, events).Some?
    requires var now := RunOf(s, events).value;
             && t in now.pcs && u in now.pcs && !now.pcs[t].Idle? && !now.pcs[u].Idle?
    ensures var now := RunOf(s, events).value;
            now.pcs[t].entry == now.pcs[u].entry <==> now.pcs[t].path == now.pcs[u].path
  {
    RunKeepsInv(s, events);
    var now := RunOf(s, events).value;
    assert now.table[now.pcs[t].path] == now.pcs[t].entry;
    assert now.table[now.pcs[u].path] == now.pcs[u].entry;
  }

  /** Nothing is left in the table once every thread has finished. */
  lemma EmptyWhenIdle(s: State, events: seq<Event>)
    requires Initial(s) && RunOf(s, events).Some?
    requires forall t :: t in RunOf(s, events).value.pcs ==> RunOf(s, events).value.pcs[t].Idle?
    ensures RunOf(s, events).value.entries == map[] && RunOf(s, events).value.table == map[]
  {
    RunKeepsInv(s, events);
    var now := RunOf(s, events).value;
    forall e: Id
      ensures e !in now.entries
    {
      assert Users(now, e) == {};
    }
    assert now.entries.Keys == {} && now.table.Keys == {};
  }

  /** Reference counts by path: what the table means. */
  ghost function RefsByPath(s: State): map<string, nat>
    requires TableInv(s)
  {
    map p | p in s.table :: s.entries[s.table[p]].refs
  }

  /** The look-up step is the look-up that the tables in memory perform. */
  lemma LookUpMeans(s: State, t: nat, path: string)
    requires Inv(s) && t in s.pcs && s.pcs[t].Idle?
    ensures var s' := AfterLookUp(s, t, path); var refs := RefsByPath(s);
            TableInv(s') && RefsByPath(s') ==
            if LockTable.Count(refs, path) >= LockTable.UINT_MAX then refs else LockTable.Taken(refs, path)
  {
    hide OwnerInv, RefsInv, Users;
    LookUpKeepsTable(s, t, path);
    LookedUpTable(s, t, path);
  }

  lemma LookedUpTable(s: State, t: nat, path: string)
    requires TableInv(s) && t in s.pcs && TableInv(AfterLookUp(s, t, path))
    ensures RefsByPath(AfterLookUp(s, t, path)) ==
            var refs := RefsByPath(s);
            if LockTable.Count(refs, path) >= LockTable.UINT_MAX then refs else LockTable.Taken(refs, path)
  {
    if path in s.table {
      CountedAgain(s, s.table[path], s.entries[s.table[path]].refs + 1);
    } else {
      FirstCounted(s, path);
    }
  }

  lemma CountedAgain(s: State, e: Id, n: nat)
    requires TableInv(s) && e in s.entries
    ensures var s' := s.(entries := s.entries[e := s.entries[e].(refs := n)]);
            TableInv(s') && RefsByPath(s') == RefsByPath(s)[s.entries[e].path := n]
  {
  }

  lemma FirstCounted(s: State, path: string)
    requires TableInv(s) && path !in s.table
    ensures var s' := s.(table := s.table[path := s.unused], entries := s.entries[s.unused := Entry(path, 1, None)], unused := s.unused + 1);
            TableInv(s') && RefsByPath(s') == RefsByPath(s)[path := 1]
  {
  }

  /** The drop step is the release that the tables in memory perform. */
  lemma DropMeans(s: State, t: nat)
    requires Inv(s) && Enabled(s, t, Drop)
    ensures TableInv(AfterDrop(s, t))
    ensures RefsByPath(AfterDrop(s, t)) == LockTable.Dropped(RefsByPath(s), s.pcs[t].path)
  {
    hide OwnerInv, Users;
    DropKeepsInv(s, t);
    DroppedTable(s, t);
  }

  lemma DroppedTable(s: State, t: nat)
    requires TableInv(s) && Enabled(s, t, Drop) && TableInv(AfterDrop(s, t))
    requires s.entries[s.pcs[t].entry].refs > 0 && s.entries[s.pcs[t].entry].path == s.pcs[t].path
    ensures RefsByPath(AfterDrop(s, t)) == LockTable.Dropped(RefsByPath(s), s.pcs[t].path)
  {
    var s', path := AfterDrop(s, t), s.pcs[t].path;
    assert s.table[path] == s.pcs[t].entry;
    forall p | p in s'.table && p != path
      ensures p in s.table && s'.entries[s'.table[p]].refs == s.entries[s.table[p]].refs
    {
      assert s.table[p] != s.table[path];
    }
  }

  // ----- progress

  /** What a thread does next, and how many such steps it has still to take before it has let go of the path. */
  function Next(pc: Pc): Action {
    match pc case Waiting(_, _) => LockMutex case Holding(_, _) => UnlockMutex case _ => Drop
  }

  function Left(pc: Pc): nat {
    match pc case Idle => 0 case Waiting(_, _) => 3 case Holding(_, _) => 2 case Finishing(_, _) => 1
  }

  /** Another thread holds the path that `t` asks for. */
  ghost predicate Blocked(s: State, t: nat) {
    t in s.pcs && s.pcs[t].Waiting? && exists u :: u in s.pcs && s.pcs[u].Holding? && s.pcs[u].path == s.pcs[t].path
  }

  /**
   Nobody is stuck: under every interleaving a thread that has asked for a path can go on, and is then
   nearer its end, unless it waits for one that another thread holds - and holders are not blocked.
   */
  lemma NobodyStuck(s: State, events: seq<Event>, t: nat)
    requires Initial(s) && RunOf(s, events).Some? && t in RunOf(s, events).value.pcs && !RunOf(s, events).value.pcs[t].Idle?
    ensures var now := RunOf(s, events).value;
            && (Enabled(now, t, Next(now.pcs[t])) <==> !Blocked(now, t))
            && (!Blocked(now, t) ==>
                  var next := After(now, t, Next(now.pcs[t]));
                  next.pcs == now.pcs[t := next.pcs[t]] && Left(next.pcs[t]) < Left(now.pcs[t]))
  {
    RunKeepsInv(s, events);
    var now := RunOf(s, events).value;
    hide RunOf, RefsInv;
    var e := now.pcs[t].entry;
    if now.pcs[t].Waiting? && now.entries[e].owner.Some? {
      assert now.pcs[now.entries[e].owner.value].Holding?;
    }
  }

  /** Whatever a thread does once it has asked for a path brings it nearer its end, and concerns no other thread. */
  lemma EveryStepIsNearer(s: State, t: nat, a: Action)
    requires Enabled(s, t, a) && !s.pcs[t].Idle?
    ensures var next := After(s, t, a);
            && next.pcs == s.pcs[t := next.pcs[t]] && Left(next.pcs[t]) < Left(s.pcs[t])
            && (!next.pcs[t].Idle? ==> next.pcs[t].path == s.pcs[t].path)
  {
  }

  /** `s'` is `s` after `t` could do `a`. */
  predicate Steps(s: State, t: nat, a: Action, s': State) { Enabled(s, t, a) && s' == After(s, t, a) }

  /**
   Locking and unlocking a path that nobody holds: the thread gets it, and when it has let go the table
   and every other thread are as before.  The look-up is refused only when the count of references is full.
   */
  lemma LockedAndReleased(s: State, events: seq<Event>, t: nat, path: string) returns (asked: State, held: State, left: State, last: State)
    requires Initial(s) && RunOf(s, events).Some? && t in RunOf(s, events).value.pcs && RunOf(s, events).value.pcs[t].Idle?
    requires var now := RunOf(s, events).value;
             && (forall u :: u in now.pcs && now.pcs[u].Holding? ==> now.pcs[u].path != path)
             && (path in now.table ==> |Users(now, now.table[path])| < LockTable.UINT_MAX)
    ensures var now := RunOf(s, events).value;
            && Steps(now, t, LookUp(path), asked) && Steps(asked, t, LockMutex, held)
            && t in held.pcs && held.pcs[t].Holding? && held.pcs[t].path == path && held.pcs == now.pcs[t := held.pcs[t]]
            && Steps(held, t, UnlockMutex, left) && Steps(left, t, Drop, last)
            && last == now.(unused := last.unused)
  {
    RunKeepsInv(s, events);
    var now := RunOf(s, events).value;
    assert path in now.table ==> now.entries[now.table[path]].owner.None? && now.entries[now.table[path]].refs > 0;
    asked, held, left, last := LockRound(now, t, path);
  }

  lemma LockRound(s: State, t: nat, path: string) returns (asked: State, held: State, left: State, last: State)
    requires TableInv(s) && t in s.pcs && s.pcs[t].Idle?
    requires path in s.table ==> var entry := s.entries[s.table[path]]; entry.owner.None? && 0 < entry.refs < LockTable.UINT_MAX
    ensures Steps(s, t, LookUp(path), asked) && Steps(asked, t, LockMutex, held)
    ensures t in held.pcs && held.pcs[t].Holding? && held.pcs[t].path == path && held.pcs == s.pcs[t := held.pcs[t]]
    ensures Steps(held, t, UnlockMutex, left) && Steps(left, t, Drop, last)
    ensures last == s.(unused := last.unused)
  {
    asked := After(s, t, LookUp(path));
    held := After(asked, t, LockMutex);
    left := After(held, t, UnlockMutex);
    last := After(left, t, Drop);
    if path !in s.table { assert s.unused !in s.entries; }
    assert last.table == s.table && last.entries == s.entries && last.pcs == s.pcs;
  }
}
