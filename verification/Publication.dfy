/**
 Which generation the `.current` pointer names after a crash (src/core/path.c:277-430,
 src/core/compact.c:1183-1279, 1734-1811, 2177-2215, src/fuse_ops/dir.c:258-333).

 One logical path; one thread at a time holds its path lock and is somewhere in a compaction, a
 recovery, a garbage collection or an unlink.  Directory changes become durable with the next
 successful sync of the parent directory; until then a power loss may undo them.
 */
module Publication {
  import opened Basics

  type Gen = nat

  /** A record waiting for collection: whether it still owes the alias step, and whether its name is gone. */
  datatype Mark = Mark(install: bool, unlinked: bool)

  /** An open file: the generation it is on, `None` for the legacy pair. */
  datatype Handle = Handle(on: Option<Gen>, writable: bool)

  /** Where the holder of the path lock is. */
  datatype Pc =
    | Idle
    | Prepared(before: Option<Gen>, next: Gen)
    | LinkSynced(before: Option<Gen>, next: Gen)
    | Renamed(before: Option<Gen>, next: Gen)
    | Durable(before: Option<Gen>, next: Gen)
    | Recovering
    | Collecting
    | Unlinking(victim: Gen)
    | PointerGone
    | AliasesGoing

  /**
   `visible` is what `.current` names now, `surviving` what it may name after a power loss.
   `complete` are the generations whose files and directory entries are all synced and not being
   removed, `used` the ids ever taken.  `pending`, `open` and `handles` belong to this process: `open`
   is what the registry's records count, `handles` are the open files themselves.
   `pairTouched` says that the alias step has replaced the legacy pair, `unlinkBegun` that the file
   is being removed; both are forgotten when it is gone, so that its name can be used again.
   */
  datatype State = State(visible: Option<Gen>, surviving: set<Option<Gen>>, complete: set<Gen>, used: set<Gen>,
                         pending: map<Gen, Mark>, legacyPending: bool, open: map<Option<Gen>, nat>, handles: map<nat, Handle>,
                         pairTouched: bool, unlinkBegun: bool, pc: Pc)

  datatype Action =
    | Prepare(next: Gen)
    | PrepareFails(next: Gen, synced: bool)
    | SyncLink(ok: bool)
    | Rename(ok: bool)
    | SyncPointer(ok: bool, handed: bool)
    | MarkOld
    | RecoverStart(synced: bool)
    | RecoverMark(victim: Gen)
    | RecoverLegacy
    | RecoverEnd
    | CollectStart
    | InstallAliases
    | Remove(victim: Gen)
    | Retire(victim: Gen)
    | CollectEnd
    | UnlinkStart
    | RemovePointer
    | SyncRemoval(ok: bool)
    | RemoveAliases(ok: bool)
    | RemovePair(ok: bool)
    | OpenHandle(handle: nat, writable: bool)
    | CloseHandle(handle: nat)
    | PowerLoss(pointer: Option<Gen>)
    | Restart

  /** What the record of a generation, or of the legacy pair, counts. */
  function Refs(s: State, p: Option<Gen>): nat { if p in s.open then s.open[p] else 0 }

  function OpenCount(s: State, g: Gen): nat { Refs(s, Some(g)) }

  /** The open files on a generation, and those of them that write. */
  function Users(s: State, p: Option<Gen>): set<nat> { set h | h in s.handles && s.handles[h].on == p }

  function Writers(s: State, p: Option<Gen>): set<nat> { set h | h in s.handles && s.handles[h].on == p && s.handles[h].writable }

  /** The registry transaction: `n` handles leave one record and enter the other. */
  function HandedOver(s: State, before: Option<Gen>, next: Gen, n: nat): map<Option<Gen>, nat> {
    var left := s.open[before := if Refs(s, before) >= n then Refs(s, before) - n else 0];
    left[Some(next) := (if Some(next) in left then left[Some(next)] else 0) + n]
  }

  /** The writers follow the pointer, durable or not. */
  function Moved(s: State, before: Option<Gen>, next: Gen): map<nat, Handle> {
    map h | h in s.handles ::
      if s.handles[h].on == before && s.handles[h].writable then s.handles[h].(on := Some(next)) else s.handles[h]
  }

  /** `mark_generation_for_gc_locked`: an alias obligation stays, unless the name is gone. */
  function Marked(s: State, g: Gen, install: bool): map<Gen, Mark> {
    var was := if g in s.pending then s.pending[g] else Mark(false, false);
    s.pending[g := if was.unlinked then was else Mark(was.install || install, false)]
  }

  /** The sync of the parent directory: what is visible is what survives. */
  function Synced(s: State): State { s.(surviving := {s.visible}) }

  /** The name is durably gone: no record owes it anything, and a file created anew starts afresh. */
  function Gone(s: State): State {
    Synced(s.(pending := map g | g in s.pending :: Mark(false, true), legacyPending := false,
              pairTouched := false, unlinkBegun := false, pc := Collecting))
  }

  predicate Enabled(s: State, a: Action) {
    match a
    case Prepare(next) => s.pc == Idle && next !in s.used
    case PrepareFails(next, _) => s.pc == Idle && next !in s.used
    case SyncLink(_) => s.pc.Prepared?
    case Rename(_) => s.pc.LinkSynced?
    case SyncPointer(_, _) => s.pc.Renamed?
    case MarkOld => s.pc.Durable?
    case RecoverStart(_) => s.pc == Idle
    case RecoverMark(g) => s.pc == Recovering && g in s.used && s.visible != Some(g)
    case RecoverLegacy => s.pc == Recovering && s.visible.Some?
    case RecoverEnd => s.pc == Recovering
    case CollectStart => s.pc == Idle
    case InstallAliases =>
      && s.pc == Collecting && s.visible.Some? && Refs(s, None) == 0
      && (s.legacyPending || exists g :: g in s.pending && s.pending[g].install)
    case Remove(g) =>
      && s.pc == Collecting && g in s.pending && s.visible != Some(g) && OpenCount(s, g) == 0
      && (s.pending[g].install ==> s.visible.Some?)
    case Retire(g) => s.pc == Collecting && g in s.pending && g !in s.complete
    case CollectEnd => s.pc == Collecting
    case UnlinkStart => s.pc == Idle && s.visible.Some?
    case RemovePointer => s.pc.Unlinking?
    case SyncRemoval(_) => s.pc == PointerGone
    case RemoveAliases(_) => s.pc == AliasesGoing
    case RemovePair(_) => s.pc == Idle && s.visible.None?
    case OpenHandle(h, _) => s.pc == Idle && h !in s.handles && (s.visible.Some? || !s.unlinkBegun)
    case CloseHandle(h) => s.pc == Idle && h in s.handles
    case PowerLoss(p) => p in s.surviving
    case Restart => true
  }

  /** The prepared writers move, in the registry and in fact. */
  function AfterHandOver(s: State): State
    requires s.pc.Renamed?
  {
    s.(open := HandedOver(s, s.pc.before, s.pc.next, |Writers(s, s.pc.before)|), handles := Moved(s, s.pc.before, s.pc.next))
  }

  function After(s: State, a: Action): State
    requires Enabled(s, a)
  {
    match a
    case Prepare(next) =>
      Synced(s.(complete := s.complete + {next}, used := s.used + {next}, pc := Prepared(s.visible, next)))
    case PrepareFails(next, synced) => var t := s.(used := s.used + {next}); if synced then Synced(t) else t
    case SyncLink(ok) => if ok then Synced(s.(pc := LinkSynced(s.pc.before, s.pc.next))) else s.(pc := Idle)
    case Rename(ok) =>
      if ok then s.(visible := Some(s.pc.next), surviving := s.surviving + {Some(s.pc.next)}, pc := Renamed(s.pc.before, s.pc.next))
      else s.(pc := Idle)
    case SyncPointer(ok, handed) =>
      var t := if handed then AfterHandOver(s) else s;
      var pc := if ok && handed then Durable(s.pc.before, s.pc.next) else Idle;
      if ok then Synced(t.(pc := pc)) else t.(pc := pc)
    case MarkOld =>
      if s.pc.before.Some? then s.(pending := Marked(s, s.pc.before.value, true), pc := Collecting)
      else s.(legacyPending := true, pc := Collecting)
    case RecoverStart(synced) =>
      if s.visible.None? then s.(pc := Recovering)
      else if synced then Synced(s.(pc := Recovering)) else s
    case RecoverMark(g) => s.(pending := Marked(s, g, s.visible.Some?))
    case RecoverLegacy => s.(legacyPending := true)
    case RecoverEnd => s.(pc := Collecting)
    case CollectStart => s.(pc := Collecting)
    case InstallAliases => s.(pairTouched := true)
    case Remove(g) => s.(complete := s.complete - {g})
    case Retire(g) => s.(pending := s.pending - {g})
    case CollectEnd => s.(pc := Idle)
    case UnlinkStart => s.(pending := Marked(s, s.visible.value, true), pc := Unlinking(s.visible.value))
    case RemovePointer => s.(visible := None, surviving := s.surviving + {None}, unlinkBegun := true, pc := PointerGone)
    case SyncRemoval(ok) => if ok then Synced(s.(pc := AliasesGoing)) else s.(pc := Idle)
    case RemoveAliases(ok) => if ok then Gone(s) else s.(pc := Idle)
    case RemovePair(ok) => if ok then Gone(s) else s.(unlinkBegun := true)
    case OpenHandle(h, writable) =>
      s.(open := s.open[s.visible := Refs(s, s.visible) + 1], handles := s.handles[h := Handle(s.visible, writable)])
    case CloseHandle(h) =>
      var p := s.handles[h].on;
      s.(open := s.open[p := if Refs(s, p) > 0 then Refs(s, p) - 1 else 0], handles := s.handles - {h})
    case PowerLoss(p) =>
      s.(visible := p, surviving := {p}, pending := map[], legacyPending := false, open := map[], handles := map[], pc := Idle,
         unlinkBegun := s.unlinkBegun && p.None?)
    case Restart => s.(pending := map[], legacyPending := false, open := map[], handles := map[], pc := Idle)
  }

  // ----- what must always hold

  /** Whatever `.current` may name after a power loss is there, in full. */
  ghost predicate Safe(s: State) {
    && (forall g :: Some(g) in s.surviving ==> g in s.complete)
    && (None in s.surviving && !s.unlinkBegun ==> !s.pairTouched)
  }

  /** A generation the pointer may fall back to is not up for removal. */
  ghost predicate Guarded(s: State) {
    forall g :: g in s.pending && Some(g) in s.surviving ==>
      s.visible == Some(g) || (s.visible.None? && s.pending[g].install)
  }

  /** Some record still owes the alias step. */
  ghost predicate Owes(s: State) {
    s.legacyPending || exists g :: g in s.pending && s.pending[g].install
  }

  /**
   Nothing the pointer may fall back to would be collected on a path without a pointer: either its
   absence is durable, or this process still owes those generations the alias step.
   */
  ghost predicate Protected(s: State) {
    s.visible.None? ==> forall g :: Some(g) in s.surviving ==> g in s.pending && s.pending[g].install
  }

  ghost predicate Fresh(s: State, g: Gen) {
    g in s.complete && Some(g) !in s.surviving && g !in s.pending
  }

  /** What the lock holder knows about its own position. */
  ghost predicate PcInv(s: State) {
    match s.pc
    case Prepared(before, next) => Fresh(s, next) && s.visible == before
    case LinkSynced(before, next) => Fresh(s, next) && s.visible == before && s.surviving == {before}
    case Renamed(before, next) => s.visible == Some(next) && s.surviving == {before, Some(next)} && before != Some(next)
    case Durable(before, next) => s.visible == Some(next) && s.surviving == {Some(next)} && before != Some(next)
    case Recovering => Protected(s) && (s.visible.Some? ==> s.surviving == {s.visible})
    case Unlinking(g) => s.visible == Some(g) && g in s.pending && s.pending[g].install
    case PointerGone => s.visible.None? && s.unlinkBegun
    case AliasesGoing => s.visible.None? && s.surviving == {None} && s.unlinkBegun
    case _ => true
  }

  /** Ids of generations on disk, in the registry or behind the pointer have been used. */
  ghost predicate UsedInv(s: State) {
    && (forall g :: g in s.complete ==> g in s.used)
    && (forall g :: g in s.pending ==> g in s.used)
    && (s.pc.Prepared? || s.pc.LinkSynced? || s.pc.Renamed? || s.pc.Durable? ==>
          s.pc.before.Some? ==> s.pc.before.value in s.used)
  }

  ghost predicate Inv(s: State) {
    && Safe(s) && s.visible in s.surviving && Guarded(s) && PcInv(s) && UsedInv(s)
    && (s.visible.Some? && s.visible.value in s.pending ==> s.pc.Unlinking?)
    && (Owes(s) ==> None !in s.surviving || s.unlinkBegun || s.pc.Unlinking?)
  }

  /** Recovery of a path without a pointer starts only where nothing can be lost by it. */
  ghost predicate Careful(s: State, a: Action) {
    a.RecoverStart? ==> Protected(s)
  }

  lemma PrepareStep(s: State, next: Gen)
    requires Inv(s) && Enabled(s, Prepare(next))
    ensures Inv(After(s, Prepare(next)))
  {
  }

  lemma FailedPrepareStep(s: State, next: Gen, synced: bool)
    requires Inv(s) && Enabled(s, PrepareFails(next, synced))
    ensures Inv(After(s, PrepareFails(next, synced)))
  {
  }

  lemma SyncLinkStep(s: State, ok: bool)
    requires Inv(s) && Enabled(s, SyncLink(ok))
    ensures Inv(After(s, SyncLink(ok)))
  {
  }

  lemma RenameStep(s: State, ok: bool)
    requires Inv(s) && Enabled(s, Rename(ok))
    ensures Inv(After(s, Rename(ok)))
  {
  }

  lemma SyncPointerStep(s: State, ok: bool, handed: bool)
    requires Inv(s) && Enabled(s, SyncPointer(ok, handed))
    ensures Inv(After(s, SyncPointer(ok, handed)))
  {
    hide HandedOver, Moved, Writers;
  }

  lemma MarkOldStep(s: State)
    requires Inv(s) && Enabled(s, MarkOld)
    ensures Inv(After(s, MarkOld))
  {
    var g := s.pc.before;
    if g.Some? {
      MarkedOnly(s, g.value, true);
      hide Marked;
    }
  }

  /** A mark concerns one record, and a record with its name still there owes the aliases from then on. */
  lemma MarkedOnly(s: State, g: Gen, install: bool)
    ensures var m := Marked(s, g, install);
            && m.Keys == s.pending.Keys + {g} && (forall h :: h in s.pending && h != g ==> m[h] == s.pending[h])
            && (m[g].install ==> install || (g in s.pending && s.pending[g].install))
  {
  }

  lemma RecoveryStep(s: State, a: Action)
    requires Inv(s) && Enabled(s, a) && Careful(s, a)
    requires a.RecoverStart? || a.RecoverMark? || a.RecoverLegacy? || a.RecoverEnd?
    ensures Inv(After(s, a))
  {
  }

  lemma CollectionStep(s: State, a: Action)
    requires Inv(s) && Enabled(s, a)
    requires a.CollectStart? || a.InstallAliases? || a.Remove? || a.Retire? || a.CollectEnd?
    ensures Inv(After(s, a))
  {
  }

  lemma UnlinkStartStep(s: State, a: Action)
    requires Inv(s) && Enabled(s, a) && (a.UnlinkStart? || a.RemovePointer?)
    ensures Inv(After(s, a))
  {
  }

  lemma SyncRemovalStep(s: State, ok: bool)
    requires Inv(s) && Enabled(s, SyncRemoval(ok))
    ensures Inv(After(s, SyncRemoval(ok)))
  {
  }

  lemma RemoveAliasesStep(s: State, ok: bool)
    requires Inv(s) && Enabled(s, RemoveAliases(ok))
    ensures Inv(After(s, RemoveAliases(ok)))
  {
  }

  lemma RemovePairStep(s: State, ok: bool)
    requires Inv(s) && Enabled(s, RemovePair(ok))
    ensures Inv(After(s, RemovePair(ok)))
  {
  }

  lemma OtherStep(s: State, a: Action)
    requires Inv(s) && Enabled(s, a)
    requires a.OpenHandle? || a.CloseHandle? || a.PowerLoss? || a.Restart?
    ensures Inv(After(s, a))
  {
  }

  lemma StepKeepsInv(s: State, a: Action)
    requires Inv(s) && Enabled(s, a) && Careful(s, a)
    ensures Inv(After(s, a))
  {
    hide Inv, After;
    match a
    case Prepare(next) => PrepareStep(s, next);
    case PrepareFails(next, synced) => FailedPrepareStep(s, next, synced);
    case SyncLink(ok) => SyncLinkStep(s, ok);
    case Rename(ok) => RenameStep(s, ok);
    case SyncPointer(ok, handed) => SyncPointerStep(s, ok, handed);
    case MarkOld => MarkOldStep(s);
    case RecoverStart(_) => RecoveryStep(s, a);
    case RecoverMark(_) => RecoveryStep(s, a);
    case RecoverLegacy => RecoveryStep(s, a);
    case RecoverEnd => RecoveryStep(s, a);
    case CollectStart => CollectionStep(s, a);
    case InstallAliases => CollectionStep(s, a);
    case Remove(_) => CollectionStep(s, a);
    case Retire(_) => CollectionStep(s, a);
    case CollectEnd => CollectionStep(s, a);
    case UnlinkStart => UnlinkStartStep(s, a);
    case RemovePointer => UnlinkStartStep(s, a);
    case SyncRemoval(ok) => SyncRemovalStep(s, ok);
    case RemoveAliases(ok) => RemoveAliasesStep(s, ok);
    case RemovePair(ok) => RemovePairStep(s, ok);
    case OpenHandle(_, _) => OtherStep(s, a);
    case CloseHandle(_) => OtherStep(s, a);
    case PowerLoss(_) => OtherStep(s, a);
    case Restart => OtherStep(s, a);
  }

  // ----- what the registry counts

  /** Every record counts the files that are open on its generation. */
  ghost predicate Counted(s: State) {
    forall p :: Refs(s, p) == |Users(s, p)|
  }

  lemma SameHandlesCounted(s: State, t: State)
    requires Counted(s) && t.handles == s.handles && t.open == s.open
    ensures Counted(t)
  {
    forall p
      ensures Refs(t, p) == |Users(t, p)|
    {
      assert Users(t, p) == Users(s, p) && Refs(t, p) == Refs(s, p);
    }
  }

  lemma OpenUsers(s: State, h: nat, writable: bool, p: Option<Gen>)
    requires h !in s.handles
    ensures var t := s.(handles := s.handles[h := Handle(s.visible, writable)]);
            Users(t, p) == if p == s.visible then Users(s, p) + {h} else Users(s, p)
    ensures h !in Users(s, p)
  {
  }

  lemma OpenCounted(s: State, h: nat, writable: bool)
    requires Counted(s) && Enabled(s, OpenHandle(h, writable))
    ensures Counted(After(s, OpenHandle(h, writable)))
  {
    var t := After(s, OpenHandle(h, writable));
    var u := s.(handles := s.handles[h := Handle(s.visible, writable)]);
    forall p
      ensures Refs(t, p) == |Users(t, p)|
    {
      assert Refs(s, p) == |Users(s, p)|;
      OpenUsers(s, h, writable, p);
      assert Users(t, p) == Users(u, p);
    }
    hide Users;
  }

  lemma CloseCounted(s: State, h: nat)
    requires Counted(s) && Enabled(s, CloseHandle(h))
    ensures Counted(After(s, CloseHandle(h)))
  {
    var t := After(s, CloseHandle(h));
    forall p
      ensures Refs(t, p) == |Users(t, p)|
    {
      assert Refs(s, p) == |Users(s, p)|;
      assert Users(t, p) == Users(s, p) - {h};
      assert h in Users(s, p) <==> p == s.handles[h].on;
    }
  }

  lemma Subset(a: set<nat>, b: set<nat>)
    requires a <= b
    ensures |a| <= |b| && |b - a| == |b| - |a|
  {
    assert b == a + (b - a);
  }

  /** Who is where after a hand-over. */
  lemma MovedUsers(s: State, before: Option<Gen>, next: Gen, p: Option<Gen>)
    requires before != Some(next)
    ensures var t := s.(handles := Moved(s, before, next));
            Users(t, p) == if p == before then Users(s, p) - Writers(s, before)
                           else if p == Some(next) then Users(s, p) + Writers(s, before) else Users(s, p)
  {
  }

  lemma HandOverCounted(s: State)
    requires Counted(s) && s.pc.Renamed? && s.pc.before != Some(s.pc.next)
    ensures Counted(AfterHandOver(s))
  {
    var before, next := s.pc.before, s.pc.next;
    var t, movers := AfterHandOver(s), Writers(s, before);
    Subset(movers, Users(s, before));
    forall p
      ensures Refs(t, p) == |Users(t, p)|
    {
      assert Refs(s, p) == |Users(s, p)| && Refs(s, before) == |Users(s, before)|;
      MovedUsers(s, before, next, p);
      assert Users(t, p) == Users(s.(handles := Moved(s, before, next)), p);
      assert movers !! Users(s, Some(next));
      hide Users, Writers, Moved;
    }
  }

  lemma EmptyCounted(t: State)
    requires t.handles == map[] && t.open == map[]
    ensures Counted(t)
  {
    assert forall p :: Users(t, p) == {};
  }

  lemma PublicationStays(s: State, a: Action)
    requires Enabled(s, a)
    requires a.Prepare? || a.PrepareFails? || a.SyncLink? || a.Rename?
    ensures After(s, a).handles == s.handles && After(s, a).open == s.open
  {
  }

  lemma RecoveryStays(s: State, a: Action)
    requires Enabled(s, a) && (a.MarkOld? || a.RecoverStart? || a.RecoverMark? || a.RecoverLegacy?)
    ensures After(s, a).handles == s.handles && After(s, a).open == s.open
  {
    hide Marked;
  }

  lemma CollectionStays(s: State, a: Action)
    requires Enabled(s, a)
    requires a.RecoverEnd? || a.CollectStart? || a.InstallAliases? || a.Remove? || a.Retire? || a.CollectEnd?
    ensures After(s, a).handles == s.handles && After(s, a).open == s.open
  {
    hide Marked, Refs;
  }

  lemma UnlinkStays(s: State, a: Action)
    requires Enabled(s, a) && (a.UnlinkStart? || a.RemovePointer? || a.SyncRemoval?)
    ensures After(s, a).handles == s.handles && After(s, a).open == s.open
  {
    hide Marked;
  }

  /** With nothing open a hand-over moves nobody. */
  lemma NobodyMoves(s: State)
    requires s.pc.Renamed? && s.handles == map[]
    ensures AfterHandOver(s) == s.(open := s.open[s.pc.before := Refs(s, s.pc.before)]
                                           [Some(s.pc.next) := if Some(s.pc.next) == s.pc.before then Refs(s, s.pc.before) else Refs(s, Some(s.pc.next))])
  {
    assert Writers(s, s.pc.before) == {} && Moved(s, s.pc.before, s.pc.next) == map[];
  }

  lemma GoneStays(s: State, a: Action)
    requires Enabled(s, a) && (a.RemoveAliases? || a.RemovePair?)
    ensures After(s, a).handles == s.handles && After(s, a).open == s.open
  {
  }

  lemma SyncPointerCounted(s: State, ok: bool, handed: bool)
    requires Counted(s) && s.pc.Renamed? && s.pc.before != Some(s.pc.next)
    ensures Counted(After(s, SyncPointer(ok, handed)))
  {
    hide Counted, AfterHandOver;
    if handed {
      HandOverCounted(s);
      SameHandlesCounted(AfterHandOver(s), After(s, SyncPointer(ok, handed)));
    } else {
      SameHandlesCounted(s, After(s, SyncPointer(ok, handed)));
    }
  }

  lemma StepKeepsCounts(s: State, a: Action)
    requires Counted(s) && Enabled(s, a) && (s.pc.Renamed? ==> s.pc.before != Some(s.pc.next))
    ensures Counted(After(s, a))
  {
    if a.PowerLoss? || a.Restart? {
      EmptyCounted(After(s, a));
    } else if a.SyncPointer? {
      SyncPointerCounted(s, a.ok, a.handed);
    } else {
      hide Counted, Enabled, After;
      if a.OpenHandle? {
        OpenCounted(s, a.handle, a.writable);
      } else if a.CloseHandle? {
        CloseCounted(s, a.handle);
      } else {
        if a.Prepare? || a.PrepareFails? || a.SyncLink? || a.Rename? {
          PublicationStays(s, a);
        } else if a.MarkOld? || a.RecoverStart? || a.RecoverMark? || a.RecoverLegacy? {
          RecoveryStays(s, a);
        } else if a.RemoveAliases? || a.RemovePair? {
          GoneStays(s, a);
        } else if a.UnlinkStart? || a.RemovePointer? || a.SyncRemoval? {
          UnlinkStays(s, a);
        } else {
          CollectionStays(s, a);
        }
        SameHandlesCounted(s, After(s, a));
      }
    }
  }

  // ----- runs

  /** A legacy file that nobody has touched yet. */
  predicate Initial(s: State) {
    s == State(None, {None}, {}, {}, map[], false, map[], map[], false, false, Idle)
  }

  function RunOf(s: State, actions: seq<Action>): Option<State> {
    if actions == [] then Some(s)
    else
      var before := RunOf(s, actions[..|actions| - 1]);
      if before.None? || !Enabled(before.value, actions[|actions| - 1]) then None
      else Some(After(before.value, actions[|actions| - 1]))
  }

  /** Every recovery of the run was careful. */
  ghost predicate CarefulRun(s: State, actions: seq<Action>)
    requires RunOf(s, actions).Some?
  {
    if actions == [] then true
    else
      var n := |actions| - 1;
      CarefulRun(s, actions[..n]) && Careful(RunOf(s, actions[..n]).value, actions[n])
  }

  lemma {:induction false} RunKeepsInv(s: State, actions: seq<Action>)
    requires Initial(s) && RunOf(s, actions).Some? && CarefulRun(s, actions)
    ensures Inv(RunOf(s, actions).value)
    decreases |actions|
  {
    if actions != [] {
      var n := |actions| - 1;
      RunKeepsInv(s, actions[..n]);
      hide Inv, Enabled, After, Careful, Initial;
      StepKeepsInv(RunOf(s, actions[..n]).value, actions[n]);
    }
  }

  /** Where the rename is done, the new generation is not the old one - careful or not. */
  ghost predicate Renaming(s: State) {
    && (s.visible.Some? ==> s.visible.value in s.used)
    && (forall g :: Some(g) in s.surviving ==> g in s.used)
    && match s.pc
       case Prepared(before, next) => before == s.visible && before != Some(next) && next in s.used
       case LinkSynced(before, next) => before == s.visible && before != Some(next) && next in s.used
       case Renamed(before, next) => before != Some(next)
       case _ => true
  }

  lemma PrepareKeepsRenaming(s: State, a: Action)
    requires Renaming(s) && Enabled(s, a) && (a.Prepare? || a.PrepareFails?)
    ensures Renaming(After(s, a))
  {
  }

  lemma LinkKeepsRenaming(s: State, ok: bool)
    requires Renaming(s) && Enabled(s, SyncLink(ok))
    ensures Renaming(After(s, SyncLink(ok)))
  {
  }

  lemma RenameKeepsRenaming(s: State, ok: bool)
    requires Renaming(s) && Enabled(s, Rename(ok))
    ensures Renaming(After(s, Rename(ok)))
  {
  }

  /** A step outside a publication that names nothing new. */
  lemma QuietKeepsRenaming(s: State, t: State)
    requires Renaming(s) && t.used == s.used && (t.visible == s.visible || t.visible.None? || t.visible in s.surviving)
    requires forall p :: p in t.surviving ==> p in s.surviving || p == s.visible || p.None?
    requires !t.pc.Prepared? && !t.pc.LinkSynced? && !t.pc.Renamed?
    ensures Renaming(t)
  {
  }

  lemma RecoverKeepsRenaming(s: State, a: Action)
    requires Renaming(s) && Enabled(s, a)
    requires a.RecoverMark? || a.RecoverLegacy? || a.RecoverEnd?
    ensures Renaming(After(s, a))
  {
    hide Renaming, Marked;
    QuietKeepsRenaming(s, After(s, a));
  }

  lemma StartKeepsRenaming(s: State, a: Action)
    requires Renaming(s) && Enabled(s, a) && (a.MarkOld? || a.RecoverStart?)
    ensures Renaming(After(s, a))
  {
    hide Renaming, Marked;
    QuietKeepsRenaming(s, After(s, a));
  }

  lemma CollectKeepsRenaming(s: State, a: Action)
    requires Renaming(s) && Enabled(s, a)
    requires a.CollectStart? || a.InstallAliases? || a.Remove? || a.Retire? || a.CollectEnd?
    ensures Renaming(After(s, a))
  {
    hide Renaming, Refs;
    QuietKeepsRenaming(s, After(s, a));
  }

  lemma UnlinkKeepsRenaming(s: State, a: Action)
    requires Renaming(s) && Enabled(s, a) && (a.UnlinkStart? || a.RemovePointer?)
    ensures Renaming(After(s, a))
  {
    hide Renaming, Marked;
    QuietKeepsRenaming(s, After(s, a));
  }

  lemma RemovalKeepsRenaming(s: State, ok: bool)
    requires Renaming(s) && Enabled(s, SyncRemoval(ok))
    ensures Renaming(After(s, SyncRemoval(ok)))
  {
    hide Renaming;
    QuietKeepsRenaming(s, After(s, SyncRemoval(ok)));
  }

  lemma GoneKeepsRenaming(s: State, a: Action)
    requires Renaming(s) && Enabled(s, a) && (a.RemoveAliases? || a.RemovePair?)
    ensures Renaming(After(s, a))
  {
    hide Renaming;
    QuietKeepsRenaming(s, After(s, a));
  }

  lemma OtherKeepsRenaming(s: State, a: Action)
    requires Renaming(s) && Enabled(s, a)
    requires a.OpenHandle? || a.CloseHandle? || a.PowerLoss? || a.Restart?
    ensures Renaming(After(s, a))
  {
    hide Renaming, Refs;
    QuietKeepsRenaming(s, After(s, a));
  }

  lemma PointerKeepsRenaming(s: State, ok: bool, handed: bool)
    requires Renaming(s) && Enabled(s, SyncPointer(ok, handed))
    ensures Renaming(After(s, SyncPointer(ok, handed)))
  {
    hide Renaming, AfterHandOver;
    HandOverFrame(s);
    QuietKeepsRenaming(s, After(s, SyncPointer(ok, handed)));
  }

  lemma StepKeepsRenaming(s: State, a: Action)
    requires Renaming(s) && Enabled(s, a)
    ensures Renaming(After(s, a))
  {
    hide Renaming, Enabled, After;
    if a.Prepare? || a.PrepareFails? {
      PrepareKeepsRenaming(s, a);
    } else if a.SyncLink? {
      LinkKeepsRenaming(s, a.ok);
    } else if a.Rename? {
      RenameKeepsRenaming(s, a.ok);
    } else if a.SyncPointer? {
      PointerKeepsRenaming(s, a.ok, a.handed);
    } else if a.OpenHandle? || a.CloseHandle? || a.PowerLoss? || a.Restart? {
      OtherKeepsRenaming(s, a);
    } else if a.UnlinkStart? || a.RemovePointer? {
      UnlinkKeepsRenaming(s, a);
    } else if a.SyncRemoval? {
      RemovalKeepsRenaming(s, a.ok);
    } else if a.RemoveAliases? || a.RemovePair? {
      GoneKeepsRenaming(s, a);
    } else if a.CollectStart? || a.InstallAliases? || a.Remove? || a.Retire? || a.CollectEnd? {
      CollectKeepsRenaming(s, a);
    } else if a.MarkOld? || a.RecoverStart? {
      StartKeepsRenaming(s, a);
    } else {
      RecoverKeepsRenaming(s, a);
    }
  }

  lemma HandOverFrame(s: State)
    requires s.pc.Renamed?
    ensures AfterHandOver(s) == s.(open := AfterHandOver(s).open, handles := AfterHandOver(s).handles)
  {
  }

  /** In every run the registry counts the open files. */
  lemma {:induction false} RunKeepsCounts(s: State, actions: seq<Action>)
    requires Initial(s) && RunOf(s, actions).Some?
    ensures Counted(RunOf(s, actions).value) && Renaming(RunOf(s, actions).value)
    decreases |actions|
  {
    if actions == [] {
      EmptyCounted(s);
    } else {
      var n := |actions| - 1;
      RunKeepsCounts(s, actions[..n]);
      var before := RunOf(s, actions[..n]).value;
      assert before.pc.Renamed? ==> before.pc.before != Some(before.pc.next);
      hide Counted, Renaming, Enabled, After, Initial;
      StepKeepsCounts(before, actions[n]);
      StepKeepsRenaming(before, actions[n]);
    }
  }

  /** Nobody has generation `p`, or the legacy pair, open. */
  ghost predicate Unopened(s: State, p: Option<Gen>) {
    forall h :: h in s.handles ==> s.handles[h].on != p
  }

  lemma CountedUnopened(s: State, p: Option<Gen>)
    requires Counted(s)
    ensures Refs(s, p) == 0 <==> Unopened(s, p)
  {
    assert Refs(s, p) == |Users(s, p)|;
    if Unopened(s, p) {
      assert Users(s, p) == {};
    } else {
      var h :| h in s.handles && s.handles[h].on == p;
      assert h in Users(s, p);
    }
  }

  /**
   A hand-over moves exactly the writers of the old generation, durable or not; readers stay where
   they are, the two counts change by the number of those writers, and no other does.
   */
  lemma HandOverMovesWriters(s: State, actions: seq<Action>, ok: bool)
    requires Initial(s) && RunOf(s, actions).Some? && Enabled(RunOf(s, actions).value, SyncPointer(ok, true))
    ensures var now := RunOf(s, actions).value; var last := After(now, SyncPointer(ok, true));
            var before, next := now.pc.before, Some(now.pc.next);
            && before != next && last.handles.Keys == now.handles.Keys
            && (forall h :: h in now.handles ==>
                  last.handles[h] == now.handles[h].(on := if now.handles[h].on == before && now.handles[h].writable then next
                                                           else now.handles[h].on))
            && Writers(last, before) == {}
            && Refs(last, before) + |Writers(now, before)| == Refs(now, before)
            && Refs(last, next) == Refs(now, next) + |Writers(now, before)|
            && Refs(last, before) + Refs(last, next) == Refs(now, before) + Refs(now, next)
            && forall p :: p != before && p != next ==> Refs(last, p) == Refs(now, p)
  {
    RunKeepsCounts(s, actions);
    var now := RunOf(s, actions).value;
    Subset(Writers(now, now.pc.before), Users(now, now.pc.before));
    assert Refs(now, now.pc.before) == |Users(now, now.pc.before)|;
    hide Counted, RunOf, Initial, Users;
  }

  /** In every careful run each value `.current` may have after a power loss names a generation that is there in full. */
  lemma CarefulRunsAreSafe(s: State, actions: seq<Action>)
    requires Initial(s) && RunOf(s, actions).Some? && CarefulRun(s, actions)
    ensures Safe(RunOf(s, actions).value)
    ensures forall p :: p in RunOf(s, actions).value.surviving ==> Safe(After(RunOf(s, actions).value, PowerLoss(p)))
  {
    RunKeepsInv(s, actions);
    var now := RunOf(s, actions).value;
    forall p | p in now.surviving
      ensures Safe(After(now, PowerLoss(p)))
    {
      StepKeepsInv(now, PowerLoss(p));
    }
  }

  /** In a careful run the collector removes a generation only when it is unopened and no surviving pointer can name it. */
  lemma CarefulRunsRemoveUnreachable(s: State, actions: seq<Action>, victim: Gen)
    requires Initial(s) && RunOf(s, actions).Some? && CarefulRun(s, actions)
    requires Enabled(RunOf(s, actions).value, Remove(victim))
    ensures var now := RunOf(s, actions).value;
            Some(victim) !in now.surviving && now.visible != Some(victim) && Unopened(now, Some(victim))
  {
    RunKeepsInv(s, actions);
    RunKeepsCounts(s, actions);
    CountedUnopened(RunOf(s, actions).value, Some(victim));
  }

  /** The legacy names are linked anew only while nobody has the legacy pair open. */
  lemma AliasesWaitForReaders(s: State, actions: seq<Action>)
    requires Initial(s) && RunOf(s, actions).Some? && Enabled(RunOf(s, actions).value, InstallAliases)
    ensures Unopened(RunOf(s, actions).value, None)
  {
    RunKeepsCounts(s, actions);
    CountedUnopened(RunOf(s, actions).value, None);
  }

  /** An open file counts on what `.current` named when it was opened, and no more once it is closed. */
  lemma OpenedAndClosed(s: State, actions: seq<Action>, h: nat, writable: bool)
    requires Initial(s) && RunOf(s, actions).Some? && Enabled(RunOf(s, actions).value, OpenHandle(h, writable))
    ensures var now := RunOf(s, actions).value; var counted := After(now, OpenHandle(h, writable));
            && counted.handles == now.handles[h := Handle(now.visible, writable)]
            && Refs(counted, now.visible) == |Users(now, now.visible)| + 1
            && Enabled(counted, CloseHandle(h)) && After(counted, CloseHandle(h)).handles == now.handles
            && forall p :: Refs(After(counted, CloseHandle(h)), p) == Refs(now, p)
  {
    RunKeepsCounts(s, actions);
    var now := RunOf(s, actions).value;
    assert Refs(now, now.visible) == |Users(now, now.visible)|;
    hide RunOf, Users, Counted, Renaming;
    var counted := After(now, OpenHandle(h, writable));
    assert After(counted, CloseHandle(h)).handles == now.handles;
  }
}
