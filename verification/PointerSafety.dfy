/**
 When `.current` is safe, in terms of what can be seen of the operations: which syncs of the parent
 directory failed, and whether the process restarted (src/core/path.c:396-430,
 src/core/compact.c:1183-1279, src/fuse_ops/dir.c:258-333).
 */
module PointerSafety {
  import opened Basics
  import opened Publication

  // ----- what can be seen

  /**
   What happened since the parent directory was last synced: `.current` was moved from one
   generation to another, it was removed, the process restarted after the removal.
   */
  datatype Watch = Watch(moved: bool, removed: bool, forgotten: bool)

  const CALM: Watch := Watch(false, false, false)

  /** The action syncs the parent directory with success. */
  predicate SyncsDirectory(s: State, a: Action) {
    match a
    case Prepare(_) => true
    case PrepareFails(_, synced) => synced
    case SyncLink(ok) => ok
    case SyncPointer(ok, _) => ok
    case RecoverStart(synced) => synced && s.visible.Some?
    case SyncRemoval(ok) => ok
    case RemoveAliases(ok) => ok
    case RemovePair(ok) => ok
    case _ => false
  }

  /** A power loss leaves the disk as it is, like a sync. */
  function Seen(w: Watch, s: State, a: Action): Watch
    requires Enabled(s, a)
  {
    if SyncsDirectory(s, a) || a.PowerLoss? then CALM
    else
      match a
      case Rename(ok) => if ok then w.(moved := s.pc.before.Some?) else w
      case RemovePointer => w.(removed := true)
      case Restart => w.(forgotten := w.removed)
      case _ => w
  }

  function WatchOf(s: State, actions: seq<Action>): Watch
    requires RunOf(s, actions).Some?
  {
    if actions == [] then CALM
    else
      var n := |actions| - 1;
      Seen(WatchOf(s, actions[..n]), RunOf(s, actions[..n]).value, actions[n])
  }

  /**
   The pointer was removed and that is not yet durable, and either the process has restarted since,
   or the pointer's last move was not durable either when it was removed.
   */
  predicate AtRisk(w: Watch) { w.removed && (w.moved || w.forgotten) }

  /** No recovery of the run began at risk. */
  ghost predicate HeedfulRun(s: State, actions: seq<Action>)
    requires RunOf(s, actions).Some?
  {
    if actions == [] then true
    else
      var n := |actions| - 1;
      HeedfulRun(s, actions[..n]) && (actions[n].RecoverStart? ==> !AtRisk(WatchOf(s, actions[..n])))
  }

  /** No removal of the pointer is left without its sync: no such sync failed, and no restart came in between. */
  predicate CleanUnlinks(actions: seq<Action>) {
    forall i :: 0 <= i < |actions| ==>
      actions[i] != SyncRemoval(false) && (i > 0 && actions[i] == Restart ==> actions[i - 1] != RemovePointer)
  }

  // ----- what is seen says what the disk may return to

  ghost predicate Tracks(w: Watch, s: State) {
    && (w.removed ==> s.visible.None? && exists g :: Some(g) in s.surviving)
    && (w.forgotten ==> w.removed)
    && (s.visible.None? && !w.removed ==> s.surviving == {None})
    && (s.visible.Some? && !w.moved ==> forall g :: Some(g) in s.surviving ==> s.visible == Some(g))
    && (s.visible.Some? && w.moved ==> exists g :: Some(g) in s.surviving && s.visible != Some(g))
    && (w.removed ==> (AtRisk(w) <==> !Protected(s)))
  }

  lemma SyncTracks(w: Watch, s: State, a: Action)
    requires Inv(s) && Enabled(s, a) && (SyncsDirectory(s, a) || a.PowerLoss?)
    ensures Tracks(Seen(w, s, a), After(s, a))
  {
  }

  lemma RenameTracks(w: Watch, s: State)
    requires Inv(s) && Tracks(w, s) && Enabled(s, Rename(true))
    ensures Tracks(Seen(w, s, Rename(true)), After(s, Rename(true)))
  {
    var t := After(s, Rename(true));
    if s.pc.before.Some? { assert Some(s.pc.before.value) in t.surviving; }
  }

  lemma RemovalTracks(w: Watch, s: State)
    requires Inv(s) && Tracks(w, s) && Enabled(s, RemovePointer)
    ensures Tracks(Seen(w, s, RemovePointer), After(s, RemovePointer))
  {
    var t := After(s, RemovePointer);
    assert Some(s.visible.value) in t.surviving;
    if w.moved {
      var g :| Some(g) in s.surviving && s.visible != Some(g);
      assert Some(g) in t.surviving && g !in t.pending;
    }
  }

  lemma RestartTracks(w: Watch, s: State)
    requires Inv(s) && Tracks(w, s)
    ensures Tracks(Seen(w, s, Restart), After(s, Restart))
  {
    if w.removed {
      var g :| Some(g) in s.surviving;
      assert Some(g) in After(s, Restart).surviving;
    }
  }

  /** Marking, collecting and the rest change nothing that matters here. */
  lemma OtherTracks(w: Watch, s: State, a: Action)
    requires Inv(s) && Tracks(w, s) && Enabled(s, a) && !SyncsDirectory(s, a) && !a.PowerLoss?
    requires a != Rename(true) && !a.RemovePointer? && !a.Restart?
    ensures Tracks(Seen(w, s, a), After(s, a))
  {
    var t := After(s, a);
    assert t.surviving == s.surviving && t.visible == s.visible;
    if w.removed { ProtectionKept(s, a); }
  }

  lemma ProtectionKept(s: State, a: Action)
    requires Inv(s) && Enabled(s, a) && !SyncsDirectory(s, a) && !a.PowerLoss? && s.visible.None?
    requires a != Rename(true) && !a.RemovePointer? && !a.Restart?
    ensures Protected(s) <==> Protected(After(s, a))
  {
    var t := After(s, a);
    forall g | Some(g) in s.surviving
      ensures (g in s.pending && s.pending[g].install) <==> (g in t.pending && t.pending[g].install)
    {
    }
  }

  lemma StepTracks(w: Watch, s: State, a: Action)
    requires Inv(s) && Tracks(w, s) && Enabled(s, a)
    ensures Tracks(Seen(w, s, a), After(s, a))
  {
    hide Inv, Enabled, After, Tracks, Seen;
    if SyncsDirectory(s, a) || a.PowerLoss? {
      SyncTracks(w, s, a);
    } else if a == Rename(true) {
      RenameTracks(w, s);
    } else if a.RemovePointer? {
      RemovalTracks(w, s);
    } else if a.Restart? {
      RestartTracks(w, s);
    } else {
      OtherTracks(w, s, a);
    }
  }

  lemma {:induction false} RunTracks(s: State, actions: seq<Action>)
    requires Initial(s) && RunOf(s, actions).Some? && CarefulRun(s, actions)
    ensures Tracks(WatchOf(s, actions), RunOf(s, actions).value)
    decreases |actions|
  {
    if actions != [] {
      var n := |actions| - 1;
      RunTracks(s, actions[..n]);
      RunKeepsInv(s, actions[..n]);
      hide Inv, Enabled, After, Careful, Initial, Tracks, Seen;
      StepTracks(WatchOf(s, actions[..n]), RunOf(s, actions[..n]).value, actions[n]);
    }
  }

  lemma TrackedProtection(w: Watch, s: State)
    requires Tracks(w, s)
    ensures Protected(s) <==> !AtRisk(w)
  {
  }

  /** A run is careful exactly when it is heedful: the ghost condition and the visible one agree. */
  lemma {:induction false} CarefulIffHeedful(s: State, actions: seq<Action>)
    requires Initial(s) && RunOf(s, actions).Some?
    ensures CarefulRun(s, actions) <==> HeedfulRun(s, actions)
    decreases |actions|
  {
    if actions != [] {
      var n := |actions| - 1;
      CarefulIffHeedful(s, actions[..n]);
      if CarefulRun(s, actions[..n]) {
        RunTracks(s, actions[..n]);
        TrackedProtection(WatchOf(s, actions[..n]), RunOf(s, actions[..n]).value);
      }
    }
  }

  /** Between clean unlinks nothing is ever at risk. */
  lemma {:induction false} CleanUnlinksStayCalm(s: State, actions: seq<Action>)
    requires Initial(s) && RunOf(s, actions).Some? && CleanUnlinks(actions)
    ensures HeedfulRun(s, actions)
    ensures WatchOf(s, actions).removed ==> RunOf(s, actions).value.pc == PointerGone
    ensures RunOf(s, actions).value.pc == PointerGone ==> actions != [] && actions[|actions| - 1] == RemovePointer
    decreases |actions|
  {
    if actions != [] {
      var n := |actions| - 1;
      CleanUnlinksStayCalm(s, actions[..n]);
      assert n > 0 ==> actions[..n][n - 1] == actions[n - 1];
      CleanStep(WatchOf(s, actions[..n]), RunOf(s, actions[..n]).value, actions[n]);
    }
  }

  lemma CleanStep(w: Watch, s: State, a: Action)
    requires Enabled(s, a) && a != SyncRemoval(false) && (s.pc == PointerGone ==> a != Restart)
    requires w.removed ==> s.pc == PointerGone
    ensures Seen(w, s, a).removed ==> After(s, a).pc == PointerGone
    ensures After(s, a).pc == PointerGone ==> a == RemovePointer
    ensures a.RecoverStart? ==> !AtRisk(w)
  {
  }

  // ----- safety

  /**
   In every heedful run of compactions, recoveries, collections, opens, closes and unlinks, with
   syncs that fail at will and a power loss or a restart at any step, each value `.current` may
   have afterwards names a generation that is there in full.
   */
  lemma HeedfulRunsAreSafe(s: State, actions: seq<Action>)
    requires Initial(s) && RunOf(s, actions).Some? && HeedfulRun(s, actions)
    ensures Safe(RunOf(s, actions).value)
    ensures forall p :: p in RunOf(s, actions).value.surviving ==> Safe(After(RunOf(s, actions).value, PowerLoss(p)))
  {
    CarefulIffHeedful(s, actions);
    CarefulRunsAreSafe(s, actions);
  }

  /**
   The same of every run whose unlinks are clean: any other sync may fail, power may be lost
   anywhere, the process may restart anywhere but between the removal of `.current` and its sync.
   */
  lemma PointerAlwaysSafe(s: State, actions: seq<Action>)
    requires Initial(s) && RunOf(s, actions).Some? && CleanUnlinks(actions)
    ensures Safe(RunOf(s, actions).value)
    ensures forall p :: p in RunOf(s, actions).value.surviving ==> Safe(After(RunOf(s, actions).value, PowerLoss(p)))
  {
    CleanUnlinksStayCalm(s, actions);
    HeedfulRunsAreSafe(s, actions);
  }

  /** The collector removes a generation only when it is unopened and no surviving pointer can name it. */
  lemma HeedfulRunsRemoveUnreachable(s: State, actions: seq<Action>, victim: Gen)
    requires Initial(s) && RunOf(s, actions).Some? && HeedfulRun(s, actions)
    requires Enabled(RunOf(s, actions).value, Remove(victim))
    ensures var now := RunOf(s, actions).value;
            Some(victim) !in now.surviving && now.visible != Some(victim) && Unopened(now, Some(victim))
  {
    CarefulIffHeedful(s, actions);
    CarefulRunsRemoveUnreachable(s, actions, victim);
  }

  lemma RemovesOnlyUnreachable(s: State, actions: seq<Action>, victim: Gen)
    requires Initial(s) && RunOf(s, actions).Some? && CleanUnlinks(actions)
    requires Enabled(RunOf(s, actions).value, Remove(victim))
    ensures var now := RunOf(s, actions).value;
            Some(victim) !in now.surviving && now.visible != Some(victim) && Unopened(now, Some(victim))
  {
    CleanUnlinksStayCalm(s, actions);
    HeedfulRunsRemoveUnreachable(s, actions, victim);
  }

  // ----- what can be collected

  /**
   Nothing is kept for ever: once a publication is durable and nobody has the old generation or the
   legacy pair open, the old generation can be marked, the aliases it owes linked, its files removed
   and its record retired.
   */
  lemma OldGenerationCanGo(s: State, actions: seq<Action>)
    requires Initial(s) && RunOf(s, actions).Some? && HeedfulRun(s, actions)
    requires var now := RunOf(s, actions).value;
             now.pc.Durable? && now.pc.before.Some? && Unopened(now, now.pc.before) && Unopened(now, None)
    ensures CanGo(RunOf(s, actions).value)
  {
    CarefulIffHeedful(s, actions);
    RunKeepsInv(s, actions);
    RunKeepsCounts(s, actions);
    var now := RunOf(s, actions).value;
    CountedUnopened(now, now.pc.before);
    CountedUnopened(now, None);
    hide RunOf, HeedfulRun, Counted, Renaming, CanGo;
    DurableCanGo(now);
  }

  lemma DurableCanGo(s: State)
    requires s.pc.Durable? && s.pc.before.Some? && PcInv(s) && OpenCount(s, s.pc.before.value) == 0 && Refs(s, None) == 0
    ensures CanGo(s)
  {
    hide Collectable;
    MarkedIsCollectable(After(s, MarkOld), s.pc.before.value);
  }

  ghost predicate CanGo(s: State)
    requires s.pc.Durable? && s.pc.before.Some?
  {
    var g := s.pc.before.value;
    var marked := After(s, MarkOld);
    g in marked.pending && (marked.pending[g].install ==> Enabled(marked, InstallAliases) && After(marked, InstallAliases).pairTouched) && Collectable(marked, g)
  }

  /** A recovery finds whatever an earlier process left behind: any generation but the one named can be collected. */
  lemma LeftoversCanGo(s: State, actions: seq<Action>, g: Gen)
    requires Initial(s) && RunOf(s, actions).Some?
    requires var now := RunOf(s, actions).value;
             now.pc == Idle && now.visible.Some? && g in now.used && now.visible != Some(g) && Unopened(now, Some(g))
    ensures LeftoverGoes(RunOf(s, actions).value, g)
  {
    RunKeepsCounts(s, actions);
    CountedUnopened(RunOf(s, actions).value, Some(g));
    hide RunOf, Counted, Renaming, LeftoverGoes;
    LeftoverCanGo(RunOf(s, actions).value, g);
  }

  /** Recovery can mark `g`, remove its files and retire its record. */
  predicate LeftoverGoes(s: State, g: Gen) {
    && Enabled(s, RecoverStart(true))
    && var started := After(s, RecoverStart(true));
       Enabled(started, RecoverMark(g)) && Collectable(After(After(started, RecoverMark(g)), RecoverEnd), g)
  }

  /** A recovery also brings back the alias step of a legacy pair that nobody has open. */
  lemma LegacyLeftoverCanGo(s: State, actions: seq<Action>)
    requires Initial(s) && RunOf(s, actions).Some?
    requires var now := RunOf(s, actions).value; now.pc == Idle && now.visible.Some? && Unopened(now, None)
    ensures Enabled(RunOf(s, actions).value, RecoverStart(true))
    ensures var started := After(RunOf(s, actions).value, RecoverStart(true));
            Enabled(started, RecoverLegacy) && Enabled(After(After(started, RecoverLegacy), RecoverEnd), InstallAliases)
  {
    RunKeepsCounts(s, actions);
    CountedUnopened(RunOf(s, actions).value, None);
    hide RunOf, Counted, Renaming, Unopened;
    LegacyLeftoverGoes(RunOf(s, actions).value);
    hide Enabled, After;
  }

  lemma LegacyLeftoverGoes(s: State)
    requires s.pc == Idle && s.visible.Some? && Refs(s, None) == 0
    ensures Enabled(s, RecoverStart(true))
    ensures var started := After(s, RecoverStart(true));
            Enabled(started, RecoverLegacy) && Enabled(After(After(started, RecoverLegacy), RecoverEnd), InstallAliases)
  {
  }

  /** The collector can remove the files of `g` and retire its record. */
  predicate Collectable(s: State, g: Gen) {
    && Enabled(s, Remove(g))
    && var removed := After(s, Remove(g));
       g !in removed.complete && Enabled(removed, Retire(g)) && g !in After(removed, Retire(g)).pending
  }

  lemma MarkedIsCollectable(s: State, g: Gen)
    requires s.pc == Collecting && g in s.pending && s.visible.Some? && s.visible != Some(g) && OpenCount(s, g) == 0
    ensures Collectable(s, g)
  {
  }

  lemma LeftoverCanGo(s: State, g: Gen)
    requires s.pc == Idle && s.visible.Some? && g in s.used && s.visible != Some(g) && OpenCount(s, g) == 0
    ensures LeftoverGoes(s, g)
  {
    hide Collectable;
    var found := After(After(After(s, RecoverStart(true)), RecoverMark(g)), RecoverEnd);
    MarkedIsCollectable(found, g);
  }

  // ----- what a publication and an unlink achieve

  /** The next steps of a publication, and of an unlink, in a row. */
  predicate Goes(s: State, a: Action, t: State) { Enabled(s, a) && t == After(s, a) }

  /**
   A prepared generation is named after the rename and, once the directory is synced, named by whatever
   survives a power loss; the old one then waits for collection and owes the aliases.  If a step before
   the rename fails, nothing that may survive names the new generation.
   */
  lemma PublicationTakesEffect(s: State, actions: seq<Action>) returns (linked: State, renamed: State, durable: State, marked: State)
    requires Initial(s) && RunOf(s, actions).Some? && HeedfulRun(s, actions) && RunOf(s, actions).value.pc.Prepared?
    ensures var now := RunOf(s, actions).value; var before, next := now.pc.before, now.pc.next;
            && Goes(now, SyncLink(true), linked) && linked.surviving == {before}
            && Goes(linked, Rename(true), renamed) && renamed.visible == Some(next) && renamed.surviving == {before, Some(next)}
            && Goes(renamed, SyncPointer(true, true), durable) && durable.visible == Some(next) && durable.surviving == {Some(next)}
            && Goes(durable, MarkOld, marked) && marked.visible == Some(next) && marked.surviving == {Some(next)}
            && (if before.Some? then before.value in marked.pending && (!marked.pending[before.value].unlinked ==> marked.pending[before.value].install)
                else marked.legacyPending)
            && next in marked.complete && next !in marked.pending
            && (forall t :: t == After(now, SyncLink(false)) || t == After(linked, Rename(false)) ==>
                  t.pc == Idle && t.visible == before && Some(next) !in t.surviving)
            && (forall handed :: After(renamed, SyncPointer(false, handed)).surviving == {before, Some(next)})
  {
    CarefulIffHeedful(s, actions);
    RunKeepsInv(s, actions);
    var now := RunOf(s, actions).value;
    hide RunOf, HeedfulRun, Safe, Guarded, Owes, UsedInv;
    assert Fresh(now, now.pc.next);
    linked, renamed, durable, marked := PublicationRound(now);
  }

  lemma PublicationRound(s: State) returns (linked: State, renamed: State, durable: State, marked: State)
    requires s.pc.Prepared? && Fresh(s, s.pc.next) && s.visible == s.pc.before && s.visible in s.surviving
    ensures var before, next := s.pc.before, s.pc.next;
            && Goes(s, SyncLink(true), linked) && linked.surviving == {before}
            && Goes(linked, Rename(true), renamed) && renamed.visible == Some(next) && renamed.surviving == {before, Some(next)}
            && Goes(renamed, SyncPointer(true, true), durable) && durable.visible == Some(next) && durable.surviving == {Some(next)}
            && Goes(durable, MarkOld, marked) && marked.visible == Some(next) && marked.surviving == {Some(next)}
            && (if before.Some? then before.value in marked.pending && (!marked.pending[before.value].unlinked ==> marked.pending[before.value].install)
                else marked.legacyPending)
            && next in marked.complete && (before != Some(next) ==> next !in marked.pending)
            && (forall t :: t == After(s, SyncLink(false)) || t == After(linked, Rename(false)) ==>
                  t.pc == Idle && t.visible == before && Some(next) !in t.surviving)
            && (forall handed :: After(renamed, SyncPointer(false, handed)).surviving == {before, Some(next)})
  {
    hide Moved, HandedOver, Writers;
    linked := After(s, SyncLink(true));
    renamed := After(linked, Rename(true));
    durable := After(renamed, SyncPointer(true, true));
    marked := After(durable, MarkOld);
  }

  /**
   An unlink whose syncs succeed removes the name for good: no power loss brings it back, no record
   owes its aliases, and its last generation waits for collection.
   */
  lemma UnlinkTakesEffect(s: State, actions: seq<Action>) returns (begun: State, gone: State, synced: State, last: State)
    requires Initial(s) && RunOf(s, actions).Some? && RunOf(s, actions).value.pc == Idle && RunOf(s, actions).value.visible.Some?
    ensures var now := RunOf(s, actions).value;
            && Goes(now, UnlinkStart, begun) && Goes(begun, RemovePointer, gone)
            && Goes(gone, SyncRemoval(true), synced) && Goes(synced, RemoveAliases(true), last)
            && last.visible.None? && last.surviving == {None} && !last.legacyPending && !last.pairTouched && !last.unlinkBegun
            && now.visible.value in last.pending && last.pending.Keys == now.pending.Keys + {now.visible.value}
            && (forall g :: g in last.pending ==> last.pending[g].unlinked && !last.pending[g].install)
            && (Unopened(now, now.visible) ==> Collectable(last, now.visible.value))
  {
    RunKeepsCounts(s, actions);
    var now := RunOf(s, actions).value;
    if Unopened(now, now.visible) { CountedUnopened(now, now.visible); }
    hide RunOf, Counted, Renaming, Collectable, Unopened, Enabled, After;
    begun, gone, synced, last := UnlinkRound(now);
    if OpenCount(now, now.visible.value) == 0 { GoneIsCollectable(last, now.visible.value); }
  }

  /** The same for a file without a pointer: once its pair is durably removed, nothing is left that could come back. */
  lemma PairRemovalTakesEffect(s: State) returns (last: State)
    requires s.pc == Idle && s.visible.None?
    ensures Goes(s, RemovePair(true), last)
    ensures last == s.(surviving := {None}, pending := last.pending, legacyPending := false, pairTouched := false, unlinkBegun := false,
                       pc := Collecting)
    ensures last.pending.Keys == s.pending.Keys && forall g :: g in last.pending ==> last.pending[g] == Mark(false, true)
    ensures forall g :: g in last.pending && OpenCount(s, g) == 0 ==> Collectable(last, g)
  {
    last := After(s, RemovePair(true));
    hide Collectable;
    forall g | g in last.pending && OpenCount(s, g) == 0
      ensures Collectable(last, g)
    {
      GoneIsCollectable(last, g);
    }
  }

  lemma UnlinkRound(s: State) returns (begun: State, gone: State, synced: State, last: State)
    requires s.pc == Idle && s.visible.Some?
    ensures Goes(s, UnlinkStart, begun) && Goes(begun, RemovePointer, gone)
    ensures Goes(gone, SyncRemoval(true), synced) && Goes(synced, RemoveAliases(true), last)
    ensures last == s.(visible := None, surviving := {None}, pending := last.pending, legacyPending := false,
                       pairTouched := false, unlinkBegun := false, pc := Collecting)
    ensures last.pending.Keys == s.pending.Keys + {s.visible.value}
    ensures forall g :: g in last.pending ==> last.pending[g] == Mark(false, true)
  {
    begun := After(s, UnlinkStart);
    gone := After(begun, RemovePointer);
    synced := After(gone, SyncRemoval(true));
    last := After(synced, RemoveAliases(true));
  }

  lemma GoneIsCollectable(s: State, g: Gen)
    requires s.pc == Collecting && s.visible.None? && OpenCount(s, g) == 0 && g in s.pending && !s.pending[g].install
    ensures Collectable(s, g)
  {
  }

  // ----- the exact condition

  /** A recovery that finds `victim` on disk and collects it, if its steps are possible. */
  function AfterSweep(s: State, victim: Gen): Option<State> {
    if !Enabled(s, RecoverStart(false)) then None
    else
      var a := After(s, RecoverStart(false));
      if !Enabled(a, RecoverMark(victim)) then None
      else
        var b := After(After(a, RecoverMark(victim)), RecoverEnd);
        if !Enabled(b, Remove(victim)) then None else Some(After(b, Remove(victim)))
  }

  /** An unopened generation that the pointer may come back to owes no alias step. */
  ghost predicate Exposed(s: State) {
    exists g :: Some(g) in s.surviving && OpenCount(s, g) == 0 && !(g in s.pending && s.pending[g].install)
  }

  lemma UnexposedSweepIsSafe(s: State, victim: Gen)
    requires Inv(s) && s.pc == Idle && s.visible.None? && !Exposed(s) && AfterSweep(s, victim).Some?
    ensures Safe(AfterSweep(s, victim).value)
  {
    assert Some(victim) !in s.surviving;
  }

  /** A recovery on a path without a pointer can collect any unopened generation of which it knows nothing. */
  lemma SweepGoes(s: State, victim: Gen)
    requires s.pc == Idle && s.visible.None? && victim in s.used && victim !in s.pending && OpenCount(s, victim) == 0
    ensures AfterSweep(s, victim) ==
            Some(s.(pending := s.pending[victim := Mark(false, false)], complete := s.complete - {victim}, pc := Collecting))
  {
  }

  lemma ExposedSweepLoses(s: State) returns (victim: Gen)
    requires Inv(s) && s.pc == Idle && s.visible.None? && Exposed(s)
    ensures AfterSweep(s, victim).Some? && !Safe(AfterSweep(s, victim).value)
  {
    victim :| Some(victim) in s.surviving && OpenCount(s, victim) == 0 && !(victim in s.pending && s.pending[victim].install);
    assert victim !in s.pending && victim in s.used;
    hide Inv, Exposed, AfterSweep;
    SweepGoes(s, victim);
    assert Some(victim) in AfterSweep(s, victim).value.surviving && victim !in AfterSweep(s, victim).value.complete;
  }

  /** A recovery on a path without a pointer is harmless exactly when nothing is exposed. */
  lemma RecoverySafeIffUnexposed(s: State)
    requires Inv(s) && s.pc == Idle && s.visible.None?
    ensures !Exposed(s) <==> forall victim :: AfterSweep(s, victim).Some? ==> Safe(AfterSweep(s, victim).value)
  {
    hide Inv, Exposed, AfterSweep, Safe;
    if !Exposed(s) {
      forall victim | AfterSweep(s, victim).Some?
        ensures Safe(AfterSweep(s, victim).value)
      {
        UnexposedSweepIsSafe(s, victim);
      }
    } else {
      var victim := ExposedSweepLoses(s);
    }
  }

  lemma UnopenedExposure(s: State)
    requires s.visible.None? && forall g :: Some(g) in s.surviving ==> OpenCount(s, g) == 0
    ensures Exposed(s) <==> !Protected(s)
  {
  }

  /**
   The same in visible terms, on a path without a pointer where nothing that it may come back to is
   open: a recovery is harmless if and only if the removal of the pointer has been synced, or else its
   last move had been and the process has not restarted since the removal.
   */
  lemma RecoverySafeIffCalm(s: State, actions: seq<Action>)
    requires Initial(s) && RunOf(s, actions).Some? && HeedfulRun(s, actions)
    requires var now := RunOf(s, actions).value;
             now.pc == Idle && now.visible.None? && forall g :: Some(g) in now.surviving ==> Unopened(now, Some(g))
    ensures var now := RunOf(s, actions).value;
            !AtRisk(WatchOf(s, actions)) <==>
            forall victim :: AfterSweep(now, victim).Some? ==> Safe(AfterSweep(now, victim).value)
  {
    var now := RunOf(s, actions).value;
    CarefulIffHeedful(s, actions);
    RunKeepsInv(s, actions);
    RunTracks(s, actions);
    TrackedProtection(WatchOf(s, actions), now);
    RunKeepsCounts(s, actions);
    forall g | Some(g) in now.surviving
      ensures OpenCount(now, g) == 0
    {
      CountedUnopened(now, Some(g));
    }
    UnopenedExposure(now);
    RecoverySafeIffUnexposed(now);
  }

  // ----- two failing runs

  /** A heedful run that leads from a legacy file to `now`. */
  ghost predicate Leads(actions: seq<Action>, w: Watch, now: State) {
    RunOf(Untouched(), actions) == Some(now) && WatchOf(Untouched(), actions) == w && HeedfulRun(Untouched(), actions)
  }

  function Untouched(): (s: State)
    ensures Initial(s)
  {
    State(None, {None}, {}, {}, map[], false, map[], map[], false, false, Idle)
  }

  lemma Further(actions: seq<Action>, w: Watch, now: State, a: Action, w': Watch, next: State)
    requires Leads(actions, w, now) && Enabled(now, a) && !a.RecoverStart?
    requires After(now, a) == next && Seen(w, now, a) == w'
    ensures Leads(actions + [a], w', next)
  {
    hide Enabled, After, Seen;
    assert (actions + [a])[..|actions|] == actions;
  }

  lemma FurtherTwice(actions: seq<Action>, w: Watch, now: State, a: Action, b: Action, w': Watch, next: State)
    requires Leads(actions, w, now) && Enabled(now, a) && !a.RecoverStart? && !b.RecoverStart?
    requires Enabled(After(now, a), b) && After(After(now, a), b) == next && Seen(Seen(w, now, a), After(now, a), b) == w'
    ensures Leads(actions + [a] + [b], w', next)
  {
    hide Enabled, After, Seen, Leads;
    Further(actions, w, now, a, Seen(w, now, a), After(now, a));
    Further(actions + [a], Seen(w, now, a), After(now, a), b, w', next);
  }

  lemma Arrived(actions: seq<Action>, w: Watch, now: State)
    requires Leads(actions, w, now)
    ensures RunOf(Untouched(), actions) == Some(now) && HeedfulRun(Untouched(), actions)
  {
  }

  /** A file compacted once, durably. */
  function Compacted(): State {
    State(Some(1), {Some(1)}, {1}, {1}, map[], true, map[None := 0, Some(1) := 0], map[], false, false, Idle)
  }

  const COMPACT_ONCE: seq<Action> :=
    [] + [Prepare(1)] + [SyncLink(true)] + [Rename(true)] + [SyncPointer(true, true)] + [MarkOld] + [CollectEnd]

  /** The first publication up to its rename. */
  function FirstRenamed(): State {
    State(Some(1), {None, Some(1)}, {1}, {1}, map[], false, map[], map[], false, false, Renamed(None, 1))
  }

  function FirstDurable(): State {
    State(Some(1), {Some(1)}, {1}, {1}, map[], false, map[None := 0, Some(1) := 0], map[], false, false, Durable(None, 1))
  }

  lemma FirstRenamedIsReachable()
    ensures Leads([] + [Prepare(1)] + [SyncLink(true)] + [Rename(true)], CALM, FirstRenamed())
  {
    var linked := Untouched().(complete := {1}, used := {1}, pc := LinkSynced(None, 1));
    assert Leads([], CALM, Untouched());
    hide Leads;
    FurtherTwice([], CALM, Untouched(), Prepare(1), SyncLink(true), CALM, linked);
    Further([] + [Prepare(1)] + [SyncLink(true)], CALM, linked, Rename(true), CALM, FirstRenamed());
  }

  lemma CompactedIsReachable()
    ensures Leads(COMPACT_ONCE, CALM, Compacted())
  {
    hide Leads, AfterHandOver;
    FirstRenamedIsReachable();
    NobodyMoves(FirstRenamed());
    var actions := [] + [Prepare(1)] + [SyncLink(true)] + [Rename(true)];
    Further(actions, CALM, FirstRenamed(), SyncPointer(true, true), CALM, FirstDurable());
    FurtherTwice(actions + [SyncPointer(true, true)], CALM, FirstDurable(), MarkOld, CollectEnd, CALM, Compacted());
  }

  /** After a run that ends at risk with nothing open, some recovery loses what the pointer may come back to. */
  lemma RiskLoses(actions: seq<Action>, w: Watch, now: State)
    requires Leads(actions, w, now) && AtRisk(w)
    requires now.pc == Idle && now.visible.None? && now.handles == map[]
    ensures exists victim :: AfterSweep(now, victim).Some? && !Safe(AfterSweep(now, victim).value)
  {
    RecoverySafeIffCalm(Untouched(), actions);
  }

  const RESTARTED_UNLINK: seq<Action> := COMPACT_ONCE + [UnlinkStart] + [RemovePointer] + [Restart]

  /** The first file with its pointer removed. */
  function HalfUnlinked(): State {
    State(None, {Some(1), None}, {1}, {1}, map[1 := Mark(true, false)], true, map[None := 0, Some(1) := 0], map[], false, true, PointerGone)
  }

  function Restarted(): State {
    State(None, {Some(1), None}, {1}, {1}, map[], false, map[], map[], false, true, Idle)
  }

  lemma HalfUnlinkedIsReachable()
    ensures Leads(COMPACT_ONCE + [UnlinkStart] + [RemovePointer], Watch(false, true, false), HalfUnlinked())
  {
    CompactedIsReachable();
    hide Leads;
    FurtherTwice(COMPACT_ONCE, CALM, Compacted(), UnlinkStart, RemovePointer, Watch(false, true, false), HalfUnlinked());
  }

  lemma RestartedIsReachable()
    ensures Leads(RESTARTED_UNLINK, Watch(false, true, true), Restarted())
  {
    HalfUnlinkedIsReachable();
    hide Leads;
    Further(COMPACT_ONCE + [UnlinkStart] + [RemovePointer], Watch(false, true, false), HalfUnlinked(), Restart,
            Watch(false, true, true), Restarted());
  }

  /** The process restarts between the removal of `.current` and its sync: the next recovery can lose the file. */
  lemma RestartDuringUnlinkCanLoseTheFile()
    ensures RunOf(Untouched(), RESTARTED_UNLINK).Some? && HeedfulRun(Untouched(), RESTARTED_UNLINK)
    ensures var now := RunOf(Untouched(), RESTARTED_UNLINK).value;
            exists victim :: AfterSweep(now, victim).Some? && !Safe(AfterSweep(now, victim).value)
  {
    hide Leads, AfterSweep, Safe, RunOf, HeedfulRun;
    RestartedIsReachable();
    RiskLoses(RESTARTED_UNLINK, Watch(false, true, true), Restarted());
    Arrived(RESTARTED_UNLINK, Watch(false, true, true), Restarted());
  }

  const COMPACT_AGAIN: seq<Action> := COMPACT_ONCE + [Prepare(2)] + [SyncLink(true)] + [Rename(true)] + [SyncPointer(false, true)]

  const UNSYNCED_UNLINK: seq<Action> := COMPACT_AGAIN + [UnlinkStart] + [RemovePointer] + [SyncRemoval(false)]

  /** Compacted twice, the second time without the last sync. */
  function Moved(): State {
    State(Some(2), {Some(1), Some(2)}, {1, 2}, {1, 2}, map[], true, map[None := 0, Some(1) := 0, Some(2) := 0], map[], false, false, Idle)
  }

  function SecondRenamed(): State {
    State(Some(2), {Some(1), Some(2)}, {1, 2}, {1, 2}, map[], true, map[None := 0, Some(1) := 0], map[], false, false, Renamed(Some(1), 2))
  }

  lemma MovedIsReachable()
    ensures Leads(COMPACT_AGAIN, Watch(true, false, false), Moved())
  {
    var linked := Compacted().(complete := {1, 2}, used := {1, 2}, pc := LinkSynced(Some(1), 2));
    CompactedIsReachable();
    hide Leads, AfterHandOver;
    FurtherTwice(COMPACT_ONCE, CALM, Compacted(), Prepare(2), SyncLink(true), CALM, linked);
    NobodyMoves(SecondRenamed());
    var actions := COMPACT_ONCE + [Prepare(2)] + [SyncLink(true)];
    Further(actions, CALM, linked, Rename(true), Watch(true, false, false), SecondRenamed());
    Further(actions + [Rename(true)], Watch(true, false, false), SecondRenamed(), SyncPointer(false, true),
            Watch(true, false, false), Moved());
  }

  /** The second generation unlinked, and the sync of that failed. */
  function Unsynced(): State {
    State(None, {Some(1), Some(2), None}, {1, 2}, {1, 2}, map[2 := Mark(true, false)], true, map[None := 0, Some(1) := 0, Some(2) := 0], map[], false, true, Idle)
  }

  lemma UnsyncedIsReachable()
    ensures Leads(UNSYNCED_UNLINK, Watch(true, true, false), Unsynced())
  {
    MovedIsReachable();
    hide Leads;
    var gone := Unsynced().(pc := PointerGone);
    FurtherTwice(COMPACT_AGAIN, Watch(true, false, false), Moved(), UnlinkStart, RemovePointer, Watch(true, true, false), gone);
    Further(COMPACT_AGAIN + [UnlinkStart] + [RemovePointer], Watch(true, true, false), gone, SyncRemoval(false),
            Watch(true, true, false), Unsynced());
  }

  /**
   Neither a restart nor a power loss: the last sync of a publication fails, and the sync of the
   unlink that follows fails as well.  The next recovery can lose the generation before the last.
   */
  lemma FailedSyncsCanLoseTheFile()
    ensures RunOf(Untouched(), UNSYNCED_UNLINK).Some? && HeedfulRun(Untouched(), UNSYNCED_UNLINK)
    ensures var now := RunOf(Untouched(), UNSYNCED_UNLINK).value;
            exists victim :: AfterSweep(now, victim).Some? && !Safe(AfterSweep(now, victim).value)
  {
    hide Leads, AfterSweep, Safe, RunOf, HeedfulRun;
    UnsyncedIsReachable();
    RiskLoses(UNSYNCED_UNLINK, Watch(true, true, false), Unsynced());
    Arrived(UNSYNCED_UNLINK, Watch(true, true, false), Unsynced());
  }
}
