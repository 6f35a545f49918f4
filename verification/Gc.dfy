/**
 Two-phase collection of generation records (src/core/compact.c:327-404, 684-736, 885-1094): work is
 claimed under the shard mutex, done without it, and settled under it again.  Any number of
 collectors and registry users interleave between those steps.
 */
module Gc {
  import opened Basics

  /** The address of a record. */
  type Rid = nat

  datatype GcState = NONE | PENDING | CLAIMED

  datatype Record = Record(legacy: bool, openRefs: nat, gc: GcState, claim: nat, install: bool, unlinked: bool)

  datatype Completion = RETRY | DEFERRED | ALIAS_ONLY | RETIRED

  /** A claimed piece of work and, after its I/O, how that ended. */
  datatype Work = Work(record: Rid, claim: nat, legacy: bool, openAtClaim: nat, install: bool, unlinked: bool,
                       legacyRefs: bool, done: Option<Completion>)

  /**
   `records` are allocated; a freed address may be given out again.  `handles` are registered and
   point to their record.  `work` is claimed and not yet settled.
   */
  datatype State = State(records: map<Rid, Record>, handles: map<nat, Rid>, work: map<nat, Work>)

  datatype Action =
    | Register(handle: nat, record: Rid, legacy: bool)
    | Unregister(handle: nat, forgettable: bool)
    | MarkForGc(record: Rid, legacy: bool, install: bool)
    | MarkUnlinked
    | Claim(worker: nat, record: Rid)
    | DoIo(worker: nat, view: View)
    | Finalize(worker: nat)

  /** What a collector finds on disk: the active storage, and the outcome of its I/O. */
  datatype View = View(resolved: bool, activeIsVictim: bool, activeIsLegacy: bool, aliasOk: bool, removeOk: bool)

  /** `generation_has_legacy_refs_for_path_locked`: somebody has a legacy pair of the path open. */
  ghost predicate HasLegacyRefs(records: map<Rid, Record>) {
    exists r :: r in records && records[r].legacy && records[r].openRefs > 0
  }

  /** `perform_generation_gc_io`, the decision. */
  function Decide(w: Work, v: View): Completion {
    if !v.resolved then RETRY
    else if !(w.unlinked && w.legacy) && v.activeIsVictim then RETRY
    else if w.install && w.legacyRefs then DEFERRED
    else if w.install && (v.activeIsLegacy || !v.aliasOk) then RETRY
    else if w.legacy && !w.install && !w.unlinked then RETRY
    else if w.openAtClaim > 0 then (if w.install then ALIAS_ONLY else DEFERRED)
    else if w.legacy then RETIRED
    else if v.removeOk then RETIRED else RETRY
  }

  /** The I/O reaches the step that links the legacy names to the active generation. */
  predicate InstallsAliases(w: Work, v: View) {
    && v.resolved && (!(w.unlinked && w.legacy) ==> !v.activeIsVictim)
    && w.install && !w.legacyRefs && !v.activeIsLegacy
  }

  /** The I/O reaches the step that removes the victim's files. */
  predicate RemovesStorage(w: Work, v: View) {
    && v.resolved && !v.activeIsVictim && !w.legacy && w.openAtClaim == 0
    && (w.install ==> !w.legacyRefs && !v.activeIsLegacy && v.aliasOk)
  }

  predicate Enabled(s: State, a: Action) {
    match a
    case Register(h, r, legacy) =>
      && h !in s.handles
      && (r in s.records ==> s.records[r].legacy == legacy && !(legacy && s.records[r].unlinked))
    case Unregister(h, _) => h in s.handles && s.handles[h] in s.records
    case MarkForGc(r, legacy, install) =>
      r in s.records ==> s.records[r].legacy == legacy && !(install && legacy && s.records[r].unlinked)
    case MarkUnlinked => true
    case Claim(w, r) => w !in s.work && r in s.records && s.records[r].gc == PENDING
    case DoIo(w, _) => w in s.work && s.work[w].done.None?
    case Finalize(w) => w in s.work && s.work[w].done.Some?
  }

  /** `get_generation_record_locked`: the record, or a new one. */
  function Get(s: State, r: Rid, legacy: bool): Record {
    if r in s.records then s.records[r] else Record(legacy, 0, NONE, 0, false, false)
  }

  function AfterUnregister(s: State, h: nat, forgettable: bool): State
    requires h in s.handles && s.handles[h] in s.records
  {
    var r := s.handles[h];
    var rec := s.records[r];
    var left := rec.(openRefs := if rec.openRefs > 0 then rec.openRefs - 1 else 0);
    if left.openRefs == 0 && rec.gc == NONE && forgettable then
      s.(records := s.records - {r}, handles := s.handles - {h})
    else s.(records := s.records[r := left], handles := s.handles - {h})
  }

  function WithMark(rec: Record, install: bool): Record {
    rec.(gc := if rec.gc == NONE then PENDING else rec.gc,
         install := if rec.unlinked then rec.install else rec.install || install)
  }

  function Unlinked(rec: Record): Record {
    rec.(unlinked := true, install := false, gc := if rec.gc == NONE then PENDING else rec.gc)
  }

  /** The claim is still the record's own. */
  predicate IsCurrent(s: State, w: Work) {
    w.record in s.records && s.records[w.record].gc == CLAIMED && s.records[w.record].claim == w.claim
  }

  /** `finalize_generation_gc_work`. */
  function AfterFinalize(s: State, worker: nat): State
    requires worker in s.work && s.work[worker].done.Some?
  {
    var w := s.work[worker];
    var t := s.(work := s.work - {worker});
    if !IsCurrent(s, w) then t
    else
      var rec := s.records[w.record];
      if w.done.value == RETIRED && rec.openRefs == 0 && rec.install == w.install && rec.unlinked == w.unlinked then
        t.(records := s.records - {w.record})
      else t.(records := s.records[w.record := rec.(gc := PENDING)])
  }

  ghost function After(s: State, a: Action): State
    requires Enabled(s, a)
  {
    match a
    case Register(h, r, legacy) =>
      var rec := Get(s, r, legacy);
      s.(records := s.records[r := rec.(openRefs := rec.openRefs + 1)], handles := s.handles[h := r])
    case Unregister(h, forgettable) => AfterUnregister(s, h, forgettable)
    case MarkForGc(r, legacy, install) => s.(records := s.records[r := WithMark(Get(s, r, legacy), install)])
    case MarkUnlinked => s.(records := map r | r in s.records :: Unlinked(s.records[r]))
    case Claim(w, r) =>
      var rec := s.records[r].(gc := CLAIMED, claim := s.records[r].claim + 1);
      s.(records := s.records[r := rec],
         work := s.work[w := Work(r, rec.claim, rec.legacy, rec.openRefs, rec.install, rec.unlinked,
                                  HasLegacyRefs(s.records), None)])
    case DoIo(w, view) =>
      var item := s.work[w];
      s.(work := s.work[w := item.(done := Some(Decide(item, view)))])
    case Finalize(w) => AfterFinalize(s, w)
  }

  // ----- the invariant

  /** The handles registered with a record. */
  ghost function Users(s: State, r: Rid): set<nat> {
    set h | h in s.handles && s.handles[h] == r
  }

  /** Handles point to allocated records. */
  ghost predicate HandleInv(s: State) {
    forall h :: h in s.handles ==> s.handles[h] in s.records
  }

  /** `openRefs` counts the handles. */
  ghost predicate RefsInv(s: State) {
    forall r :: r in s.records ==> s.records[r].openRefs == |Users(s, r)|
  }

  /** Every claim in progress is its record's own, and no record has two. */
  ghost predicate ClaimInv(s: State) {
    && (forall w :: w in s.work ==> IsCurrent(s, s.work[w]))
    && (forall w, x :: w in s.work && x in s.work && w != x ==> s.work[w].record != s.work[x].record)
  }

  /** A record whose name is gone owes no alias step, nor does work that knows it. */
  ghost predicate UnlinkedInv(s: State) {
    && (forall r :: r in s.records && s.records[r].unlinked ==> !s.records[r].install)
    && (forall w :: w in s.work && s.work[w].unlinked ==> !s.work[w].install)
  }

  ghost predicate Inv(s: State) { HandleInv(s) && RefsInv(s) && ClaimInv(s) && UnlinkedInv(s) }

  lemma RegisterUsers(s: State, h: nat, r: Rid, legacy: bool, q: Rid)
    requires Enabled(s, Register(h, r, legacy))
    ensures Users(After(s, Register(h, r, legacy)), q) == (if q == r then Users(s, q) + {h} else Users(s, q))
    ensures h !in Users(s, q)
  {
  }

  lemma UnallocatedHasNoUsers(s: State, r: Rid)
    requires HandleInv(s) && r !in s.records
    ensures Users(s, r) == {}
  {
  }

  lemma RegisterKeepsRefs(s: State, h: nat, r: Rid, legacy: bool)
    requires HandleInv(s) && RefsInv(s) && Enabled(s, Register(h, r, legacy))
    ensures RefsInv(After(s, Register(h, r, legacy)))
  {
    hide Users, HandleInv;
    if r !in s.records { UnallocatedHasNoUsers(s, r); }
    var s' := After(s, Register(h, r, legacy));
    forall q | q in s'.records
      ensures s'.records[q].openRefs == |Users(s', q)|
    {
      RegisterUsers(s, h, r, legacy, q);
    }
  }

  lemma MarkKeepsRefs(s: State, r: Rid, legacy: bool, install: bool)
    requires HandleInv(s) && RefsInv(s) && Enabled(s, MarkForGc(r, legacy, install))
    ensures RefsInv(After(s, MarkForGc(r, legacy, install)))
  {
    var s' := After(s, MarkForGc(r, legacy, install));
    if r !in s.records { UnallocatedHasNoUsers(s, r); }
    assert forall q :: Users(s', q) == Users(s, q);
  }

  lemma UnregisterKeepsRefs(s: State, h: nat, forgettable: bool)
    requires HandleInv(s) && RefsInv(s) && Enabled(s, Unregister(h, forgettable))
    ensures RefsInv(After(s, Unregister(h, forgettable))) && HandleInv(After(s, Unregister(h, forgettable)))
  {
    var s' := After(s, Unregister(h, forgettable));
    var r := s.handles[h];
    assert h in Users(s, r);
    forall q | q in s.records
      ensures q == r ==> Users(s', q) == Users(s, q) - {h}
      ensures q != r ==> Users(s', q) == Users(s, q)
    {
    }
    forall g | g in s'.handles
      ensures s'.handles[g] in s'.records
    {
      if s.handles[g] == r { assert g in Users(s', r); }
    }
  }

  lemma UsersKept(s: State, s': State)
    requires s'.handles == s.handles && RefsInv(s)
    requires forall r :: r in s'.records ==> r in s.records && s'.records[r].openRefs == s.records[r].openRefs
    ensures RefsInv(s')
  {
    forall r | r in s'.records
      ensures Users(s', r) == Users(s, r)
    {
    }
  }

  /** A record that is settled as retired has no handles. */
  lemma FinalizeKeepsHandles(s: State, w: nat)
    requires HandleInv(s) && RefsInv(s) && Enabled(s, Finalize(w))
    ensures HandleInv(After(s, Finalize(w)))
  {
    var s' := After(s, Finalize(w));
    forall h | h in s.handles
      ensures s.handles[h] in s'.records
    {
      assert h in Users(s, s.handles[h]);
    }
  }

  lemma HandlesKept(s: State, a: Action)
    requires HandleInv(s) && Enabled(s, a) && !a.Unregister? && !a.Finalize?
    ensures HandleInv(After(s, a))
  {
  }

  lemma StepKeepsRefs(s: State, a: Action)
    requires HandleInv(s) && RefsInv(s) && Enabled(s, a)
    ensures HandleInv(After(s, a)) && RefsInv(After(s, a))
  {
    match a
    case Register(h, r, legacy) => HandlesKept(s, a); RegisterKeepsRefs(s, h, r, legacy);
    case Unregister(h, forgettable) => UnregisterKeepsRefs(s, h, forgettable);
    case Finalize(w) => UsersKept(s, After(s, a)); FinalizeKeepsHandles(s, w);
    case MarkForGc(r, legacy, install) => HandlesKept(s, a); MarkKeepsRefs(s, r, legacy, install);
    case _ => HandlesKept(s, a); UsersKept(s, After(s, a));
  }

  lemma RecordStepKeepsClaims(s: State, a: Action)
    requires ClaimInv(s) && UnlinkedInv(s) && Enabled(s, a)
    requires a.Register? || a.Unregister? || a.MarkForGc? || a.MarkUnlinked?
    ensures ClaimInv(After(s, a)) && UnlinkedInv(After(s, a))
  {
  }

  lemma WorkStepKeepsClaims(s: State, a: Action)
    requires ClaimInv(s) && UnlinkedInv(s) && Enabled(s, a)
    requires a.Claim? || a.DoIo? || a.Finalize?
    ensures ClaimInv(After(s, a)) && UnlinkedInv(After(s, a))
  {
  }

  /** Every step of every thread keeps the invariant. */
  lemma StepKeepsInv(s: State, a: Action)
    requires Inv(s) && Enabled(s, a)
    ensures Inv(After(s, a))
  {
    hide After, Enabled, HandleInv, RefsInv, ClaimInv, UnlinkedInv;
    StepKeepsRefs(s, a);
    if a.Register? || a.Unregister? || a.MarkForGc? || a.MarkUnlinked? {
      RecordStepKeepsClaims(s, a);
    } else {
      WorkStepKeepsClaims(s, a);
    }
  }

  // ----- runs

  predicate Initial(s: State) { s == State(map[], map[], map[]) }

  ghost function RunOf(s: State, actions: seq<Action>): Option<State> {
    if actions == [] then Some(s)
    else
      var before := RunOf(s, actions[..|actions| - 1]);
      if before.None? || !Enabled(before.value, actions[|actions| - 1]) then None
      else Some(After(before.value, actions[|actions| - 1]))
  }

  lemma {:induction false} RunKeepsInv(s: State, actions: seq<Action>)
    requires Initial(s) && RunOf(s, actions).Some?
    ensures Inv(RunOf(s, actions).value)
    decreases |actions|
  {
    if actions != [] {
      var n := |actions| - 1;
      RunKeepsInv(s, actions[..n]);
      hide After, Enabled, Inv;
      StepKeepsInv(RunOf(s, actions[..n]).value, actions[n]);
    }
  }

  /**
   Under every interleaving a record is freed only while it is allocated, nobody's handle points to
   it and no other collector is at work on it.
   */
  lemma FreedOnlyWhenUnused(s: State, actions: seq<Action>, a: Action, r: Rid)
    requires Initial(s) && RunOf(s, actions).Some? && Enabled(RunOf(s, actions).value, a)
    requires var now := RunOf(s, actions).value; r in now.records && r !in After(now, a).records
    ensures var next := After(RunOf(s, actions).value, a);
            && (forall h :: h in next.handles ==> next.handles[h] != r)
            && (forall w :: w in next.work ==> next.work[w].record != r)
  {
    RunKeepsInv(s, actions);
    var now := RunOf(s, actions).value;
    StepKeepsInv(now, a);
    var next := After(now, a);
    assert HandleInv(next) && ClaimInv(next);
    assert forall w :: w in next.work ==> IsCurrent(next, next.work[w]);
  }

  // ----- claims over a run

  /** The prefix of a run is a run. */
  lemma {:induction false} RunPrefix(s: State, actions: seq<Action>, n: nat)
    requires RunOf(s, actions).Some? && n <= |actions|
    ensures RunOf(s, actions[..n]).Some?
    decreases |actions|
  {
    if n < |actions| {
      RunPrefix(s, actions[..|actions| - 1], n);
      assert actions[..|actions| - 1][..n] == actions[..n];
    } else {
      assert actions[..n] == actions;
    }
  }

  lemma RunStep(s: State, actions: seq<Action>, n: nat)
    requires RunOf(s, actions).Some? && n < |actions|
    ensures RunOf(s, actions[..n]).Some? && RunOf(s, actions[..n + 1]).Some?
    ensures Enabled(RunOf(s, actions[..n]).value, actions[n])
    ensures RunOf(s, actions[..n + 1]).value == After(RunOf(s, actions[..n]).value, actions[n])
  {
    hide Enabled, After;
    RunPrefix(s, actions, n);
    RunPrefix(s, actions, n + 1);
    assert actions[..n + 1][..n] == actions[..n];
  }

  predicate Claims(a: Action, worker: nat) { a.Claim? && a.worker == worker }

  /** The record is made anew, by an open or by a mark. */
  predicate Makes(a: Action, r: Rid) { (a.Register? || a.MarkForGc?) && a.record == r }

  ghost predicate ClaimedBetween(actions: seq<Action>, i: nat, j: nat, worker: nat) {
    exists k :: i < k < j && k < |actions| && Claims(actions[k], worker)
  }

  ghost predicate MadeBetween(actions: seq<Action>, i: nat, j: nat, r: Rid) {
    exists k :: i < k < j && k < |actions| && Makes(actions[k], r)
  }

  lemma StepGivesNoWork(s: State, a: Action, worker: nat)
    requires Enabled(s, a) && !Claims(a, worker) && worker !in s.work
    ensures worker !in After(s, a).work
  {
  }

  lemma StepMakesNoRecord(s: State, a: Action, r: Rid)
    requires Enabled(s, a) && !Makes(a, r) && r !in s.records
    ensures r !in After(s, a).records
  {
  }

  lemma NotClaimedBefore(actions: seq<Action>, i: nat, j: nat, worker: nat)
    requires i + 1 < j <= |actions| && !ClaimedBetween(actions, i, j, worker)
    ensures !Claims(actions[j - 1], worker) && !ClaimedBetween(actions, i, j - 1, worker)
  {
  }

  lemma NotMadeBefore(actions: seq<Action>, i: nat, j: nat, r: Rid)
    requires i + 1 < j <= |actions| && !MadeBetween(actions, i, j, r)
    ensures !Makes(actions[j - 1], r) && !MadeBetween(actions, i, j - 1, r)
  {
  }

  /** A collector without work stays so until it claims again. */
  lemma {:induction false} IdleUntilClaim(s: State, actions: seq<Action>, worker: nat, i: nat, j: nat)
    requires RunOf(s, actions).Some? && i < j <= |actions| && !ClaimedBetween(actions, i, j, worker)
    requires RunOf(s, actions[..i + 1]).Some? && worker !in RunOf(s, actions[..i + 1]).value.work
    ensures RunOf(s, actions[..j]).Some? && worker !in RunOf(s, actions[..j]).value.work
    decreases j
  {
    hide Enabled, After, RunOf, Claims, ClaimedBetween;
    RunPrefix(s, actions, j);
    if j > i + 1 {
      NotClaimedBefore(actions, i, j, worker);
      IdleUntilClaim(s, actions, worker, i, j - 1);
      RunStep(s, actions, j - 1);
      StepGivesNoWork(RunOf(s, actions[..j - 1]).value, actions[j - 1], worker);
    }
  }

  /** A freed record stays so until it is made anew. */
  lemma {:induction false} FreeUntilMade(s: State, actions: seq<Action>, r: Rid, i: nat, j: nat)
    requires RunOf(s, actions).Some? && i < j <= |actions| && !MadeBetween(actions, i, j, r)
    requires RunOf(s, actions[..i + 1]).Some? && r !in RunOf(s, actions[..i + 1]).value.records
    ensures RunOf(s, actions[..j]).Some? && r !in RunOf(s, actions[..j]).value.records
    decreases j
  {
    hide Enabled, After, RunOf, Makes, MadeBetween;
    RunPrefix(s, actions, j);
    if j > i + 1 {
      NotMadeBefore(actions, i, j, r);
      FreeUntilMade(s, actions, r, i, j - 1);
      RunStep(s, actions, j - 1);
      StepMakesNoRecord(RunOf(s, actions[..j - 1]).value, actions[j - 1], r);
    }
  }

  /**
   In every run each settlement finds its claim current, on an allocated record; it ends the claim -
   the record is freed, or waits to be claimed again - and touches no other record, handle or work.
   */
  lemma SettlesOwnClaim(s: State, actions: seq<Action>, worker: nat)
    requires Initial(s) && RunOf(s, actions).Some? && Enabled(RunOf(s, actions).value, Finalize(worker))
    ensures var now := RunOf(s, actions).value; var next := After(now, Finalize(worker)); var r := now.work[worker].record;
            && IsCurrent(now, now.work[worker])
            && (r in next.records ==> next.records[r] == now.records[r].(gc := PENDING))
            && next.records - {r} == now.records - {r} && next.handles == now.handles
            && next.work == now.work - {worker} && forall w :: w in next.work ==> next.work[w].record != r
  {
    RunKeepsInv(s, actions);
    var now := RunOf(s, actions).value;
    assert IsCurrent(now, now.work[worker]);
  }

  /** No claim is settled twice: between two settlements by a collector lies a claim by it. */
  lemma SettledOnce(s: State, actions: seq<Action>, worker: nat, i: nat, j: nat)
    requires Initial(s) && RunOf(s, actions).Some? && i < j < |actions|
    requires actions[i] == Finalize(worker) && actions[j] == Finalize(worker)
    ensures ClaimedBetween(actions, i, j, worker)
  {
    RunStep(s, actions, i);
    RunStep(s, actions, j);
    if !ClaimedBetween(actions, i, j, worker) { IdleUntilClaim(s, actions, worker, i, j); }
  }

  /** A freed record is never settled again, by anyone, unless its address was given to a new record. */
  lemma FreedNeverSettled(s: State, actions: seq<Action>, r: Rid, i: nat, j: nat)
    requires Initial(s) && RunOf(s, actions).Some? && i < j < |actions|
    requires RunOf(s, actions[..i + 1]).Some? && r !in RunOf(s, actions[..i + 1]).value.records
    requires actions[j].Finalize? && RunOf(s, actions[..j]).Some?
    requires actions[j].worker in RunOf(s, actions[..j]).value.work && RunOf(s, actions[..j]).value.work[actions[j].worker].record == r
    ensures MadeBetween(actions, i, j, r)
  {
    RunStep(s, actions, j);
    SettlesOwnClaim(s, actions[..j], actions[j].worker);
    if !MadeBetween(actions, i, j, r) { FreeUntilMade(s, actions, r, i, j); }
  }

  // ----- with the path lock held from claim to settlement

  /** While a collector works on the path, nobody else registers, marks or unlinks there. */
  predicate Disciplined(s: State, a: Action) {
    s.work != map[] ==> a.Claim? || a.DoIo? || a.Finalize?
  }

  /** What a collector noted at its claim is still so. */
  ghost predicate Snapshots(s: State) {
    forall w :: w in s.work && s.work[w].record in s.records ==>
      var rec := s.records[s.work[w].record];
      s.work[w].openAtClaim == rec.openRefs && s.work[w].install == rec.install && s.work[w].unlinked == rec.unlinked
      && s.work[w].legacy == rec.legacy && s.work[w].legacyRefs == HasLegacyRefs(s.records)
  }

  ghost predicate DisciplinedRun(s: State, actions: seq<Action>)
    requires RunOf(s, actions).Some?
  {
    if actions == [] then true
    else
      var n := |actions| - 1;
      DisciplinedRun(s, actions[..n]) && Disciplined(RunOf(s, actions[..n]).value, actions[n])
  }

  /** Collectors open and close nothing. */
  lemma LegacyRefsKept(s: State, a: Action)
    requires Enabled(s, a) && (a.Claim? || a.DoIo? || a.Finalize?)
    ensures HasLegacyRefs(After(s, a).records) == HasLegacyRefs(s.records)
  {
    var t := After(s, a).records;
    if HasLegacyRefs(s.records) {
      var r :| r in s.records && s.records[r].legacy && s.records[r].openRefs > 0;
      assert r in t && t[r].legacy && t[r].openRefs > 0;
    }
    if HasLegacyRefs(t) {
      var r :| r in t && t[r].legacy && t[r].openRefs > 0;
      assert r in s.records && s.records[r].legacy && s.records[r].openRefs > 0;
    }
  }

  lemma StepKeepsSnapshots(s: State, a: Action)
    requires ClaimInv(s) && Snapshots(s) && Enabled(s, a) && Disciplined(s, a)
    ensures Snapshots(After(s, a))
  {
    if a.Claim? || a.DoIo? || a.Finalize? { LegacyRefsKept(s, a); }
    hide HasLegacyRefs;
  }

  lemma {:induction false} RunKeepsSnapshots(s: State, actions: seq<Action>)
    requires Initial(s) && RunOf(s, actions).Some? && DisciplinedRun(s, actions)
    ensures Snapshots(RunOf(s, actions).value)
    decreases |actions|
  {
    if actions != [] {
      var n := |actions| - 1;
      RunKeepsSnapshots(s, actions[..n]);
      RunKeepsInv(s, actions[..n]);
      hide After, Enabled, Snapshots, HandleInv, RefsInv, ClaimInv, UnlinkedInv, Disciplined;
      StepKeepsSnapshots(RunOf(s, actions[..n]).value, actions[n]);
    }
  }

  lemma NoLegacyHandles(s: State)
    requires HandleInv(s) && RefsInv(s) && !HasLegacyRefs(s.records)
    ensures forall h :: h in s.handles ==> s.handles[h] in s.records && !s.records[s.handles[h]].legacy
  {
    forall h | h in s.handles
      ensures !s.records[s.handles[h]].legacy
    {
      assert h in Users(s, s.handles[h]);
    }
  }

  /**
   Files are removed only of a generation that is not active and that nobody has open; the legacy
   names are linked only for a record whose name still exists and only while nobody has a legacy pair
   of the path open; an unlinked legacy record gets neither, so a pair created anew under its name is left alone.
   */
  lemma CollectorTouchesOnlyTheDead(s: State, actions: seq<Action>, worker: nat, view: View)
    requires Initial(s) && RunOf(s, actions).Some? && DisciplinedRun(s, actions)
    requires Enabled(RunOf(s, actions).value, DoIo(worker, view))
    ensures var now := RunOf(s, actions).value; var w := now.work[worker];
            && w.record in now.records
            && (RemovesStorage(w, view) ==> !view.activeIsVictim && !now.records[w.record].legacy && Users(now, w.record) == {})
            && (InstallsAliases(w, view) ==>
                  && !now.records[w.record].unlinked && !view.activeIsLegacy
                  && forall h :: h in now.handles ==> now.handles[h] in now.records && !now.records[now.handles[h]].legacy)
            && (now.records[w.record].legacy && now.records[w.record].unlinked ==> !RemovesStorage(w, view) && !InstallsAliases(w, view))
  {
    RunKeepsInv(s, actions);
    RunKeepsSnapshots(s, actions);
    var now := RunOf(s, actions).value;
    assert IsCurrent(now, now.work[worker]);
    if !HasLegacyRefs(now.records) { NoLegacyHandles(now); }
  }

  /** With the lock held, work that ended as retired always retires its record. */
  lemma RetiredWorkRetires(s: State, actions: seq<Action>, worker: nat)
    requires Initial(s) && RunOf(s, actions).Some? && DisciplinedRun(s, actions)
    requires Enabled(RunOf(s, actions).value, Finalize(worker))
    requires var w := RunOf(s, actions).value.work[worker]; w.done == Some(RETIRED) && w.openAtClaim == 0
    ensures var now := RunOf(s, actions).value;
            now.work[worker].record !in After(now, Finalize(worker)).records
  {
    RunKeepsInv(s, actions);
    RunKeepsSnapshots(s, actions);
    assert IsCurrent(RunOf(s, actions).value, RunOf(s, actions).value.work[worker]);
  }

  lemma RetiredMeansUnopened(w: Work, v: View)
    requires Decide(w, v) == RETIRED
    ensures w.openAtClaim == 0 && (!w.legacy ==> RemovesStorage(w, v) && v.removeOk)
  {
  }

  // ----- when a record goes

  /** Handle `h` is on a legacy pair. */
  predicate OnLegacy(s: State, h: nat) { h in s.handles && s.handles[h] in s.records && s.records[s.handles[h]].legacy }

  lemma LegacyRefsAreHandles(s: State)
    requires HandleInv(s) && RefsInv(s)
    ensures HasLegacyRefs(s.records) <==> exists h :: OnLegacy(s, h)
  {
    if HasLegacyRefs(s.records) {
      var r :| r in s.records && s.records[r].legacy && s.records[r].openRefs > 0;
      assert Users(s, r) != {};
      var h :| h in Users(s, r);
      assert OnLegacy(s, h);
    } else {
      NoLegacyHandles(s);
    }
  }

  lemma OpenRefsAreHandles(s: State, r: Rid)
    requires RefsInv(s) && r in s.records
    ensures s.records[r].openRefs == 0 <==> forall h :: h in s.handles ==> s.handles[h] != r
  {
    if s.records[r].openRefs == 0 {
      assert Users(s, r) == {};
      assert forall h :: h in s.handles && s.handles[h] == r ==> h in Users(s, r);
    } else {
      assert Users(s, r) != {};
      var h :| h in Users(s, r);
    }
  }

  /** A claim, its I/O and its settlement, nobody coming in between. */
  ghost function Collected(s: State, worker: nat, r: Rid, view: View): State
    requires Enabled(s, Claim(worker, r))
  {
    var claimed := After(s, Claim(worker, r));
    After(After(claimed, DoIo(worker, view)), Finalize(worker))
  }

  /** When a decision is to retire, in terms of what was noted at the claim and found on disk. */
  lemma RetiredExactlyWhen(w: Work, v: View)
    ensures Decide(w, v) == RETIRED <==>
              && w.openAtClaim == 0 && v.resolved && (v.activeIsVictim ==> w.unlinked && w.legacy)
              && (w.install ==> !v.activeIsLegacy && v.aliasOk && !w.legacyRefs)
              && (if w.legacy then w.install || w.unlinked else v.removeOk)
  {
  }

  lemma CollectedShape(s: State, worker: nat, r: Rid, view: View)
    requires Enabled(s, Claim(worker, r))
    ensures var rec, last := s.records[r], Collected(s, worker, r, view);
            var w := Work(r, rec.claim + 1, rec.legacy, rec.openRefs, rec.install, rec.unlinked, HasLegacyRefs(s.records), None);
            && last.handles == s.handles && last.work == s.work && last.records - {r} == s.records - {r}
            && (r !in last.records <==> Decide(w, view) == RETIRED && rec.openRefs == 0)
            && (r in last.records ==> last.records[r] == rec.(gc := PENDING, claim := rec.claim + 1))
  {
    hide HasLegacyRefs, Decide;
  }

  /**
   A collection frees the record exactly if no handle is on it, the path resolves to something else, the
   alias step it owes - if any - was possible and succeeded, and its files were removed, or are not the
   collector's to remove.  Otherwise the record waits to be claimed again, its duties as before.
   */
  lemma CollectedExactlyWhen(s: State, actions: seq<Action>, worker: nat, r: Rid, view: View)
    requires Initial(s) && RunOf(s, actions).Some? && Enabled(RunOf(s, actions).value, Claim(worker, r))
    ensures var now := RunOf(s, actions).value; var rec, last := now.records[r], Collected(now, worker, r, view);
            && (r !in last.records <==>
                  && (forall h :: h in now.handles ==> now.handles[h] != r)
                  && view.resolved && (view.activeIsVictim ==> rec.unlinked && rec.legacy)
                  && (rec.install ==>
                        && !view.activeIsLegacy && view.aliasOk
                        && forall h :: !OnLegacy(now, h))
                  && (if rec.legacy then rec.install || rec.unlinked else view.removeOk))
            && (r in last.records ==> last.records[r] == rec.(gc := PENDING, claim := rec.claim + 1))
            && last.records - {r} == now.records - {r} && last.handles == now.handles && last.work == now.work
  {
    RunKeepsInv(s, actions);
    var now := RunOf(s, actions).value;
    LegacyRefsAreHandles(now);
    OpenRefsAreHandles(now, r);
    CollectedShape(now, worker, r, view);
    var rec := now.records[r];
    RetiredExactlyWhen(Work(r, rec.claim + 1, rec.legacy, rec.openRefs, rec.install, rec.unlinked, HasLegacyRefs(now.records), None), view);
    hide HasLegacyRefs, RunOf, Inv, Decide, Collected, OnLegacy;
  }

  /** A record that is marked, or whose name is gone, waits for a collector or has one; its duties are noted. */
  lemma MarkedWaits(s: State, actions: seq<Action>, r: Rid, legacy: bool, install: bool, worker: nat)
    requires Initial(s) && RunOf(s, actions).Some? && worker !in RunOf(s, actions).value.work
    ensures var now := RunOf(s, actions).value;
            && (Enabled(now, MarkForGc(r, legacy, install)) ==>
                  var next := After(now, MarkForGc(r, legacy, install));
                  && r in next.records && (Enabled(next, Claim(worker, r)) || next.records[r].gc == CLAIMED)
                  && (install && !next.records[r].unlinked ==> next.records[r].install)
                  && (r in now.records && now.records[r].install ==> next.records[r].install))
            && var gone := After(now, MarkUnlinked);
               gone.records.Keys == now.records.Keys
               && forall q :: q in gone.records ==>
                    gone.records[q].unlinked && !gone.records[q].install
                    && (Enabled(gone, Claim(worker, q)) || gone.records[q].gc == CLAIMED)
  {
    RunKeepsInv(s, actions);
    hide RunOf, RefsInv, HandleInv, ClaimInv;
  }

  /** Closing a handle frees the record exactly if it was the last one on it and the record neither awaits collection nor is needed. */
  lemma ForgottenExactlyWhen(s: State, actions: seq<Action>, h: nat, forgettable: bool)
    requires Initial(s) && RunOf(s, actions).Some? && Enabled(RunOf(s, actions).value, Unregister(h, forgettable))
    ensures var now := RunOf(s, actions).value; var r, next := now.handles[h], After(now, Unregister(h, forgettable));
            && next.handles == now.handles - {h} && next.records - {r} == now.records - {r} && next.work == now.work
            && (r !in next.records <==> (forall k :: k in now.handles && now.handles[k] == r ==> k == h) && now.records[r].gc == NONE && forgettable)
            && (r in next.records ==> next.records[r] == now.records[r].(openRefs := |Users(next, r)|))
  {
    RunKeepsInv(s, actions);
    StepKeepsInv(RunOf(s, actions).value, Unregister(h, forgettable));
    var now := RunOf(s, actions).value;
    var r := now.handles[h];
    var others := Users(now, r) - {h};
    assert |others| == |Users(now, r)| - 1;
    assert others == {} <==> forall k :: k in now.handles && now.handles[k] == r ==> k == h by {
      if others == {} { assert forall k :: k in now.handles && now.handles[k] == r && k != h ==> k in others; }
    }
    hide RunOf, ClaimInv, UnlinkedInv, Users;
  }

  /** An open file is counted while it is open: opening and closing it leaves the counts of a record that others use. */
  lemma OpenedAndClosed(s: State, actions: seq<Action>, h: nat, r: Rid, legacy: bool, forgettable: bool)
    requires Initial(s) && RunOf(s, actions).Some? && Enabled(RunOf(s, actions).value, Register(h, r, legacy))
    ensures var now := RunOf(s, actions).value; var counted := After(now, Register(h, r, legacy));
            && h in counted.handles && counted.handles[h] == r && r in counted.records && counted.records[r].legacy == legacy
            && counted.records[r].openRefs == |Users(now, r)| + 1
            && Enabled(counted, Unregister(h, forgettable))
            && var closed := After(counted, Unregister(h, forgettable));
               closed.handles == now.handles && closed.work == now.work
               && (Users(now, r) != {} ==> closed.records == now.records)
  {
    RunKeepsInv(s, actions);
    var now := RunOf(s, actions).value;
    if r !in now.records { UnallocatedHasNoUsers(now, r); }
    hide RunOf, ClaimInv, UnlinkedInv, Users;
  }
}
