/**
 What becomes of a claimed ticket (src/core/compact.c:512-639, 1510-1554, 1844-1882, 1935-2060,
 2319-2460): when it is claimed, acted on, and let go; that nobody is ever stuck with one; and that
 a resize is followed by a cooldown.
 */
module TicketFates {
  import opened Basics
  import opened Tickets
  import opened TicketFlow
  import opened TicketRuns
  import L = TicketLedger
  import Q = CompactQueue

  // ----- the start

  /** The events of a record that has waited out a cooldown. */
  function Aged(c: Counts, now: int): Stats { if c.Halves(now) then c.stats.Halved() else c.stats }

  function Evidence(c: Counts, now: int): u64 { if c.Halves(now) then c.stats.Halved().Sample() else c.classified }

  /**
   A write claims a ticket exactly if the record awaits none, is not cooling down, and has now seen
   enough; the ticket takes all the events along.  Otherwise the record keeps them.
   */
  lemma ClaimedExactlyWhen(s: State, t: nat, r: Rid, full: u64, partial: u64, now: int)
    requires Enabled(s, Observe(t, r, full, partial, now))
    ensures var next := After(s, Observe(t, r, full, partial, now)); var c, d := s.records[r].counts, next.records[r].counts;
            var events := Aged(c, now).Plus(Stats(full, partial));
            var evidence := Add(Evidence(c, now), Add(full, partial));
            var free := c.state == IDLE || c.Halves(now);
            if free && !c.Cooling(now) && events.Sample() >= MIN_SAMPLE && evidence >= MIN_SAMPLE then
              && next.threads == s.threads[t := Claimed(s.records[r].path, Ticket(r, events, c.evaluation + 1))]
              && d.stats == NO_STATS && d.classified == 0 && d.state == QUEUED && d.evaluation == c.evaluation + 1
            else
              && next.threads == s.threads && d.stats == events && d.classified == evidence && d.evaluation == c.evaluation
              && (c.Cooling(now) && c.state == IDLE ==> d.state == COOLDOWN_DEFERRED)
              && (!(c.Cooling(now) && c.state == IDLE) ==> d.state == if c.Halves(now) then IDLE else c.state)
  {
    hide LockedPath, Add;
  }

  // ----- the compaction it asks for

  /**
   A compaction acts on its ticket exactly if the active generation is the one the ticket was claimed
   from.  If not, the ticket goes back with its counts, and the compaction goes on without it.
   */
  lemma ActedOnExactlyWhen(s: State, actions: seq<Action>, t: nat)
    requires Initial(s) && RunOf(s, actions).Some? && Enabled(RunOf(s, actions).value, Begin(t))
    requires RunOf(s, actions).value.threads[t].from.Some?
    ensures var now := RunOf(s, actions).value; var next := After(now, Begin(t));
            var pc := now.threads[t]; var k := pc.from.value; var r := k.source;
            if pc.was == Some(r) then
              && next.threads[t] == Working(pc.path, pc.was, Some(k), Some(k)) && next.place == now.place
              && r in now.records && next.records == now.records[r := now.records[r].(counts := now.records[r].counts.(state := INFLIGHT))]
            else
              && next.threads[t] == Checking(pc.path, pc.was, Some(k)) && next.place == now.place - {r}
              && (r in now.records ==> next.records == now.records[r := now.records[r].(counts := now.records[r].counts.Restored(k, false))])
  {
    RunKeepsInv(s, actions);
    var now := RunOf(s, actions).value;
    hide PlaceInv, DeadInv, IssuedInv, RunOf, LockedPath;
    L.HolderRecognised(now, t, false);
    L.HolderRecognised(now, t, true);
    assert InOrder(now.records, now.threads[t]);
    hide AwaitInv, LockInv, Recognised, Counts.Restored;
  }

  /** A compaction without a ticket gives way exactly if somebody else has one for the active generation. */
  lemma GivesWayExactlyWhen(s: State, actions: seq<Action>, t: nat)
    requires Initial(s) && RunOf(s, actions).Some? && Enabled(RunOf(s, actions).value, Check(t))
    ensures var now := RunOf(s, actions).value; var pc := now.threads[t]; var next := After(now, Check(t));
            && next == SetPc(now, t, next.threads[t])
            && next.threads[t] == if pc.was.Some? && pc.was.value in now.place then Idle else Working(pc.path, pc.was, None, pc.from)
  {
    RunKeepsInv(s, actions);
    var now := RunOf(s, actions).value;
    hide DeadInv, IssuedInv, RunOf, LockedPath;
    assert InOrder(now.records, now.threads[t]);
    if now.threads[t].was.Some? { AwaitedHeld(now, now.threads[t].was.value); }
    if now.threads[t].was.Some? && now.records[now.threads[t].was.value].counts.state != QUEUED { CheckedIdle(now, t); }
    hide PlaceInv, AwaitInv, LockInv;
  }

  // ----- the end

  /** The holder of the ticket of `r` reports failure, turns it down, finds it stale, or has acted on it. */
  predicate Ends(s: State, a: Action, r: Rid) {
    && r in s.place && s.place[r].OfThread? && Has(s, s.place[r].thread)
    && var t := s.place[r].thread;
       || a == Fail(t) || a == Reject(t) || a == ResolveFails(t)
       || (a == Begin(t) && s.threads[t].Locked? && s.threads[t].was != Some(r))
       || (a.HandOver? && a.thread == t)
  }

  lemma Holder(s: State, t: nat, r: Rid)
    requires PlaceInv(s) && r in s.place && Has(s, t)
    ensures s.place[r] == OfThread(t) <==> Carries(s.threads[t]).Some? && Carries(s.threads[t]).value.source == r
  {
    ThreadHolds(s, t);
    hide HeldAt, Carries;
  }

  lemma QueueStepHolds(s: State, a: Action, r: Rid)
    requires Enabled(s, a) && r in s.place && (a.Submit? || a.SubmitPlain? || a.Take?)
    ensures r in After(s, a).place && !Ends(s, a, r)
  {
    hide LockedPath, Q.Schedule;
  }

  lemma RecordStepHolds(s: State, a: Action, r: Rid)
    requires Enabled(s, a) && r in s.place
    requires a.Register? || a.Observe? || a.Release? || a.Retire? || a.SetAccepting? || a.Lock? || a.LockFails? || a.Check? || a.End? || a.FailAgain?
    ensures r in After(s, a).place && !Ends(s, a, r)
  {
    hide LockedPath, Counts.Ripe, Counts.Cooling, Counts.Expired, Counts.Observed, Counts.Restored, Recognised;
  }

  lemma SettlingEnds(s: State, a: Action, r: Rid)
    requires PlaceInv(s) && Enabled(s, a) && r in s.place && (a.HandOver? || a.Reject? || a.Fail? || a.ResolveFails?)
    ensures r !in After(s, a).place <==> Ends(s, a, r)
  {
    Holder(s, a.thread, r);
    hide PlaceInv, LockedPath, Counts.Restored, Recognised, Counts.Inherited;
  }

  lemma BeginEnds(s: State, actions: seq<Action>, t: nat, r: Rid)
    requires Initial(s) && RunOf(s, actions).Some? && Enabled(RunOf(s, actions).value, Begin(t)) && r in RunOf(s, actions).value.place
    ensures r !in After(RunOf(s, actions).value, Begin(t)).place <==> Ends(RunOf(s, actions).value, Begin(t), r)
  {
    RunKeepsInv(s, actions);
    var now := RunOf(s, actions).value;
    Holder(now, t, r);
    hide RunOf, PlaceInv, AwaitInv, LockInv, DeadInv, IssuedInv, GivenBack, LockedPath;
    if now.threads[t].from.Some? {
      ActedOnExactlyWhen(s, actions, t);
      hide After;
    }
  }

  /** A ticket is held until its holder lets go of it, in one of five ways. */
  lemma HeldUntilItEnds(s: State, actions: seq<Action>, a: Action, r: Rid)
    requires Initial(s) && RunOf(s, actions).Some? && Enabled(RunOf(s, actions).value, a) && r in RunOf(s, actions).value.place
    ensures r !in After(RunOf(s, actions).value, a).place <==> Ends(RunOf(s, actions).value, a, r)
  {
    hide Ends, Enabled, After, PlaceInv, AwaitInv, LockInv, DeadInv, IssuedInv, RunOf;
    RunKeepsInv(s, actions);
    var now := RunOf(s, actions).value;
    if a.Begin? {
      assert a == Begin(a.thread);
      BeginEnds(s, actions, a.thread, r);
    } else if a.HandOver? || a.Reject? || a.Fail? || a.ResolveFails? {
      SettlingEnds(now, a, r);
    } else if a.Submit? || a.SubmitPlain? || a.Take? {
      QueueStepHolds(now, a, r);
    } else {
      RecordStepHolds(now, a, r);
    }
  }

  /** Until when the record made by a hand-over claims nothing: after a resize for an hour, otherwise as long as its predecessor would. */
  function CoolsUntil(s: State, a: Action): Option<int>
    requires a.HandOver? && Has(s, a.thread) && s.threads[a.thread].Working?
    requires s.threads[a.thread].was.Some? ==> s.threads[a.thread].was.value in s.records
  {
    var pc := s.threads[a.thread];
    if pc.live.Some? then Some(a.now + COOLDOWN_SECONDS)
    else if pc.was.Some? && s.records[pc.was.value].counts.lastResizeValid then Some(s.records[pc.was.value].counts.cooldownUntil)
    else None
  }

  /** Acted on: the events are spent, those seen since are with the new generation, which cools down. */
  predicate IsSpent(s: State, a: Action, r: Rid, k: Ticket, s': State)
    requires a.HandOver? && Has(s, a.thread) && s.threads[a.thread].Working?
    requires s.threads[a.thread].was.Some? ==> s.threads[a.thread].was.value in s.records
  {
    && s'.spent == s.spent.Plus(k.snapshot) && s'.retired == s.retired
    && r in s.records && r in s'.records && s'.records[r].counts == s.records[r].counts.GivenUp()
    && s.unused in s'.records && s'.records[s.unused].counts.stats == s.records[r].counts.stats
    && CoolsUntil(s, a) == Some(a.now + COOLDOWN_SECONDS)
  }

  /** Given back: the events are in the record again or, if it is gone, gone with it. */
  predicate IsBack(s: State, r: Rid, k: Ticket, evidence: bool, s': State) {
    && s'.spent == s.spent
    && (r in s.records ==>
          s'.records == s.records[r := s.records[r].(counts := s.records[r].counts.Restored(k, evidence))] && s'.retired == s.retired)
    && (r !in s.records ==> s'.records == s.records && s'.retired == s.retired.Plus(k.snapshot))
  }

  /** The holder has the last ticket issued, and its record, if there, recognises it. */
  lemma HoldersTicket(s: State, actions: seq<Action>, t: nat, r: Rid)
    requires Initial(s) && RunOf(s, actions).Some? && Has(RunOf(s, actions).value, t)
    requires r in RunOf(s, actions).value.place && RunOf(s, actions).value.place[r] == OfThread(t)
    ensures var now := RunOf(s, actions).value;
            && r in now.issued && Carries(now.threads[t]) == Some(now.issued[r]) && now.issued[r].source == r && r < now.unused
            && (r in now.records <==> Recognised(now, now.issued[r], true))
            && (!now.threads[t].Working? ==> (r in now.records <==> Recognised(now, now.issued[r], false)))
            && InOrder(now.records, now.threads[t])
  {
    RunKeepsInv(s, actions);
    var now := RunOf(s, actions).value;
    hide RunOf, DeadInv, Recognised;
    Holder(now, t, r);
    ThreadHolds(now, t);
    assert HeldAt(now, OfThread(t)).Some?;
    L.HolderRecognised(now, t, true);
    if !now.threads[t].Working? { L.HolderRecognised(now, t, false); }
    hide HeldAt, PlaceInv, AwaitInv, Carries, InOrder;
  }

  lemma SpentByHandOver(s: State, a: Action, r: Rid)
    requires Enabled(s, a) && a.HandOver? && InOrder(s.records, s.threads[a.thread])
    requires s.threads[a.thread].live.Some? && s.threads[a.thread].live.value.source == r && r < s.unused
    ensures IsSpent(s, a, r, s.threads[a.thread].live.value, After(s, a))
  {
    hide LockedPath;
    HandOverShape(s, a.thread, a.now, a.failed);
    hide AfterHandOver, Counts.GivenUp, Sum.Plus;
  }

  lemma BackWithTheRecord(s: State, a: Action, t: nat, r: Rid, k: Ticket)
    requires Enabled(s, a) && Has(s, t) && Carries(s.threads[t]) == Some(k) && k.source == r && !a.HandOver?
    requires Ends(s, a, r) && s.place[r] == OfThread(t)
    requires r in s.records <==> Recognised(s, k, true)
    requires !s.threads[t].Working? ==> (r in s.records <==> Recognised(s, k, false))
    ensures IsBack(s, r, k, a.Fail?, After(s, a))
  {
    hide LockedPath, Counts.Restored, Recognised, Sum.Plus;
  }

  /**
   How it ends.  Acted on, its events are spent.  In any other way they are back in the record, where
   they count as new evidence only if they never got to a compaction.
   */
  lemma EndsInOneWay(s: State, actions: seq<Action>, a: Action, r: Rid)
    requires Initial(s) && RunOf(s, actions).Some? && Enabled(RunOf(s, actions).value, a) && Ends(RunOf(s, actions).value, a, r)
    ensures var now := RunOf(s, actions).value; var next := After(now, a);
            && r in now.issued
            && if a.HandOver? then IsSpent(now, a, r, now.issued[r], next) else IsBack(now, r, now.issued[r], a.Fail?, next)
  {
    var now := RunOf(s, actions).value;
    var t := now.place[r].thread;
    HoldersTicket(s, actions, t, r);
    hide RunOf, LockedPath, Recognised, IsSpent, IsBack, After, InOrder;
    if a.HandOver? {
      SpentByHandOver(now, a, r);
    } else {
      BackWithTheRecord(now, a, t, r, now.issued[r]);
    }
  }

  // ----- nobody is stuck

  /** What a thread does next, if nothing fails. */
  function Next(t: nat, pc: Pc): Action {
    match pc
    case Claimed(_, _) => Submit(t, false, true)
    case Waiting(_, _) => Lock(t, None)
    case Locked(_, _, _) => Begin(t)
    case Checking(_, _, _) => Check(t)
    case Working(_, _, live, _) => if live.Some? then HandOver(t, 0, false) else End(t, false)
    case Failing(_) => Fail(t)
    case Returning(_) => FailAgain(t)
    case Idle => Take
  }

  /** Steps a thread has still to take, at most, until it is idle. */
  function Left(pc: Pc): nat {
    match pc
    case Idle => 0
    case Returning(_) => 1
    case Failing(_) => 2
    case Working(_, _, live, _) => if live.Some? then 4 else 3
    case Checking(_, _, _) => 4
    case Locked(_, _, _) => 5
    case Waiting(_, _) => 6
    case Claimed(_, _) => 7
  }

  /** The thread a step belongs to, if it is one of a thread at work. */
  function Worker(s: State, a: Action): Option<nat> {
    if a.Submit? || a.Lock? || a.LockFails? || a.ResolveFails? || a.Begin? || a.Check? || a.Reject? || a.HandOver? || a.End?
       || a.Fail? || a.FailAgain? then Some(a.thread) else None
  }

  /**
   In every state a run can reach, a thread at work has a step to take, unless it waits for a path that
   another thread has locked - which then has one.
   */
  lemma NobodyStuck(s: State, actions: seq<Action>, t: nat)
    requires Initial(s) && RunOf(s, actions).Some? && Has(RunOf(s, actions).value, t) && !RunOf(s, actions).value.threads[t].Idle?
    ensures var now := RunOf(s, actions).value; var pc := now.threads[t];
            && Worker(now, Next(t, pc)) == Some(t)
            && (Enabled(now, Next(t, pc)) <==> !(pc.Waiting? && LockedPath(now, pc.path)))
            && (Running(pc) ==> Enabled(now, Next(t, pc)))
  {
    RunKeepsInv(s, actions);
    var now := RunOf(s, actions).value;
    hide RunOf, PlaceInv, AwaitInv, DeadInv, IssuedInv, LockedPath;
    assert InOrder(now.records, now.threads[t]);
  }

  /** Thread `t` alone has moved on, and has fewer steps to take. */
  predicate Nearer(s: State, t: nat, s': State) {
    && Has(s, t) && Has(s', t) && s'.threads == s.threads[t := s'.threads[t]] && Left(s'.threads[t]) < Left(s.threads[t])
  }

  lemma SettlingIsNearer(s: State, a: Action)
    requires Enabled(s, a) && (a.ResolveFails? || a.Reject? || a.Fail? || a.FailAgain?)
    ensures Nearer(s, a.thread, After(s, a))
  {
    var t := a.thread;
    hide LockedPath, Recognised, GivenBack;
    if a.ResolveFails? && s.threads[t].from.Some? { GivenBackFacts(s, s.threads[t].from.value, false, true); }
    if a.Reject? { GivenBackFacts(s, s.threads[t].live.value, false, true); }
    if a.Fail? || a.FailAgain? { GivenBackFacts(s, s.threads[t].ticket, true, false); }
  }

  lemma BeginIsNearer(s: State, t: nat)
    requires Enabled(s, Begin(t))
    ensures Nearer(s, t, After(s, Begin(t)))
  {
    hide LockedPath, Recognised, GivenBack;
    if s.threads[t].from.Some? { GivenBackFacts(s, s.threads[t].from.value, false, true); }
  }

  lemma PlainStepIsNearer(s: State, a: Action)
    requires Enabled(s, a) && (a.Submit? || a.Lock? || a.LockFails? || a.Check? || a.End?)
    ensures Nearer(s, a.thread, After(s, a))
  {
    hide LockedPath, Q.Schedule;
  }

  lemma HandOverIsNearer(s: State, a: Action)
    requires Enabled(s, a) && a.HandOver?
    ensures Nearer(s, a.thread, After(s, a))
  {
    HandOverShape(s, a.thread, a.now, a.failed);
    hide LockedPath, AfterHandOver;
  }

  /** Every step of a thread at work brings it nearer its end, and concerns no other thread. */
  lemma WorkEnds(s: State, a: Action, t: nat)
    requires Enabled(s, a) && Worker(s, a) == Some(t)
    ensures Nearer(s, t, After(s, a))
  {
    hide Enabled, After, Nearer;
    if a.HandOver? {
      HandOverIsNearer(s, a);
    } else if a.Begin? {
      assert a == Begin(t);
      BeginIsNearer(s, t);
    } else if a.Submit? || a.Lock? || a.LockFails? || a.Check? || a.End? {
      PlainStepIsNearer(s, a);
    } else {
      SettlingIsNearer(s, a);
    }
  }

  /** Once the worker is being stopped, the caller compacts itself; nothing is queued any more. */
  lemma DirectWithoutWorker(s: State, t: nat, ordinary: bool, memory: bool)
    requires Enabled(s, Submit(t, ordinary, memory))
    ensures var stopped := After(s, SetAccepting(false));
            && Enabled(stopped, Submit(t, ordinary, memory))
            && After(stopped, Submit(t, ordinary, memory)) == SetPc(stopped, t, Waiting(s.threads[t].path, Some(s.threads[t].ticket)))
            && stopped.threads == s.threads && stopped.queue == s.queue && After(stopped, SetAccepting(true)) == s.(accepting := true)
  {
  }

  /** A record that is freed takes its events with it and leaves its ticket, if one is out, to its holder; its id never comes back. */
  lemma FreedForGood(s: State, actions: seq<Action>, r: Rid, a: Action)
    requires Initial(s) && RunOf(s, actions).Some? && Enabled(RunOf(s, actions).value, Retire(r))
    requires Enabled(After(RunOf(s, actions).value, Retire(r)), a)
    ensures var now := RunOf(s, actions).value; var next := After(now, Retire(r));
            && r !in next.records && next.records == now.records - {r} && next.retired == now.retired.Plus(now.records[r].counts.stats)
            && next.place == now.place && r < next.unused && r !in After(next, a).records
  {
    RunKeepsInv(s, actions);
    var now := RunOf(s, actions).value;
    StepKeepsInv(now, Retire(r));
    StepProgress(After(now, Retire(r)), a);
    assert UsedIds(now);
    hide RunOf, PlaceInv, AwaitInv, LockInv, DeadInv, IssuedInv, LockedPath, Enabled;
    var next := After(now, Retire(r));
    hide After, Quiet;
  }

  // ----- the cooldown

  /** Record `u` awaits nothing and will not before `until`. */
  predicate Cool(s: State, u: Rid, until: int) {
    && u < s.unused && u !in s.issued
    && (u in s.records ==>
          var c := s.records[u].counts; c.lastResizeValid && c.cooldownUntil == until && !c.Awaiting())
  }

  /** Writes to `u`, and releases of it, happen before `until`. */
  predicate Before(a: Action, u: Rid, until: int) { (a.Observe? || a.Release?) && a.record == u ==> a.now < until }

  lemma RecordStepKeepsCool(s: State, a: Action, u: Rid, until: int)
    requires Cool(s, u, until) && Enabled(s, a) && (a.Register? || a.Retire? || a.SetAccepting?)
    ensures Cool(After(s, a), u, until)
  {
    hide LockedPath;
  }

  lemma ClaimKeepsCool(s: State, a: Action, u: Rid, until: int)
    requires Cool(s, u, until) && Enabled(s, a) && Before(a, u, until) && (a.Observe? || a.Release?)
    ensures Cool(After(s, a), u, until)
  {
    hide LockedPath, Add, Stats.Sample, Stats.Plus, Sum.Plus, Halving;
    var c := s.records[a.record].counts;
    var seen := if a.Observe? then c.Observed(a.full, a.partial, a.now) else c.Expired(a.now);
    if a.record == u { CoolingGoesOn(c, seen, a); }
    hide Counts.Observed, Counts.Expired, Counts.Ripe;
  }

  lemma CoolingGoesOn(c: Counts, seen: Counts, a: Action)
    requires a.Observe? || a.Release?
    requires c.Cooling(a.now) && !c.Awaiting()
    requires seen == if a.Observe? then c.Observed(a.full, a.partial, a.now) else c.Expired(a.now)
    ensures seen.Cooling(a.now) && !seen.Awaiting() && seen.lastResizeValid && seen.cooldownUntil == c.cooldownUntil
  {
    hide Add, Stats.Sample, Stats.Plus;
  }

  lemma QueueStepKeepsCool(s: State, a: Action, u: Rid, until: int)
    requires Cool(s, u, until) && Enabled(s, a) && (a.Submit? || a.SubmitPlain? || a.Take?)
    ensures Cool(After(s, a), u, until)
  {
    hide LockedPath, Q.Schedule;
  }

  lemma ThreadStepKeepsCool(s: State, a: Action, u: Rid, until: int)
    requires Cool(s, u, until) && Enabled(s, a)
    requires a.Lock? || a.LockFails? || a.ResolveFails? || a.Check? || a.Reject? || a.End? || a.Fail? || a.FailAgain?
    ensures Cool(After(s, a), u, until)
  {
    hide LockedPath, GivenBack, Finished;
    if a.ResolveFails? && s.threads[a.thread].from.Some? { GivesNothingBack(s, u, s.threads[a.thread].from.value, false, true); }
    if a.Reject? { GivesNothingBack(s, u, s.threads[a.thread].live.value, false, true); }
    if a.Fail? || a.FailAgain? { GivesNothingBack(s, u, s.threads[a.thread].ticket, true, false); }
  }

  /** A record that awaits nothing is given nothing back. */
  lemma GivesNothingBack(s: State, u: Rid, k: Ticket, evidence: bool, inflight: bool)
    requires u in s.records ==> !s.records[u].counts.Awaiting()
    ensures var t := GivenBack(s, k, evidence, inflight);
            t == s.(records := t.records) && t.records.Keys == s.records.Keys && (u in s.records ==> t.records[u] == s.records[u])
  {
    GivenBackFacts(s, k, evidence, inflight);
    hide GivenBack;
  }

  lemma BeginKeepsCool(s: State, t: nat, u: Rid, until: int)
    requires Cool(s, u, until) && Enabled(s, Begin(t))
    ensures Cool(After(s, Begin(t)), u, until)
  {
    hide LockedPath, GivenBack;
    if s.threads[t].from.Some? { GivesNothingBack(s, u, s.threads[t].from.value, false, true); }
  }

  lemma HandOverKeepsCool(s: State, a: Action, u: Rid, until: int)
    requires Cool(s, u, until) && Enabled(s, a) && a.HandOver?
    ensures Cool(After(s, a), u, until)
  {
    hide LockedPath, Counts.Inherited, Sum.Plus;
  }

  lemma StepKeepsCool(s: State, a: Action, u: Rid, until: int)
    requires Cool(s, u, until) && Enabled(s, a) && Before(a, u, until)
    ensures Cool(After(s, a), u, until)
  {
    hide *;
    if a.Register? || a.Retire? || a.SetAccepting? {
      RecordStepKeepsCool(s, a, u, until);
    } else if a.Observe? || a.Release? {
      ClaimKeepsCool(s, a, u, until);
    } else if a.Submit? || a.SubmitPlain? || a.Take? {
      QueueStepKeepsCool(s, a, u, until);
    } else if a.HandOver? {
      HandOverKeepsCool(s, a, u, until);
    } else if a.Begin? {
      assert a == Begin(a.thread);
      BeginKeepsCool(s, a.thread, u, until);
    } else {
      ThreadStepKeepsCool(s, a, u, until);
    }
  }

  lemma HandOverCools(s: State, actions: seq<Action>, a: Action)
    requires Initial(s) && RunOf(s, actions).Some? && Enabled(RunOf(s, actions).value, a) && a.HandOver?
    requires CoolsUntil(RunOf(s, actions).value, a).Some?
    ensures var now := RunOf(s, actions).value; Cool(After(now, a), now.unused, CoolsUntil(now, a).value)
  {
    RunKeepsInv(s, actions);
    UsedAreIssued(s, actions);
    hide RunOf, PlaceInv, AwaitInv, LockInv, DeadInv, IssuedInv, LockedPath, Sum.Plus, Counts.GivenUp;
  }

  /** Tickets were issued by records made before. */
  lemma {:induction false} UsedAreIssued(s: State, actions: seq<Action>)
    requires Initial(s) && RunOf(s, actions).Some?
    ensures forall r :: r in RunOf(s, actions).value.issued ==> r < RunOf(s, actions).value.unused
    decreases |actions|
  {
    hide Initial, Enabled, After;
    if actions == [] {
      assert s.issued == map[] by { IssuedAtFirst(s); }
    } else {
      var n := |actions| - 1;
      UsedAreIssued(s, actions[..n]);
      RunKeepsInv(s, actions[..n]);
      IssuedGrows(RunOf(s, actions[..n]).value, actions[n]);
    }
  }

  lemma IssuedAtFirst(s: State)
    requires Initial(s)
    ensures s.issued == map[]
  {
  }

  lemma IssuedGrows(s: State, a: Action)
    requires AwaitInv(s) && Enabled(s, a) && forall r :: r in s.issued ==> r < s.unused
    ensures forall r :: r in After(s, a).issued ==> r < After(s, a).unused
  {
    StepProgress(s, a);
    assert forall r :: r in s.records ==> r < s.unused;
    hide AwaitInv, Quiet;
    if a.Observe? || a.Release? {
      hide LockedPath, Counts.Ripe, Counts.Cooling, Counts.Expired, Counts.Observed;
    } else {
      OnlyClaimsIssue(s, a);
      hide Enabled, After;
    }
  }

  lemma OnlyClaimsIssue(s: State, a: Action)
    requires Enabled(s, a) && !a.Observe? && !a.Release?
    ensures After(s, a).issued == s.issued
  {
    hide LockedPath, Recognised, GivenBack, Q.Schedule, Finished, Counts.GivenUp, Counts.Inherited;
    if (a.Begin? || a.ResolveFails?) && s.threads[a.thread].from.Some? { GivenBackFacts(s, s.threads[a.thread].from.value, false, true); }
    if a.Reject? { GivenBackFacts(s, s.threads[a.thread].live.value, false, true); }
    if a.Fail? || a.FailAgain? { GivenBackFacts(s, s.threads[a.thread].ticket, true, false); }
  }

  /** The events from position `n` on, as far as they concern `u`, happen before `until`. */
  predicate AllBefore(actions: seq<Action>, n: nat, u: Rid, until: int) {
    forall i :: n <= i < |actions| ==> Before(actions[i], u, until)
  }

  lemma {:induction false} RunPrefix(s: State, actions: seq<Action>, n: nat)
    requires n <= |actions| && RunOf(s, actions).Some?
    ensures RunOf(s, actions[..n]).Some?
    ensures n < |actions| ==> Enabled(RunOf(s, actions[..n]).value, actions[n])
    decreases |actions|
  {
    hide Enabled, After;
    if n < |actions| {
      var m := |actions| - 1;
      RunPrefix(s, actions[..m], n);
      assert actions[..m][..n] == actions[..n];
    } else {
      assert actions[..n] == actions;
    }
  }

  /**
   A resize is followed by an hour in which the new generation claims no ticket, and an ordinary
   compaction does not shorten the hour: in every run, whatever happens in between.
   */
  lemma {:induction false} NoTicketWhileCooling(s: State, actions: seq<Action>, n: nat, until: int)
    requires Initial(s) && RunOf(s, actions).Some? && n < |actions| && actions[n].HandOver?
    requires RunOf(s, actions[..n]).Some? && Enabled(RunOf(s, actions[..n]).value, actions[n])
    requires var made := RunOf(s, actions[..n]).value;
             CoolsUntil(made, actions[n]) == Some(until) && AllBefore(actions, n, made.unused, until)
    ensures Cool(RunOf(s, actions).value, RunOf(s, actions[..n]).value.unused, until)
    decreases |actions|
  {
    hide Initial, Enabled, After, Cool, CoolsUntil;
    var m := |actions| - 1;
    if n == m {
      HandOverCools(s, actions[..n], actions[n]);
    } else {
      RunPrefix(s, actions, m);
      assert actions[..m][..n] == actions[..n];
      NoTicketWhileCooling(s, actions[..m], n, until);
      StepKeepsCool(RunOf(s, actions[..m]).value, actions[m], RunOf(s, actions[..n]).value.unused, until);
    }
  }

  // ----- the whole way

  /** `s'` is `s` after a step that was possible. */
  ghost predicate Goes(s: State, a: Action, s': State) { Enabled(s, a) && s' == After(s, a) }

  /** Whoever runs has run before. */
  lemma StillUnlocked(s: State, s': State, path: string)
    requires !LockedPath(s, path)
    requires forall u :: u in s'.threads && Running(s'.threads[u]) ==> u in s.threads && s.threads[u] == s'.threads[u]
    ensures !LockedPath(s', path)
  {
    forall u | u in s'.threads
      ensures !Locks(s'.threads[u], path)
    {
    }
  }

  /** A record is registered and, with the write that ripens it, claimed from. */
  lemma Claims(s: State, t: nat, path: string, full: u64, partial: u64, now: int) returns (made: State, claimed: State)
    requires t != WORKER && Has(s, t) && s.threads[t].Idle? && !LockedPath(s, path) && Add(full, partial) >= MIN_SAMPLE
    ensures Goes(s, Register(path), made) && Goes(made, Observe(t, s.unused, full, partial, now), claimed)
    ensures var ticket := Ticket(s.unused, Stats(full, partial), 1);
            claimed == s.(threads := s.threads[t := Claimed(path, ticket)], unused := s.unused + 1,
                          records := s.records[s.unused := Rec(path, NO_COUNTS.(evaluation := 1, state := QUEUED))],
                          issued := s.issued[s.unused := ticket], place := s.place[s.unused := OfThread(t)])
  {
    made := After(s, Register(path));
    StillUnlocked(s, made, path);
    hide LockedPath;
    claimed := After(made, Observe(t, s.unused, full, partial, now));
  }

  /** The ticket goes through the queue to the worker, which locks the path. */
  lemma Reaches(s: State, t: nat, memory: bool) returns (queued: State, taken: State, locked: State)
    requires t != WORKER && Has(s, t) && s.threads[t].Claimed? && Has(s, WORKER) && s.threads[WORKER].Idle?
    requires s.accepting && s.queue == [] && memory && s.threads[t].ticket.source in s.records
    requires !LockedPath(s, s.threads[t].path) && s.records[s.threads[t].ticket.source].path == s.threads[t].path
    ensures var path, k := s.threads[t].path, s.threads[t].ticket;
            && Goes(s, Submit(t, false, memory), queued) && Goes(queued, Take, taken) && Goes(taken, Lock(WORKER, Some(k.source)), locked)
            && locked == s.(threads := s.threads[t := Idle][WORKER := Locked(path, Some(k.source), Some(k))],
                            place := s.place[k.source := OfThread(WORKER)])
  {
    var path, k := s.threads[t].path, s.threads[t].ticket;
    queued := After(s, Submit(t, false, memory));
    assert queued.queue == [Q.Request(path, false, Some(k))];
    taken := After(queued, Take);
    assert taken.queue == [];
    StillUnlocked(s, taken, path);
    hide LockedPath, Q.Schedule;
    locked := After(taken, Lock(WORKER, Some(k.source)));
  }

  /** The compaction acts on it and hands over: the events are spent and the new generation cools down. */
  lemma Served(s: State, r: Rid, k: Ticket, now: int) returns (working: State, last: State)
    requires Has(s, WORKER) && r in s.records && k.source == r && r < s.unused
    requires s.threads[WORKER] == Locked(s.records[r].path, Some(r), Some(k))
    requires s.records[r].counts.state == QUEUED && s.records[r].counts.evaluation == k.evaluation
    ensures Goes(s, Begin(WORKER), working) && Goes(working, HandOver(WORKER, now, false), last)
    ensures last.threads == s.threads[WORKER := Idle] && last.queue == s.queue && last.spent == s.spent.Plus(k.snapshot)
    ensures s.unused in last.records && last.records[s.unused].path == s.records[r].path
    ensures last.records[s.unused].counts == s.records[r].counts.Inherited(true, now) && last.place == s.place - {r}
  {
    hide LockedPath, Sum.Plus, Stats.Sample;
    working := After(s, Begin(WORKER));
    last := After(working, HandOver(WORKER, now, false));
  }

  /** The way of a ticket when nothing comes in between: from the first write on, all events are spent on a resize. */
  lemma EvidenceIsActedOn(s: State, t: nat, path: string, full: u64, partial: u64, now: int, later: int)
    returns (made: State, claimed: State, queued: State, taken: State, locked: State, working: State, last: State)
    requires t != WORKER && Has(s, t) && s.threads[t].Idle? && Has(s, WORKER) && s.threads[WORKER].Idle?
    requires s.accepting && s.queue == [] && !LockedPath(s, path) && Add(full, partial) >= MIN_SAMPLE
    ensures last.spent == s.spent.Plus(Stats(full, partial)) && s.unused !in last.place && last.queue == []
    ensures t in last.threads && last.threads[t].Idle? && WORKER in last.threads && last.threads[WORKER].Idle?
    ensures s.unused + 1 in last.records && last.records[s.unused + 1].path == path
    ensures var counts := last.records[s.unused + 1].counts;
            counts.Cooling(later + COOLDOWN_SECONDS - 1) && !counts.Cooling(later + COOLDOWN_SECONDS)
    ensures Goes(s, Register(path), made) && Goes(made, Observe(t, s.unused, full, partial, now), claimed)
    ensures Goes(claimed, Submit(t, false, true), queued) && Goes(queued, Take, taken) && Goes(taken, Lock(WORKER, Some(s.unused)), locked)
    ensures Goes(locked, Begin(WORKER), working) && Goes(working, HandOver(WORKER, later, false), last)
  {
    made, claimed := Claims(s, t, path, full, partial, now);
    StillUnlocked(s, claimed, path);
    hide LockedPath, Goes, Sum.Plus, Add;
    queued, taken, locked := Reaches(claimed, t, true);
    working, last := Served(locked, s.unused, Ticket(s.unused, Stats(full, partial), 1), later);
  }
}
