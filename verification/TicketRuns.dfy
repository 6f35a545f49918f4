/**
 What holds over every run of the ticket machine: one holder for every ticket a record awaits, no
 event lost or counted twice, and a way back for every ticket that is refused.
 */
module TicketRuns {
  import opened Basics
  import opened Tickets
  import opened TicketFlow
  import opened TicketLedger
  import Q = CompactQueue

  ghost predicate Initial(s: State) {
    && s.records == map[] && s.queue == [] && s.issued == map[] && s.place == map[]
    && (forall t :: t in s.threads ==> s.threads[t].Idle?)
    && s.dropped == ZERO && s.spent == ZERO && s.retired == ZERO
  }

  /** The state after a schedule of steps, if each was possible. */
  ghost function RunOf(s: State, actions: seq<Action>): Option<State> {
    if actions == [] then Some(s)
    else
      var before := RunOf(s, actions[..|actions| - 1]);
      if before.None? || !Enabled(before.value, actions[|actions| - 1]) then None
      else Some(After(before.value, actions[|actions| - 1]))
  }

  /** The events that the writes of a run brought. */
  function EventsOf(actions: seq<Action>): Sum {
    if actions == [] then ZERO else EventsOf(actions[..|actions| - 1]).Plus(Seen(actions[|actions| - 1]))
  }

  // ----- a ticket is what was claimed

  /** Whoever holds a ticket of a record holds the last one claimed from it, unchanged. */
  ghost predicate IssuedInv(s: State) {
    forall p: Place :: HeldAt(s, p).Some? ==>
      HeldAt(s, p).value.source in s.issued && s.issued[HeldAt(s, p).value.source] == HeldAt(s, p).value
  }

  /** What is held at `p` was held before. */
  ghost predicate Brought(s: State, s': State, p: Place) {
    exists q: Place :: HeldAt(s, q) == HeldAt(s', p)
  }

  lemma BroughtKeepsIssued(s: State, s': State)
    requires IssuedInv(s) && s'.issued == s.issued && forall p: Place :: HeldAt(s', p).Some? ==> Brought(s, s', p)
    ensures IssuedInv(s')
  {
    hide HeldAt;
    forall p: Place | HeldAt(s', p).Some?
      ensures HeldAt(s', p).value.source in s'.issued && s'.issued[HeldAt(s', p).value.source] == HeldAt(s', p).value
    {
      var q: Place :| HeldAt(s, q) == HeldAt(s', p);
    }
  }

  /** A thread moves on with what it has, or with nothing. */
  lemma ThreadKeepsIssued(s: State, s': State, t: nat)
    requires IssuedInv(s) && ThreadMoves(s, s', t) && s'.issued == s.issued
    requires Carries(s'.threads[t]).Some? ==> Carries(s'.threads[t]) == Carries(s.threads[t])
    ensures IssuedInv(s')
  {
    HeldAfter(s, s', t);
    ThreadHolds(s, t);
    hide IssuedInv, HeldAt, Carries;
    forall p: Place | HeldAt(s', p).Some?
      ensures Brought(s, s', p)
    {
      assert HeldAt(s, p) == HeldAt(s', p);
    }
    BroughtKeepsIssued(s, s');
  }

  lemma SameKeepsIssued(s: State, s': State)
    requires IssuedInv(s) && s'.threads == s.threads && s'.queue == s.queue && s'.issued == s.issued
    ensures IssuedInv(s')
  {
    hide QueuedFor;
    assert forall p: Place :: HeldAt(s', p) == HeldAt(s, p);
  }

  lemma ClaimKeepsIssued(s: State, t: nat, r: Rid, seen: Counts, now: int)
    requires IssuedInv(s) && Has(s, t) && r in s.records && PlaceInv(ClaimIf(s, t, r, seen, now))
    ensures IssuedInv(ClaimIf(s, t, r, seen, now))
  {
    var s' := ClaimIf(s, t, r, seen, now);
    hide Counts.Ripe, Counts.Cooling, QueuedFor;
    if !seen.Cooling(now) && seen.Ripe() {
      HeldAfter(s, s', t);
      hide HeldAt;
      forall p: Place | HeldAt(s', p).Some?
        ensures HeldAt(s', p).value.source in s'.issued && s'.issued[HeldAt(s', p).value.source] == HeldAt(s', p).value
      {
        assert s'.place[HeldAt(s', p).value.source] == p;
      }
    } else {
      SameKeepsIssued(s, s');
    }
  }

  lemma SubmitKeepsIssued(s: State, t: nat, path: string, ticket: Option<Ticket>, ordinary: bool, memory: bool)
    requires IssuedInv(s) && PlaceInv(s) && Has(s, t) && Carries(s.threads[t]) == ticket
    ensures IssuedInv(AfterSubmit(s, t, path, ticket, ordinary, memory))
  {
    var s' := AfterSubmit(s, t, path, ticket, ordinary, memory);
    hide QueuedFor, PlaceInv, IssuedInv, Q.OnePerPath, QueueAfter, Accepts, AfterSubmit, Past, Running;
    SubmitHolders(s, t, path, ticket, ordinary, memory);
    SubmitShape(s, t, path, ticket, ordinary, memory);
    ThreadHolds(s, t);
    forall p: Place | HeldAt(s', p).Some?
      ensures Brought(s, s', p)
    {
      var q := if p.InQueue? && HeldAt(s', p) != HeldAt(s, p) then OfThread(t) else p;
      assert HeldAt(s, q) == HeldAt(s', p);
    }
    BroughtKeepsIssued(s, s');
  }

  lemma TakeKeepsIssued(s: State)
    requires IssuedInv(s) && PlaceInv(s) && Has(s, WORKER) && s.threads[WORKER].Idle? && s.queue != []
    ensures IssuedInv(AfterTake(s))
  {
    var s' := AfterTake(s);
    QueueKept(s);
    TakeTickets(s.queue);
    assert HeldAt(s, InQueue(s.queue[0].path)) == s.queue[0].adaptive;
    hide QueuedFor, PlaceInv, IssuedInv, Q.OnePerPath;
    forall p: Place | HeldAt(s', p).Some?
      ensures Brought(s, s', p)
    {
      var q := if p == OfThread(WORKER) then InQueue(s.queue[0].path) else p;
      assert HeldAt(s, q) == HeldAt(s', p);
    }
    BroughtKeepsIssued(s, s');
  }

  lemma ClaimStepKeepsIssued(s: State, a: Action)
    requires IssuedInv(s) && Enabled(s, a) && PlaceInv(After(s, a)) && (a.Observe? || a.Release?)
    ensures IssuedInv(After(s, a))
  {
    var c := s.records[a.record].counts;
    var seen := if a.Observe? then c.Observed(a.full, a.partial, a.now) else c.Expired(a.now);
    var claimed := ClaimIf(s, a.thread, a.record, seen, a.now);
    hide IssuedInv, LockedPath, Halving, ClaimIf, Counts.Observed, Counts.Expired;
    assert PlaceInv(claimed) by { hide HeldAt; SamePlaces(After(s, a), claimed); }
    hide PlaceInv;
    ClaimKeepsIssued(s, a.thread, a.record, seen, a.now);
    SameKeepsIssued(claimed, After(s, a));
  }

  lemma SamePlaces(s: State, s': State)
    requires PlaceInv(s) && s == s'.(dropped := s.dropped)
    ensures PlaceInv(s')
  {
    SameHolders(s, s');
  }

  lemma QueueStepKeepsIssued(s: State, a: Action)
    requires IssuedInv(s) && PlaceInv(s) && Enabled(s, a) && (a.Submit? || a.SubmitPlain? || a.Take?)
    ensures IssuedInv(After(s, a))
  {
    hide IssuedInv, PlaceInv, AfterSubmit, AfterTake;
    if a.Submit? {
      SubmitKeepsIssued(s, a.thread, s.threads[a.thread].path, Some(s.threads[a.thread].ticket), a.ordinary, a.memory);
    } else if a.SubmitPlain? {
      SubmitKeepsIssued(s, a.thread, a.path, None, true, a.memory);
    } else {
      TakeKeepsIssued(s);
    }
  }

  lemma ThreadStepKeepsIssued(s: State, a: Action)
    requires IssuedInv(s) && Enabled(s, a)
    requires a.Lock? || a.LockFails? || a.ResolveFails? || a.Check? || a.Reject? || a.End? || a.Fail? || a.FailAgain?
    ensures IssuedInv(After(s, a))
  {
    hide IssuedInv, LockedPath, Recognised, Counts.Restored, Finished;
    if a.ResolveFails? || a.End? { FinishedCarries(a.thread, s.threads[a.thread].from, a.ResolveFails? || a.failed); }
    ThreadKeepsIssued(s, After(s, a), a.thread);
  }

  lemma BeginKeepsIssued(s: State, t: nat)
    requires IssuedInv(s) && Enabled(s, Begin(t))
    ensures IssuedInv(AfterBegin(s, t))
  {
    hide IssuedInv, LockedPath, Recognised, Counts.Restored;
    ThreadKeepsIssued(s, AfterBegin(s, t), t);
  }

  lemma HandOverKeepsIssued(s: State, t: nat, now: int, failed: bool)
    requires IssuedInv(s) && Enabled(s, HandOver(t, now, failed))
    ensures IssuedInv(AfterHandOver(s, t, now, failed))
  {
    hide IssuedInv, LockedPath, AfterHandOver, Finished;
    HandOverShape(s, t, now, failed);
    FinishedCarries(t, s.threads[t].from, failed);
    ThreadKeepsIssued(s, AfterHandOver(s, t, now, failed), t);
  }

  lemma StepKeepsIssued(s: State, a: Action)
    requires IssuedInv(s) && PlaceInv(s) && Enabled(s, a) && PlaceInv(After(s, a))
    ensures IssuedInv(After(s, a))
  {
    if a.Register? || a.Retire? || a.SetAccepting? {
      hide IssuedInv, PlaceInv, LockedPath;
      SameKeepsIssued(s, After(s, a));
    } else if a.Begin? {
      hide IssuedInv, PlaceInv, LockedPath, AfterBegin;
      BeginKeepsIssued(s, a.thread);
    } else if a.HandOver? {
      hide IssuedInv, PlaceInv, LockedPath, AfterHandOver;
      HandOverKeepsIssued(s, a.thread, a.now, a.failed);
    } else {
      hide IssuedInv, PlaceInv, Enabled, After;
      if a.Observe? || a.Release? {
        ClaimStepKeepsIssued(s, a);
      } else if a.Submit? || a.SubmitPlain? || a.Take? {
        QueueStepKeepsIssued(s, a);
      } else {
        ThreadStepKeepsIssued(s, a);
      }
    }
  }

  // ----- over every run

  lemma {:induction false} NothingCarried(m: map<nat, Stats>)
    requires forall k :: k in m ==> m[k] == NO_STATS
    ensures Total(m) == ZERO
    decreases |m|
  {
    NoAmount();
    hide Sum.Plus;
    if m != map[] {
      var k :| k in m;
      TotalDrop(m, k);
      NothingCarried(m - {k});
    }
  }

  lemma NothingQueued(queue: seq<Q.Request>)
    requires queue == []
    ensures Queued(queue) == ZERO
  {
    hide Amount, Sum.Plus;
  }

  lemma NothingTallied(none: Sum)
    requires none.full == 0 && none.partial == 0
    ensures Tally(none, none, none, none, none, none) == none
  {
    Columns(none, none, none, none, none, none);
    hide Tally;
  }

  lemma Columns(own: Sum, carried: Sum, queued: Sum, dropped: Sum, spent: Sum, retired: Sum)
    ensures var sum := Tally(own, carried, queued, dropped, spent, retired);
            && sum.full == own.full + carried.full + queued.full + dropped.full + spent.full + retired.full
            && sum.partial == own.partial + carried.partial + queued.partial + dropped.partial + spent.partial + retired.partial
  {
  }

  lemma IdleCarriesNothing()
    ensures Amount(Carries(Idle)) == NO_STATS
  {
  }

  lemma InitialSums(s: State)
    requires Initial(s)
    ensures Accounted(s) == ZERO
  {
    hide Total, StatsOf, TicketsOf, Queued, Tally, Amount, Carries;
    NothingQueued(s.queue);
    NothingTallied(s.dropped);
    IdleCarriesNothing();
    NothingCarried(TicketsOf(s.threads));
    NothingCarried(StatsOf(s.records));
  }

  lemma NothingHeld(s: State)
    requires Initial(s)
    ensures forall p: Place :: HeldAt(s, p).None?
  {
  }

  lemma InitialPlaces(s: State)
    requires Initial(s)
    ensures PlaceInv(s) && AwaitInv(s) && IssuedInv(s)
  {
    NothingHeld(s);
    hide HeldAt, WorksAt;
  }

  lemma InitialInv(s: State)
    requires Initial(s)
    ensures Inv(s) && IssuedInv(s)
  {
    hide PlaceInv, AwaitInv, IssuedInv;
    InitialPlaces(s);
  }

  lemma {:induction false} RunKeepsInv(s: State, actions: seq<Action>)
    requires Initial(s) && RunOf(s, actions).Some?
    ensures Inv(RunOf(s, actions).value) && IssuedInv(RunOf(s, actions).value)
    decreases |actions|
  {
    hide Initial, PlaceInv, AwaitInv, LockInv, DeadInv, IssuedInv, Enabled, After;
    if actions == [] {
      InitialInv(s);
    } else {
      var n := |actions| - 1;
      RunKeepsInv(s, actions[..n]);
      StepKeepsInv(RunOf(s, actions[..n]).value, actions[n]);
      StepKeepsIssued(RunOf(s, actions[..n]).value, actions[n]);
    }
  }

  /**
   Every event that writes brought is in a record, in one ticket on its way, halved away by a
   cooldown, spent on a resize or freed with its record - exactly once, in whatever way steps of any
   threads interleave, for as long as the total fits the counters.
   */
  lemma {:induction false} EveryEventOnce(s: State, actions: seq<Action>)
    requires Initial(s) && RunOf(s, actions).Some? && EventsOf(actions).Fits()
    ensures Accounted(RunOf(s, actions).value) == EventsOf(actions)
    decreases |actions|
  {
    hide Initial, Inv, Accounted, Enabled, After;
    if actions == [] {
      InitialSums(s);
    } else {
      var n := |actions| - 1;
      RunKeepsInv(s, actions[..n]);
      EveryEventOnce(s, actions[..n]);
      StepAccounts(RunOf(s, actions[..n]).value, actions[n]);
    }
  }

  /** `p` is the one place where a ticket of record `r` is. */
  ghost predicate OnlyHolder(s: State, p: Place, r: Rid) {
    forall q: Place :: HeldAt(s, q).Some? && HeldAt(s, q).value.source == r <==> q == p
  }

  /**
   A record is queued or in flight exactly if its last ticket is held - by one thread or one queued
   request, never two - and in flight exactly if that is a compaction at work under the path's lock.
   */
  lemma OneHolder(s: State, actions: seq<Action>, r: Rid)
    requires Initial(s) && RunOf(s, actions).Some? && r in RunOf(s, actions).value.records
    ensures var now := RunOf(s, actions).value; var c := now.records[r].counts;
            && (c.state == QUEUED || c.state == INFLIGHT <==> exists p :: OnlyHolder(now, p, r))
            && forall p :: OnlyHolder(now, p, r) ==>
                 && r in now.issued && HeldAt(now, p) == Some(now.issued[r]) && now.issued[r].evaluation == c.evaluation
                 && (c.state == INFLIGHT <==> WorksAt(now, p))
                 && (WorksAt(now, p) ==> Locks(now.threads[p.thread], now.records[r].path))
  {
    RunKeepsInv(s, actions);
    var now := RunOf(s, actions).value;
    if r in now.place { PlaceIsOnly(now, r); }
    forall p | OnlyHolder(now, p, r)
      ensures r in now.issued && HeldAt(now, p) == Some(now.issued[r])
      ensures Expected(now, p, now.issued[r]) && r in now.place
      ensures WorksAt(now, p) ==> Locks(now.threads[p.thread], now.records[r].path)
    {
      assert HeldAt(now, p).Some?;
      HoldersExpected(now, p);
      if WorksAt(now, p) { WorksLocked(now, p.thread, r); }
    }
    hide PlaceInv, LockInv, DeadInv, IssuedInv, HeldAt, OnlyHolder;
  }

  lemma PlaceIsOnly(s: State, r: Rid)
    requires PlaceInv(s) && r in s.place
    ensures OnlyHolder(s, s.place[r], r)
  {
    hide HeldAt, Q.OnePerPath;
  }

  lemma WorksLocked(s: State, t: nat, r: Rid)
    requires LockInv(s) && Has(s, t) && s.threads[t].Working? && HeldAt(s, OfThread(t)).Some? && HeldAt(s, OfThread(t)).value.source == r
    requires r in s.records
    ensures Locks(s.threads[t], s.records[r].path)
  {
    assert InOrder(s.records, s.threads[t]);
  }

  // ----- refusals

  /**
   Scheduling never replaces a queued ticket.  A ticket is accepted, and then queued for its path
   itself, exactly if none is queued there and a new request, where one is needed, can be made;
   otherwise the caller has it back.
   */
  lemma SubmitOutcome(s: State, actions: seq<Action>, t: nat, ordinary: bool, memory: bool)
    requires Initial(s) && RunOf(s, actions).Some? && Enabled(RunOf(s, actions).value, Submit(t, ordinary, memory))
    requires RunOf(s, actions).value.accepting
    ensures var now := RunOf(s, actions).value; var next := After(now, Submit(t, ordinary, memory));
            var path, k := now.threads[t].path, now.threads[t].ticket;
            && (forall p :: QueuedFor(now.queue, p).Some? ==> QueuedFor(next.queue, p) == QueuedFor(now.queue, p))
            && if QueuedFor(now.queue, path).None? && (memory || exists i :: 0 <= i < |now.queue| && now.queue[i].path == path)
               then next.threads[t].Idle? && QueuedFor(next.queue, path) == Some(k)
               else next.threads[t] == Failing(k)
  {
    RunKeepsInv(s, actions);
    var now := RunOf(s, actions).value;
    var path, k := now.threads[t].path, now.threads[t].ticket;
    QueueKept(now);
    if QueuedFor(now.queue, path).Some? { NotQueuedToo(now, t, path); }
    ScheduleTickets(now.queue, path, ordinary, Some(k), memory);
    hide PlaceInv, AwaitInv, LockInv, DeadInv, IssuedInv, Q.OnePerPath, LockedPath;
  }

  /** A refused ticket comes back: its record has the counts and the evidence again, and awaits nothing. */
  lemma RefusedComesBack(s: State, actions: seq<Action>, t: nat)
    requires Initial(s) && RunOf(s, actions).Some? && Enabled(RunOf(s, actions).value, Fail(t))
    ensures var now := RunOf(s, actions).value; var next := After(now, Fail(t)); var k := now.threads[t].ticket;
            && (forall p: Place :: HeldAt(next, p).Some? ==> HeldAt(next, p).value.source != k.source)
            && (k.source in now.records ==>
                  && now.records[k.source].counts.state == QUEUED
                  && next.records[k.source].counts == now.records[k.source].counts.Restored(k, true))
  {
    RunKeepsInv(s, actions);
    var now := RunOf(s, actions).value;
    hide PlaceInv, AwaitInv, LockInv, DeadInv, IssuedInv, LockedPath;
    HolderRecognised(now, t, false);
    StepKeepsInv(now, Fail(t));
    Unheld(After(now, Fail(t)), now.threads[t].ticket.source);
  }

  lemma Unheld(s: State, r: Rid)
    requires PlaceInv(s) && r !in s.place
    ensures forall p: Place :: HeldAt(s, p).Some? ==> HeldAt(s, p).value.source != r
  {
    hide HeldAt, Q.OnePerPath;
  }

  /** A caller that reports a compaction as failed after the ticket was settled changes nothing. */
  lemma FailAgainChangesNothing(s: State, actions: seq<Action>, t: nat)
    requires Initial(s) && RunOf(s, actions).Some? && Enabled(RunOf(s, actions).value, FailAgain(t))
    ensures After(RunOf(s, actions).value, FailAgain(t)) == SetPc(RunOf(s, actions).value, t, Idle)
  {
    RunKeepsInv(s, actions);
    hide PlaceInv, AwaitInv, LockInv, DeadInv, IssuedInv, Recognised;
    DeadUnrecognised(RunOf(s, actions).value, t);
  }
}
