/**
 Where the observed events are, over every run of TicketFlow: in the records, in the tickets that
 threads carry, in the tickets that are queued - or halved away, spent, or freed with a record.
 */
module TicketLedger {
  import opened Basics
  import opened Tickets
  import opened TicketFlow
  import Q = CompactQueue

  const ZERO: Sum := Sum(0, 0)

  function Amount(ticket: Option<Ticket>): Stats { if ticket.Some? then ticket.value.snapshot else NO_STATS }

  // ----- sums over maps

  ghost function Total(m: map<nat, Stats>): Sum
    decreases |m|
  {
    if m == map[] then ZERO else var k: nat :| k in m; Total(m - {k}).Plus(m[k])
  }

  lemma {:induction false} TotalDrop(m: map<nat, Stats>, k: nat)
    requires k in m
    ensures Total(m) == Total(m - {k}).Plus(m[k])
    decreases |m|
  {
    var j: nat :| j in m && Total(m) == Total(m - {j}).Plus(m[j]);
    hide Sum.Plus;
    if j == k {
      assert Total(m) == Total(m - {k}).Plus(m[k]);
    } else {
      var rest := m - {j, k};
      assert m - {j} - {k} == rest && m - {k} - {j} == rest;
      TotalDrop(m - {j}, k);
      TotalDrop(m - {k}, j);
      assert Total(m) == Total(rest).Plus(m[k]).Plus(m[j]);
      assert Total(m - {k}) == Total(rest).Plus(m[j]);
      PlusSwaps(Total(rest), m[k], m[j]);
    }
  }

  function StatsOf(records: map<Rid, Rec>): (m: map<nat, Stats>)
    ensures m.Keys == records.Keys && forall r :: r in records ==> m[r] == records[r].counts.stats
  {
    map r | r in records :: records[r].counts.stats
  }

  function TicketsOf(threads: map<nat, Pc>): (m: map<nat, Stats>)
    ensures m.Keys == threads.Keys && forall t :: t in threads ==> m[t] == Amount(Carries(threads[t]))
  {
    map t | t in threads :: Amount(Carries(threads[t]))
  }

  ghost function Own(records: map<Rid, Rec>): Sum { Total(StatsOf(records)) }

  ghost function Carried(threads: map<nat, Pc>): Sum { Total(TicketsOf(threads)) }

  lemma OwnWithout(records: map<Rid, Rec>, r: Rid)
    ensures Own(records) == if r in records then Own(records - {r}).Plus(records[r].counts.stats) else Own(records - {r})
  {
    var m := StatsOf(records);
    hide StatsOf;
    assert StatsOf(records - {r}) == m - {r};
    if r in records { TotalDrop(m, r); } else { assert m - {r} == m; }
  }

  /** A record's counts replaced. */
  lemma OwnSet(records: map<Rid, Rec>, r: Rid, rec: Rec)
    ensures Own(records[r := rec]) == Own(records - {r}).Plus(rec.counts.stats)
  {
    OwnWithout(records[r := rec], r);
    assert records[r := rec] - {r} == records - {r};
  }

  lemma CarriedWithout(threads: map<nat, Pc>, t: nat)
    requires t in threads
    ensures Carried(threads) == Carried(threads - {t}).Plus(Amount(Carries(threads[t])))
  {
    var m := TicketsOf(threads);
    hide TicketsOf, Carries, Amount;
    assert TicketsOf(threads - {t}) == m - {t};
    TotalDrop(m, t);
  }

  /** A thread moved on. */
  lemma CarriedSet(threads: map<nat, Pc>, t: nat, pc: Pc)
    ensures Carried(threads[t := pc]) == Carried(threads - {t}).Plus(Amount(Carries(pc)))
  {
    hide Carries, Amount;
    CarriedWithout(threads[t := pc], t);
    assert threads[t := pc] - {t} == threads - {t};
  }

  // ----- the queue

  lemma NoAmount()
    ensures Amount(None) == NO_STATS && forall sum: Sum :: sum.Plus(NO_STATS) == sum
  {
  }

  function Queued(queue: seq<Q.Request>): Sum {
    if queue == [] then ZERO else Queued(queue[1..]).Plus(Amount(queue[0].adaptive))
  }

  lemma {:induction false} QueuedSame(queue: seq<Q.Request>, now: seq<Q.Request>)
    requires |now| == |queue| && forall i :: 0 <= i < |queue| ==> now[i].adaptive == queue[i].adaptive
    ensures Queued(now) == Queued(queue)
  {
    if queue != [] { QueuedSame(queue[1..], now[1..]); }
  }

  lemma {:induction false} QueuedOneMore(queue: seq<Q.Request>, now: seq<Q.Request>, at: nat)
    requires |now| == |queue| && at < |queue| && queue[at].adaptive.None?
    requires forall i :: 0 <= i < |queue| && i != at ==> now[i].adaptive == queue[i].adaptive
    ensures Queued(now) == Queued(queue).Plus(Amount(now[at].adaptive))
  {
    hide Sum.Plus, Amount;
    NoAmount();
    if at == 0 {
      QueuedSame(queue[1..], now[1..]);
    } else {
      QueuedOneMore(queue[1..], now[1..], at - 1);
      PlusSwaps(Queued(queue[1..]), Amount(now[at].adaptive), Amount(queue[0].adaptive));
    }
  }

  lemma {:induction false} QueuedAppended(queue: seq<Q.Request>, r: Q.Request)
    ensures Queued(queue + [r]) == Queued(queue).Plus(Amount(r.adaptive))
  {
    hide Sum.Plus, Amount;
    if queue != [] {
      QueuedAppended(queue[1..], r);
      assert (queue + [r])[1..] == queue[1..] + [r] && (queue + [r])[0] == queue[0];
      PlusSwaps(Queued(queue[1..]), Amount(r.adaptive), Amount(queue[0].adaptive));
    }
  }

  lemma ScheduleQueues(queue: seq<Q.Request>, path: string, ordinary: bool, ticket: Option<Ticket>, memory: bool)
    requires Q.OnePerPath(queue)
    requires ticket.Some? && QueuedFor(queue, path).Some? ==> QueuedFor(queue, path).value.source != ticket.value.source
    ensures match Q.Schedule(queue, path, ordinary, ticket, memory)
            case Accepted(now, _) => Queued(now) == Queued(queue).Plus(Amount(ticket))
            case Busy(now) => Queued(now) == Queued(queue)
            case NoMemory => true
  {
    Q.ScheduleExtends(queue, path, ordinary, ticket, memory);
    ScheduleTickets(queue, path, ordinary, ticket, memory);
    match Q.Schedule(queue, path, ordinary, ticket, memory)
    case Accepted(now, at) =>
      if at == |queue| {
        QueuedAppended(queue, Q.Request(path, ordinary, ticket));
      } else if ticket.Some? {
        QueuedOneMore(queue, now, at);
      } else {
        QueuedSame(queue, now);
      }
    case Busy(now) => QueuedSame(queue, now);
    case NoMemory =>
  }

  // ----- the balance

  function Tally(own: Sum, carried: Sum, queued: Sum, dropped: Sum, spent: Sum, retired: Sum): Sum {
    Sum(own.full + carried.full + queued.full + dropped.full + spent.full + retired.full,
        own.partial + carried.partial + queued.partial + dropped.partial + spent.partial + retired.partial)
  }

  /** Counts add up in whatever column they are entered. */
  lemma Entered(own: Sum, carried: Sum, queued: Sum, dropped: Sum, spent: Sum, retired: Sum, k: Stats)
    ensures var sum := Tally(own, carried, queued, dropped, spent, retired).Plus(k);
            && Tally(own.Plus(k), carried, queued, dropped, spent, retired) == sum
            && Tally(own, carried.Plus(k), queued, dropped, spent, retired) == sum
            && Tally(own, carried, queued.Plus(k), dropped, spent, retired) == sum
            && Tally(own, carried, queued, dropped.Plus(k), spent, retired) == sum
            && Tally(own, carried, queued, dropped, spent.Plus(k), retired) == sum
            && Tally(own, carried, queued, dropped, spent, retired.Plus(k)) == sum
  {
  }

  lemma PlusSwaps(sum: Sum, a: Stats, b: Stats)
    ensures sum.Plus(a).Plus(b) == sum.Plus(b).Plus(a)
  {
  }

  /** Everything that arrived, by where it is now. */
  ghost function Accounted(s: State): Sum {
    Tally(Own(s.records), Carried(s.threads), Queued(s.queue), s.dropped, s.spent, s.retired)
  }

  lemma OwnAtLeast(records: map<Rid, Rec>, r: Rid)
    requires r in records
    ensures records[r].counts.stats.full <= Own(records).full && records[r].counts.stats.partial <= Own(records).partial
  {
    OwnWithout(records, r);
  }

  lemma OwnSame(records: map<Rid, Rec>, now: map<Rid, Rec>)
    requires now.Keys == records.Keys && forall r :: r in records ==> now[r].counts.stats == records[r].counts.stats
    ensures Own(now) == Own(records)
  {
    assert StatsOf(now) == StatsOf(records);
  }

  // ----- steps of one thread

  /** The books of a step in which thread `t` moves on and the queue stays. */
  lemma ThreadBooks(s: State, s': State, t: nat)
    requires ThreadMoves(s, s', t)
    ensures Queued(s'.queue) == Queued(s.queue)
    ensures Carried(s.threads) == Carried(s.threads - {t}).Plus(Amount(Carries(s.threads[t])))
    ensures Carried(s'.threads) == Carried(s.threads - {t}).Plus(Amount(Carries(s'.threads[t])))
  {
    hide Carries, Amount, Queued;
    CarriedWithout(s.threads, t);
    CarriedSet(s.threads, t, s'.threads[t]);
  }

  lemma CarriesOnAccounts(s: State, s': State, t: nat)
    requires ThreadMoves(s, s', t) && Carries(s'.threads[t]) == Carries(s.threads[t])
    requires s'.records.Keys == s.records.Keys && forall r :: r in s.records ==> s'.records[r].counts.stats == s.records[r].counts.stats
    requires s'.dropped == s.dropped && s'.spent == s.spent && s'.retired == s.retired
    ensures Accounted(s') == Accounted(s)
  {
    hide Carries, Own, Carried, Queued, Amount;
    ThreadBooks(s, s', t);
    OwnSame(s.records, s'.records);
  }

  /** The record of a ticket that is held takes it back, if it still exists. */
  lemma HolderRecognised(s: State, t: nat, inflight: bool)
    requires AwaitInv(s) && Has(s, t) && Carries(s.threads[t]).Some? && (s.threads[t].Working? ==> inflight)
    ensures var k := Carries(s.threads[t]).value; k.source in s.records <==> Recognised(s, k, inflight)
  {
    ThreadHolds(s, t);
    HoldersExpected(s, OfThread(t));
  }

  lemma SurrenderAccounts(s: State, t: nat, evidence: bool, inflight: bool, pc: Pc)
    requires AwaitInv(s) && Has(s, t) && Carries(s.threads[t]).Some? && Carries(pc).None? && Accounted(s).Fits()
    requires s.threads[t].Working? ==> inflight
    ensures Accounted(SetPc(Surrendered(s, Carries(s.threads[t]).value, evidence, inflight), t, pc)) == Accounted(s)
  {
    hide AwaitInv, Carries, Own, Carried, Queued, Recognised;
    var k := Carries(s.threads[t]).value;
    var s' := SetPc(Surrendered(s, k, evidence, inflight), t, pc);
    HolderRecognised(s, t, inflight);
    ThreadBooks(s, s', t);
    if k.source in s.records {
      OwnAtLeast(s.records, k.source);
      OwnWithout(s.records, k.source);
      OwnSet(s.records, k.source, s'.records[k.source]);
    }
  }

  // ----- submissions, and what the worker takes

  /** The books of a step that moves a ticket between thread `t` and the queue, or nothing. */
  lemma QueueBooks(s: State, s': State, t: nat)
    requires Has(s, t) && Has(s', t) && s'.threads == s.threads[t := s'.threads[t]] && s'.records == s.records
    requires s'.dropped == s.dropped && s'.spent == s.spent && s'.retired == s.retired
    requires Queued(s'.queue).Plus(Amount(Carries(s'.threads[t]))) == Queued(s.queue).Plus(Amount(Carries(s.threads[t])))
    ensures Accounted(s') == Accounted(s)
  {
    hide Carries, Amount, Own, Carried, Queued;
    CarriedWithout(s.threads, t);
    CarriedSet(s.threads, t, s'.threads[t]);
  }

  lemma SubmitAccounts(s: State, t: nat, path: string, ticket: Option<Ticket>, ordinary: bool, memory: bool)
    requires PlaceInv(s) && Has(s, t) && Carries(s.threads[t]) == ticket
    ensures Accounted(AfterSubmit(s, t, path, ticket, ordinary, memory)) == Accounted(s)
  {
    var s' := AfterSubmit(s, t, path, ticket, ordinary, memory);
    assert Q.OnePerPath(s.queue) && (ticket.Some? && QueuedFor(s.queue, path).Some? ==> QueuedFor(s.queue, path).value.source != ticket.value.source) by {
      hide QueuedFor, Q.OnePerPath;
      QueueKept(s);
      if ticket.Some? && QueuedFor(s.queue, path).Some? { NotQueuedToo(s, t, path); }
    }
    hide AfterSubmit, PlaceInv, Amount, Queued, Accounted, Q.Schedule, QueuedFor, Q.OnePerPath, Running, Past;
    ScheduleQueues(s.queue, path, ordinary, ticket, memory);
    SubmitShape(s, t, path, ticket, ordinary, memory);
    NoAmount();
    QueueBooks(s, s', t);
  }

  lemma TakeAccounts(s: State)
    requires Has(s, WORKER) && s.threads[WORKER].Idle? && s.queue != []
    ensures Accounted(AfterTake(s)) == Accounted(s)
  {
    hide Accounted, Queued, Amount;
    var s' := AfterTake(s);
    var head := s.queue[0];
    assert s'.threads == s.threads[WORKER := Waiting(head.path, head.adaptive)] && s'.queue == s.queue[1..];
    assert Carries(s'.threads[WORKER]) == head.adaptive && Carries(s.threads[WORKER]) == None;
    TakenQueue(s.queue);
    NoAmount();
    hide AfterTake, Carries;
    assert Queued(s'.queue).Plus(Amount(Carries(s'.threads[WORKER]))) == Queued(s.queue);
    QueueBooks(s, s', WORKER);
  }

  lemma TakenQueue(queue: seq<Q.Request>)
    requires queue != []
    ensures Queued(queue) == Queued(queue[1..]).Plus(Amount(queue[0].adaptive))
  {
  }

  // ----- events observed

  /** The events a step adds. */
  function Seen(a: Action): Stats { if a.Observe? then Stats(a.full, a.partial) else NO_STATS }

  lemma ClaimAccounts(s: State, t: nat, r: Rid, seen: Counts, now: int)
    requires Has(s, t) && s.threads[t].Idle? && r in s.records
    ensures var s', own := ClaimIf(s, t, r, seen, now), Own(s.records - {r}).Plus(seen.stats);
            && Own(s'.records).full + Carried(s'.threads).full == own.full + Carried(s.threads).full
            && Own(s'.records).partial + Carried(s'.threads).partial == own.partial + Carried(s.threads).partial
  {
    hide Own, Carried, Counts.Ripe, Counts.Cooling;
    var s' := ClaimIf(s, t, r, seen, now);
    OwnSet(s.records, r, s'.records[r]);
    CarriedWithout(s.threads, t);
    CarriedSet(s.threads, t, s'.threads[t]);
  }

  /** What a write adds and a cooldown halves away. */
  lemma ObservedStats(c: Counts, full: u64, partial: u64, now: int)
    requires c.stats.full + full <= U64_MAX && c.stats.partial + partial <= U64_MAX
    ensures c.Observed(full, partial, now).stats.full + Halving(c, now).full == c.stats.full + full
    ensures c.Observed(full, partial, now).stats.partial + Halving(c, now).partial == c.stats.partial + partial
  {
  }

  lemma ExpiredStats(c: Counts, now: int)
    ensures c.Expired(now).stats.full + Halving(c, now).full == c.stats.full
    ensures c.Expired(now).stats.partial + Halving(c, now).partial == c.stats.partial
  {
  }

  lemma ObserveAccounts(s: State, a: Action)
    requires a.Observe? && Enabled(s, a) && Accounted(s).Plus(Seen(a)).Fits()
    ensures Accounted(After(s, a)) == Accounted(s).Plus(Seen(a))
  {
    var r, c := a.record, s.records[a.record].counts;
    hide Own, Carried, Queued, LockedPath, Halving, ClaimIf, Counts.Observed;
    OwnAtLeast(s.records, r);
    OwnWithout(s.records, r);
    ObservedStats(c, a.full, a.partial, a.now);
    ClaimAccounts(s, a.thread, r, c.Observed(a.full, a.partial, a.now), a.now);
    ClaimKeepsRest(s, a.thread, r, c.Observed(a.full, a.partial, a.now), a.now);
  }

  lemma ReleaseAccounts(s: State, a: Action)
    requires a.Release? && Enabled(s, a)
    ensures Accounted(After(s, a)) == Accounted(s)
  {
    var r, c := a.record, s.records[a.record].counts;
    hide Own, Carried, Queued, LockedPath, Halving, ClaimIf, Counts.Expired;
    OwnWithout(s.records, r);
    ExpiredStats(c, a.now);
    ClaimAccounts(s, a.thread, r, c.Expired(a.now), a.now);
    ClaimKeepsRest(s, a.thread, r, c.Expired(a.now), a.now);
  }

  lemma ClaimKeepsRest(s: State, t: nat, r: Rid, seen: Counts, now: int)
    requires r in s.records
    ensures var s' := ClaimIf(s, t, r, seen, now);
            s'.queue == s.queue && s'.dropped == s.dropped && s'.spent == s.spent && s'.retired == s.retired
  {
  }

  // ----- hand-overs

  lemma PassedOn(records: map<Rid, Rec>, was: Rid, left: Rec, r: Rid, rec: Rec)
    requires was in records && r !in records && left.counts.stats == NO_STATS && rec.counts.stats == records[was].counts.stats
    ensures Own(records[was := left][r := rec]) == Own(records)
  {
    hide Own;
    OwnWithout(records, was);
    OwnSet(records, was, left);
    OwnAdded(records[was := left], r, rec);
  }

  /** The records of a hand-over keep the counts between them. */
  lemma HandOverRecords(s: State, t: nat, now: int, failed: bool)
    requires UsedIds(s) && Has(s, t) && s.threads[t].Working? && (s.threads[t].was.Some? ==> s.threads[t].was.value in s.records)
    ensures Own(AfterHandOver(s, t, now, failed).records) == Own(s.records)
  {
    var s', was := AfterHandOver(s, t, now, failed), s.threads[t].was;
    HandOverShape(s, t, now, failed);
    assert s.unused !in s.records;
    hide Own, AfterHandOver, UsedIds;
    if was.Some? {
      PassedOn(s.records, was.value, s.records[was.value].(counts := s.records[was.value].counts.GivenUp()), s.unused, s'.records[s.unused]);
    } else {
      OwnAdded(s.records, s.unused, s'.records[s.unused]);
    }
  }

  lemma HandOverAccounts(s: State, t: nat, now: int, failed: bool)
    requires UsedIds(s) && Has(s, t) && s.threads[t].Working? && (s.threads[t].was.Some? ==> s.threads[t].was.value in s.records)
    ensures Accounted(AfterHandOver(s, t, now, failed)) == Accounted(s)
  {
    hide AfterHandOver, Own, Carried, Queued, Finished, UsedIds, Counts.GivenUp, Tally, Sum.Plus, Running, Past;
    var ended := Finished(t, s.threads[t].from, failed);
    HandOverRecords(s, t, now, failed);
    HandOverShape(s, t, now, failed);
    FinishedCarries(t, s.threads[t].from, failed);
    NoAmount();
    CarriedWithout(s.threads, t);
    CarriedSet(s.threads, t, ended);
    Entered(Own(s.records), Carried(s.threads - {t}), Queued(s.queue), s.dropped, s.spent, s.retired, Amount(s.threads[t].live));
  }

  lemma OwnAdded(records: map<Rid, Rec>, r: Rid, rec: Rec)
    requires r !in records
    ensures Own(records[r := rec]) == Own(records).Plus(rec.counts.stats)
  {
    OwnSet(records, r, rec);
    assert records - {r} == records;
  }

  lemma RecordStepAccounts(s: State, a: Action)
    requires UsedIds(s) && Enabled(s, a) && (a.Register? || a.Retire? || a.SetAccepting?)
    ensures Accounted(After(s, a)) == Accounted(s)
  {
    hide Own, Carried, Queued, LockedPath;
    match a
    case Register(path) => OwnAdded(s.records, s.unused, Rec(path, NO_COUNTS));
    case Retire(r) => OwnWithout(s.records, r);
    case SetAccepting(_) =>
  }

  lemma SurrenderStepAccounts(s: State, a: Action)
    requires AwaitInv(s) && Enabled(s, a) && Accounted(s).Fits()
    requires (a.ResolveFails? && s.threads[a.thread].from.Some?) || a.Reject? || a.Fail?
    ensures Accounted(After(s, a)) == Accounted(s)
  {
    var t := a.thread;
    hide AwaitInv, LockedPath, Accounted, Surrendered;
    if a.ResolveFails? {
      SurrenderAccounts(s, t, false, true, Finished(t, s.threads[t].from, true));
    } else if a.Reject? {
      SurrenderAccounts(s, t, false, true, s.threads[t].(live := None));
    } else {
      SurrenderAccounts(s, t, true, false, Idle);
    }
  }

  lemma CarryStepAccounts(s: State, a: Action)
    requires Enabled(s, a) && (a.Lock? || a.LockFails? || a.Check? || a.End? || (a.ResolveFails? && s.threads[a.thread].from.None?))
    ensures Accounted(After(s, a)) == Accounted(s)
  {
    hide LockedPath, Accounted, Surrendered;
    CarriesOnAccounts(s, After(s, a), a.thread);
  }

  lemma FailAgainAccounts(s: State, t: nat)
    requires DeadInv(s) && Enabled(s, FailAgain(t))
    ensures Accounted(After(s, FailAgain(t))) == Accounted(s)
  {
    hide DeadInv, Accounted, Recognised;
    DeadUnrecognised(s, t);
    CarriesOnAccounts(s, After(s, FailAgain(t)), t);
  }

  lemma BeginAccounts(s: State, t: nat)
    requires AwaitInv(s) && Enabled(s, Begin(t)) && Accounted(s).Fits()
    ensures Accounted(AfterBegin(s, t)) == Accounted(s)
  {
    hide AwaitInv, Accounted, Surrendered;
    var pc := s.threads[t];
    if pc.from.None? || (pc.was == Some(pc.from.value.source) && Recognised(s, pc.from.value, false)) {
      CarriesOnAccounts(s, AfterBegin(s, t), t);
    } else {
      SurrenderAccounts(s, t, false, true, Checking(pc.path, pc.was, pc.from));
    }
  }

  lemma QueueStepAccounts(s: State, a: Action)
    requires PlaceInv(s) && Enabled(s, a) && (a.Submit? || a.SubmitPlain? || a.Take?)
    ensures Accounted(After(s, a)) == Accounted(s)
  {
    hide PlaceInv, Accounted, AfterSubmit, AfterTake;
    if a.Submit? {
      SubmitAccounts(s, a.thread, s.threads[a.thread].path, Some(s.threads[a.thread].ticket), a.ordinary, a.memory);
    } else if a.SubmitPlain? {
      SubmitAccounts(s, a.thread, a.path, None, true, a.memory);
    } else {
      TakeAccounts(s);
    }
  }

  lemma RunStepAccounts(s: State, a: Action)
    requires AwaitInv(s) && Enabled(s, a) && (a.Begin? || a.HandOver?) && Accounted(s).Fits()
    ensures Accounted(After(s, a)) == Accounted(s)
  {
    assert UsedIds(s);
    hide AwaitInv, UsedIds, Accounted, AfterBegin, AfterHandOver;
    if a.Begin? { BeginAccounts(s, a.thread); } else { HandOverAccounts(s, a.thread, a.now, a.failed); }
  }

  /** A step loses no event, and counts none twice. */
  lemma StepAccounts(s: State, a: Action)
    requires Inv(s) && Enabled(s, a) && Accounted(s).Plus(Seen(a)).Fits()
    ensures Accounted(After(s, a)) == Accounted(s).Plus(Seen(a))
  {
    assert UsedIds(s);
    NoAmount();
    hide PlaceInv, AwaitInv, LockInv, DeadInv, UsedIds, Accounted, Enabled, After;
    match a
    case Register(_) => RecordStepAccounts(s, a);
    case Retire(_) => RecordStepAccounts(s, a);
    case SetAccepting(_) => RecordStepAccounts(s, a);
    case Observe(_, _, _, _, _) => ObserveAccounts(s, a);
    case Release(_, _, _) => ReleaseAccounts(s, a);
    case Submit(_, _, _) => QueueStepAccounts(s, a);
    case SubmitPlain(_, _, _) => QueueStepAccounts(s, a);
    case Take => QueueStepAccounts(s, a);
    case Begin(_) => RunStepAccounts(s, a);
    case HandOver(_, _, _) => RunStepAccounts(s, a);
    case Lock(_, _) => CarryStepAccounts(s, a);
    case LockFails(_) => CarryStepAccounts(s, a);
    case Check(_) => CarryStepAccounts(s, a);
    case End(_, _) => CarryStepAccounts(s, a);
    case ResolveFails(t) => ResolveFailsAccounts(s, t);
    case Reject(_) => SurrenderStepAccounts(s, a);
    case Fail(_) => SurrenderStepAccounts(s, a);
    case FailAgain(t) => FailAgainAccounts(s, t);
  }

  lemma ResolveFailsAccounts(s: State, t: nat)
    requires AwaitInv(s) && Enabled(s, ResolveFails(t)) && Accounted(s).Fits()
    ensures Accounted(After(s, ResolveFails(t))) == Accounted(s)
  {
    hide AwaitInv, Accounted, After;
    if s.threads[t].from.Some? { SurrenderStepAccounts(s, ResolveFails(t)); } else { CarryStepAccounts(s, ResolveFails(t)); }
  }
}
