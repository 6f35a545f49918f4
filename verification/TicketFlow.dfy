/**
 Adaptive tickets on their way through the program (src/core/compact.c:512-639, 1510-1554,
 1844-1882, 1935-2060, 2319-2460; src/fuse_ops/file.c:1118-1206): records, the threads that claim and
 compact, and the queue between them, as one machine.  A ticket is where its holder is, and nowhere else.
 */
module TicketFlow {
  import opened Basics
  import opened Tickets
  import Q = CompactQueue

  type Rid = nat

  datatype Rec = Rec(path: string, counts: Counts)

  /**
   Where a thread is.  `from` is the ticket a compaction was asked to act on, `ticket` the one it still
   answers for, `was` the record of the active generation.
   */
  datatype Pc =
    | Idle
    | Claimed(path: string, ticket: Ticket)
    | Failing(ticket: Ticket)
    | Returning(ticket: Ticket)
    | Waiting(path: string, from: Option<Ticket>)
    | Locked(path: string, was: Option<Rid>, from: Option<Ticket>)
    | Checking(path: string, was: Option<Rid>, from: Option<Ticket>)
    | Working(path: string, was: Option<Rid>, live: Option<Ticket>, from: Option<Ticket>)

  /** Who holds the ticket of a record. */
  datatype Place = OfThread(thread: nat) | InQueue(path: string)

  /**
   `accepting` says that the worker runs and is not being stopped.  The rest is history: events halved
   away by a cooldown, spent on a resize, freed with their record; the last ticket claimed from a
   record, and who holds it, if anyone.
   */
  datatype State = State(records: map<Rid, Rec>, unused: Rid, threads: map<nat, Pc>, queue: seq<Q.Request>, accepting: bool,
                         dropped: Sum, spent: Sum, retired: Sum, issued: map<Rid, Ticket>, place: map<Rid, Place>)

  const WORKER: nat := 0

  datatype Action =
    | Register(path: string)
    | Observe(thread: nat, record: Rid, full: u64, partial: u64, now: int)
    | Release(thread: nat, record: Rid, now: int)
    | Submit(thread: nat, ordinary: bool, memory: bool)
    | SubmitPlain(thread: nat, path: string, memory: bool)
    | Take
    | Lock(thread: nat, was: Option<Rid>)
    | LockFails(thread: nat)
    | ResolveFails(thread: nat)
    | Begin(thread: nat)
    | Check(thread: nat)
    | Reject(thread: nat)
    | HandOver(thread: nat, now: int, failed: bool)
    | End(thread: nat, failed: bool)
    | Fail(thread: nat)
    | FailAgain(thread: nat)
    | Retire(record: Rid)
    | SetAccepting(accepting: bool)

  /** The ticket a thread answers for. */
  function Carries(pc: Pc): Option<Ticket> {
    match pc
    case Claimed(_, k) => Some(k)
    case Failing(k) => Some(k)
    case Waiting(_, from) => from
    case Locked(_, _, from) => from
    case Working(_, _, live, _) => live
    case _ => None
  }

  predicate Running(pc: Pc) { pc.Locked? || pc.Checking? || pc.Working? }

  /** The thread holds the lock of the path. */
  predicate Locks(pc: Pc, path: string) { Running(pc) && pc.path == path }

  ghost predicate LockedPath(s: State, path: string) {
    exists t :: t in s.threads && Locks(s.threads[t], path)
  }

  predicate Has(s: State, t: nat) { t in s.threads }

  ghost predicate Enabled(s: State, a: Action) {
    match a
    case Register(_) => true
    case Observe(t, r, _, _, _) =>
      t != WORKER && Has(s, t) && s.threads[t].Idle? && r in s.records && !LockedPath(s, s.records[r].path)
    case Release(t, r, _) =>
      t != WORKER && Has(s, t) && s.threads[t].Idle? && r in s.records && !LockedPath(s, s.records[r].path)
    case Submit(t, _, _) => Has(s, t) && s.threads[t].Claimed?
    case SubmitPlain(t, _, _) => t != WORKER && Has(s, t) && s.threads[t].Idle?
    case Take => Has(s, WORKER) && s.threads[WORKER].Idle? && s.queue != []
    case Lock(t, was) =>
      && Has(s, t) && s.threads[t].Waiting? && !LockedPath(s, s.threads[t].path)
      && (was.Some? ==> was.value in s.records && s.records[was.value].path == s.threads[t].path)
    case LockFails(t) => Has(s, t) && s.threads[t].Waiting?
    case ResolveFails(t) => Has(s, t) && s.threads[t].Locked?
    case Begin(t) => Has(s, t) && s.threads[t].Locked?
    case Check(t) => Has(s, t) && s.threads[t].Checking?
    case Reject(t) => Has(s, t) && s.threads[t].Working? && s.threads[t].live.Some?
    case HandOver(t, _, _) => Has(s, t) && s.threads[t].Working? && (s.threads[t].was.Some? ==> s.threads[t].was.value in s.records)
    case End(t, _) => Has(s, t) && s.threads[t].Working? && s.threads[t].live.None?
    case Fail(t) => Has(s, t) && s.threads[t].Failing?
    case FailAgain(t) => Has(s, t) && s.threads[t].Returning?
    case Retire(r) =>
      && r in s.records && s.records[r].counts.state != INFLIGHT
      && forall t :: t in s.threads && Locks(s.threads[t], s.records[r].path) ==> s.threads[t].was != Some(r)
    case SetAccepting(_) => true
  }

  function SetPc(s: State, t: nat, pc: Pc): State { s.(threads := s.threads[t := pc]) }

  function SetCounts(s: State, r: Rid, c: Counts): State
    requires r in s.records
  {
    s.(records := s.records[r := s.records[r].(counts := c)])
  }

  /** What a cooldown that ends halves away. */
  function Halving(c: Counts, now: int): Stats {
    if c.Halves(now) then Stats(c.stats.full - c.stats.full / 2, c.stats.partial - c.stats.partial / 2) else NO_STATS
  }

  /** The record as seen, then the claim if it is ripe. */
  function ClaimIf(s: State, t: nat, r: Rid, seen: Counts, now: int): State
    requires r in s.records
  {
    if !seen.Cooling(now) && seen.Ripe() then
      var ticket := Ticket(r, seen.stats, seen.evaluation + 1);
      SetPc(SetCounts(s, r, seen.Claimed()), t, Claimed(s.records[r].path, ticket))
        .(issued := s.issued[r := ticket], place := s.place[r := OfThread(t)])
    else SetCounts(s, r, seen)
  }

  /** The record that would take a ticket back recognises it. */
  predicate Recognised(s: State, k: Ticket, inflight: bool) {
    && k.source in s.records && s.records[k.source].counts.evaluation == k.evaluation
    && (s.records[k.source].counts.state == QUEUED || (inflight && s.records[k.source].counts.state == INFLIGHT))
  }

  /** `generation_adaptive_schedule_failed` and `adaptive_reject`, on the record. */
  function GivenBack(s: State, k: Ticket, evidence: bool, inflight: bool): State {
    if Recognised(s, k, inflight) then SetCounts(s, k.source, s.records[k.source].counts.Restored(k, evidence)) else s
  }

  /** The same by a holder, which thereby holds the ticket no more. */
  function Surrendered(s: State, k: Ticket, evidence: bool, inflight: bool): State {
    var t := GivenBack(s, k, evidence, inflight);
    t.(place := s.place - {k.source}, retired := if k.source in s.records then s.retired else s.retired.Plus(k.snapshot))
  }

  /** A caller whose compaction failed calls `generation_adaptive_schedule_failed` all the same. */
  function Finished(t: nat, from: Option<Ticket>, failed: bool): Pc {
    if t != WORKER && failed && from.Some? then Returning(from.value) else Idle
  }

  function AfterSubmit(s: State, t: nat, path: string, ticket: Option<Ticket>, ordinary: bool, memory: bool): State {
    if !s.accepting then SetPc(s, t, Waiting(path, ticket))
    else
      match Q.Schedule(s.queue, path, ordinary, ticket, memory)
      case Accepted(queue, _) =>
        var next := SetPc(s, t, Idle).(queue := queue);
        if ticket.Some? then next.(place := s.place[ticket.value.source := InQueue(path)]) else next
      case Busy(queue) => SetPc(s, t, if ticket.Some? then Failing(ticket.value) else Idle).(queue := queue)
      case NoMemory => SetPc(s, t, if ticket.Some? then Failing(ticket.value) else Idle)
  }

  function AfterTake(s: State): State
    requires s.queue != []
  {
    var next := SetPc(s, WORKER, Waiting(s.queue[0].path, s.queue[0].adaptive)).(queue := s.queue[1..]);
    if s.queue[0].adaptive.Some? then next.(place := s.place[s.queue[0].adaptive.value.source := OfThread(WORKER)]) else next
  }

  function AfterBegin(s: State, t: nat): State
    requires Has(s, t) && s.threads[t].Locked?
  {
    var pc := s.threads[t];
    if pc.from.None? then SetPc(s, t, Checking(pc.path, pc.was, None))
    else
      var k := pc.from.value;
      if pc.was == Some(k.source) && Recognised(s, k, false) then
        SetPc(SetCounts(s, k.source, s.records[k.source].counts.(state := INFLIGHT)), t, Working(pc.path, pc.was, pc.from, pc.from))
      else SetPc(Surrendered(s, k, false, true), t, Checking(pc.path, pc.was, pc.from))
  }

  function AfterHandOver(s: State, t: nat, now: int, failed: bool): State
    requires Has(s, t) && s.threads[t].Working? && (s.threads[t].was.Some? ==> s.threads[t].was.value in s.records)
  {
    var pc := s.threads[t];
    var had := if pc.was.Some? then s.records[pc.was.value].counts else NO_COUNTS;
    var left := if pc.was.Some? then SetCounts(s, pc.was.value, had.GivenUp()) else s;
    var next := left.(records := left.records[s.unused := Rec(pc.path, had.Inherited(pc.live.Some?, now))], unused := s.unused + 1);
    var ended := SetPc(next, t, Finished(t, pc.from, failed));
    if pc.live.Some? then ended.(spent := s.spent.Plus(pc.live.value.snapshot), place := s.place - {pc.live.value.source}) else ended
  }

  ghost function After(s: State, a: Action): State
    requires Enabled(s, a)
  {
    match a
    case Register(path) => s.(records := s.records[s.unused := Rec(path, NO_COUNTS)], unused := s.unused + 1)
    case Observe(t, r, full, partial, now) =>
      var c := s.records[r].counts;
      ClaimIf(s, t, r, c.Observed(full, partial, now), now).(dropped := s.dropped.Plus(Halving(c, now)))
    case Release(t, r, now) =>
      var c := s.records[r].counts;
      ClaimIf(s, t, r, c.Expired(now), now).(dropped := s.dropped.Plus(Halving(c, now)))
    case Submit(t, ordinary, memory) => AfterSubmit(s, t, s.threads[t].path, Some(s.threads[t].ticket), ordinary, memory)
    case SubmitPlain(t, path, memory) => AfterSubmit(s, t, path, None, true, memory)
    case Take => AfterTake(s)
    case Lock(t, was) => SetPc(s, t, Locked(s.threads[t].path, was, s.threads[t].from))
    case LockFails(t) => SetPc(s, t, if s.threads[t].from.Some? then Failing(s.threads[t].from.value) else Idle)
    case ResolveFails(t) =>
      var from := s.threads[t].from;
      SetPc(if from.Some? then Surrendered(s, from.value, false, true) else s, t, Finished(t, from, true))
    case Begin(t) => AfterBegin(s, t)
    case Check(t) =>
      var pc := s.threads[t];
      if pc.was.Some? && pc.was.value in s.records && s.records[pc.was.value].counts.state == QUEUED then SetPc(s, t, Idle)
      else SetPc(s, t, Working(pc.path, pc.was, None, pc.from))
    case Reject(t) =>
      var pc := s.threads[t];
      SetPc(Surrendered(s, pc.live.value, false, true), t, pc.(live := None))
    case HandOver(t, now, failed) => AfterHandOver(s, t, now, failed)
    case End(t, failed) => SetPc(s, t, Finished(t, s.threads[t].from, failed))
    case Fail(t) => SetPc(Surrendered(s, s.threads[t].ticket, true, false), t, Idle)
    case FailAgain(t) => SetPc(GivenBack(s, s.threads[t].ticket, true, false), t, Idle)
    case Retire(r) => s.(records := s.records - {r}, retired := s.retired.Plus(s.records[r].counts.stats))
    case SetAccepting(accepting) => s.(accepting := accepting)
  }

  // ----- one holder per ticket

  /** The ticket queued for a path. */
  function QueuedFor(queue: seq<Q.Request>, path: string): Option<Ticket> {
    var found := Q.Find(queue, path, 0);
    if found.Some? then queue[found.value].adaptive else None
  }

  /** The ticket held at a place. */
  function HeldAt(s: State, p: Place): Option<Ticket> {
    match p
    case OfThread(t) => if t in s.threads then Carries(s.threads[t]) else None
    case InQueue(path) => QueuedFor(s.queue, path)
  }

  ghost predicate PlaceInv(s: State) {
    && Q.OnePerPath(s.queue)
    && (forall p: Place :: HeldAt(s, p).Some? ==> HeldAt(s, p).value.source in s.place && s.place[HeldAt(s, p).value.source] == p)
    && (forall r :: r in s.place ==> HeldAt(s, s.place[r]).Some? && HeldAt(s, s.place[r]).value.source == r && r < s.unused)
  }

  predicate WorksAt(s: State, p: Place) { p.OfThread? && p.thread in s.threads && s.threads[p.thread].Working? }

  /** Ticket `k`, held at `p`, is the one its record awaits. */
  predicate Expected(s: State, p: Place, k: Ticket) {
    k.source in s.records ==>
      && s.records[k.source].counts.Awaiting() && s.records[k.source].counts.evaluation == k.evaluation
      && (s.records[k.source].counts.state == INFLIGHT <==> WorksAt(s, p))
  }

  /** A record awaits a ticket exactly when someone holds it, and it is that ticket. */
  ghost predicate AwaitInv(s: State) {
    && (forall r :: r in s.records ==> r < s.unused && (s.records[r].counts.Awaiting() <==> r in s.place))
    && (forall p: Place :: HeldAt(s, p).Some? ==> Expected(s, p, HeldAt(s, p).value))
  }

  /** What a running compaction relies on. */
  predicate InOrder(records: map<Rid, Rec>, pc: Pc) {
    && (Running(pc) && pc.was.Some? ==> pc.was.value in records && records[pc.was.value].path == pc.path)
    && (pc.Working? ==>
          if pc.live.Some? then pc.was == Some(pc.live.value.source) && pc.from == pc.live
          else pc.was.Some? && pc.was.value in records ==> !records[pc.was.value].counts.Awaiting())
  }

  ghost predicate LockInv(s: State) {
    && (forall t, u :: t in s.threads && u in s.threads && t != u && Running(s.threads[t]) ==> !Locks(s.threads[u], s.threads[t].path))
    && (forall t :: t in s.threads ==> InOrder(s.records, s.threads[t]))
  }

  /** The ticket has been dealt with: nobody will recognise it again. */
  predicate Dead(s: State, k: Ticket) {
    && k.source < s.unused
    && (k.source in s.records ==>
          var c := s.records[k.source].counts;
          k.evaluation < c.evaluation || (k.evaluation == c.evaluation && !c.Awaiting()))
  }

  /** The ticket a thread came with, once it does not answer for it any more. */
  function Past(pc: Pc): Option<Ticket> {
    match pc
    case Returning(k) => Some(k)
    case Checking(_, _, from) => from
    case Working(_, _, live, from) => if live.None? then from else None
    case _ => None
  }

  ghost predicate DeadInv(s: State) {
    forall t :: t in s.threads && Past(s.threads[t]).Some? ==> Dead(s, Past(s.threads[t]).value)
  }

  ghost predicate Inv(s: State) { PlaceInv(s) && AwaitInv(s) && LockInv(s) && DeadInv(s) }

  // ----- what the larger steps do

  function QueueAfter(s: State, path: string, ticket: Option<Ticket>, ordinary: bool, memory: bool): seq<Q.Request> {
    if !s.accepting then s.queue
    else
      match Q.Schedule(s.queue, path, ordinary, ticket, memory)
      case Accepted(queue, _) => queue
      case Busy(queue) => queue
      case NoMemory => s.queue
  }

  predicate Accepts(s: State, path: string, ticket: Option<Ticket>, ordinary: bool, memory: bool) {
    s.accepting && Q.Schedule(s.queue, path, ordinary, ticket, memory).Accepted?
  }

  /** A submission moves the caller's ticket into the queue, or leaves it with the caller. */
  lemma SubmitShape(s: State, t: nat, path: string, ticket: Option<Ticket>, ordinary: bool, memory: bool)
    ensures var s' := AfterSubmit(s, t, path, ticket, ordinary, memory);
            && s' == s.(threads := s'.threads, queue := QueueAfter(s, path, ticket, ordinary, memory), place := s'.place)
            && t in s'.threads && s'.threads == s.threads[t := s'.threads[t]]
            && !Running(s'.threads[t]) && Past(s'.threads[t]).None?
            && if Accepts(s, path, ticket, ordinary, memory)
               then s'.threads[t].Idle? && s'.place == if ticket.Some? then s.place[ticket.value.source := InQueue(path)] else s.place
               else Carries(s'.threads[t]) == ticket && s'.place == s.place
  {
    hide Q.Schedule;
  }

  /** A hand-over empties the old record, fills a fresh one, and spends the ticket acted on. */
  lemma HandOverShape(s: State, t: nat, now: int, failed: bool)
    requires Has(s, t) && s.threads[t].Working? && (s.threads[t].was.Some? ==> s.threads[t].was.value in s.records)
    ensures var s', pc := AfterHandOver(s, t, now, failed), s.threads[t];
            && s' == s.(threads := s.threads[t := Finished(t, pc.from, failed)], records := s'.records, unused := s.unused + 1,
                        spent := if pc.live.Some? then s.spent.Plus(pc.live.value.snapshot) else s.spent,
                        place := if pc.live.Some? then s.place - {pc.live.value.source} else s.place)
            && s.unused in s'.records && s'.records[s.unused].path == pc.path && !s'.records[s.unused].counts.Awaiting()
            && s'.records[s.unused].counts.stats == (if pc.was.Some? then s.records[pc.was.value].counts.stats else NO_STATS)
            && s'.records == (if pc.was.Some? then s.records[pc.was.value := s.records[pc.was.value].(counts := s.records[pc.was.value].counts.GivenUp())]
                              else s.records)[s.unused := s'.records[s.unused]]
  {
    hide Finished, Stats.Sample, Add;
  }

  lemma FinishedCarries(t: nat, from: Option<Ticket>, failed: bool)
    ensures Carries(Finished(t, from, failed)).None? && !Running(Finished(t, from, failed))
    ensures Past(Finished(t, from, failed)).Some? ==> Past(Finished(t, from, failed)) == from
  {
  }

  // ----- how tickets move

  /** One thread moves on, the queue stays. */
  ghost predicate ThreadMoves(s: State, s': State, t: nat) {
    t in s.threads && t in s'.threads && s'.threads == s.threads[t := s'.threads[t]] && s'.queue == s.queue
  }

  lemma HeldAfter(s: State, s': State, t: nat)
    requires ThreadMoves(s, s', t)
    ensures forall p :: HeldAt(s', p) == if p == OfThread(t) then Carries(s'.threads[t]) else HeldAt(s, p)
  {
    hide QueuedFor;
  }

  lemma Stays(s: State, s': State)
    requires PlaceInv(s) && Q.OnePerPath(s'.queue) && s'.place == s.place && s.unused <= s'.unused
    requires forall p :: HeldAt(s', p) == HeldAt(s, p)
    ensures PlaceInv(s')
  {
    hide HeldAt, Q.OnePerPath;
  }

  lemma Leaves(s: State, s': State, from: Place, k: Ticket)
    requires PlaceInv(s) && Q.OnePerPath(s'.queue) && HeldAt(s, from) == Some(k) && s.unused <= s'.unused
    requires s'.place == s.place - {k.source}
    requires forall p :: HeldAt(s', p) == if p == from then None else HeldAt(s, p)
    ensures PlaceInv(s')
  {
    hide HeldAt, Q.OnePerPath;
  }

  lemma Enters(s: State, s': State, to: Place, k: Ticket)
    requires PlaceInv(s) && Q.OnePerPath(s'.queue) && HeldAt(s, to).None? && k.source !in s.place && s.unused <= s'.unused
    requires s'.place == s.place[k.source := to] && k.source < s'.unused
    requires forall p :: HeldAt(s', p) == if p == to then Some(k) else HeldAt(s, p)
    ensures PlaceInv(s')
  {
    hide HeldAt, Q.OnePerPath;
  }

  lemma Moves(s: State, s': State, from: Place, to: Place, k: Ticket)
    requires PlaceInv(s) && Q.OnePerPath(s'.queue) && from != to && s.unused <= s'.unused
    requires HeldAt(s, from) == Some(k) && HeldAt(s, to).None? && s'.place == s.place[k.source := to]
    requires forall p :: HeldAt(s', p) == if p == from then None else if p == to then Some(k) else HeldAt(s, p)
    ensures PlaceInv(s')
  {
    hide HeldAt, Q.OnePerPath;
  }

  // ----- the queue

  lemma FindIs(queue: seq<Q.Request>, i: nat)
    requires Q.OnePerPath(queue) && i < |queue|
    ensures Q.Find(queue, queue[i].path, 0) == Some(i)
  {
    var found := Q.Find(queue, queue[i].path, 0);
  }

  lemma SameFind(queue: seq<Q.Request>, now: seq<Q.Request>, path: string, from: nat)
    requires |now| == |queue| && from <= |queue| && forall i :: 0 <= i < |queue| ==> now[i].path == queue[i].path
    ensures Q.Find(now, path, from) == Q.Find(queue, path, from)
    decreases |queue| - from
  {
    if from < |queue| { SameFind(queue, now, path, from + 1); }
  }

  lemma FindAppended(queue: seq<Q.Request>, r: Q.Request, path: string, from: nat)
    requires from <= |queue|
    ensures Q.Find(queue + [r], path, from) ==
            if Q.Find(queue, path, from).Some? then Q.Find(queue, path, from)
            else if r.path == path then Some(|queue|) else None
    decreases |queue| - from
  {
    if from < |queue| {
      FindAppended(queue, r, path, from + 1);
    } else {
      assert (queue + [r])[from] == r;
    }
  }

  /** What scheduling does to the tickets in the queue: it never replaces one by another. */
  lemma ScheduleTickets(queue: seq<Q.Request>, path: string, ordinary: bool, ticket: Option<Ticket>, memory: bool)
    requires Q.OnePerPath(queue)
    requires ticket.Some? && QueuedFor(queue, path).Some? ==> QueuedFor(queue, path).value.source != ticket.value.source
    ensures match Q.Schedule(queue, path, ordinary, ticket, memory)
            case Accepted(now, _) =>
              && Q.OnePerPath(now) && (ticket.Some? ==> QueuedFor(queue, path).None?)
              && forall p :: QueuedFor(now, p) == if p == path && ticket.Some? then ticket else QueuedFor(queue, p)
            case Busy(now) => Q.OnePerPath(now) && forall p :: QueuedFor(now, p) == QueuedFor(queue, p)
            case NoMemory => true
  {
    Q.ScheduleExtends(queue, path, ordinary, ticket, memory);
    var found := Q.Find(queue, path, 0);
    match Q.Schedule(queue, path, ordinary, ticket, memory)
    case Accepted(now, _) =>
      forall p
        ensures QueuedFor(now, p) == if p == path && ticket.Some? then ticket else QueuedFor(queue, p)
      {
        if found.Some? {
          SameFind(queue, now, p, 0);
        } else {
          FindAppended(queue, Q.Request(path, ordinary, ticket), p, 0);
        }
      }
    case Busy(now) =>
      forall p
        ensures QueuedFor(now, p) == QueuedFor(queue, p)
      {
        SameFind(queue, now, p, 0);
      }
    case NoMemory =>
  }

  lemma FindInTail(queue: seq<Q.Request>, path: string, from: nat)
    requires 0 < from <= |queue|
    ensures Q.Find(queue[1..], path, from - 1) ==
            if Q.Find(queue, path, from).Some? then Some(Q.Find(queue, path, from).value - 1) else None
    decreases |queue| - from
  {
    if from < |queue| { FindInTail(queue, path, from + 1); }
  }

  /** Taking the oldest request takes its ticket and no other. */
  lemma TakeTickets(queue: seq<Q.Request>)
    requires Q.OnePerPath(queue) && queue != []
    ensures Q.OnePerPath(queue[1..]) && QueuedFor(queue, queue[0].path) == queue[0].adaptive
    ensures forall p :: QueuedFor(queue[1..], p) == if p == queue[0].path then None else QueuedFor(queue, p)
  {
    FindIs(queue, 0);
    forall p
      ensures QueuedFor(queue[1..], p) == if p == queue[0].path then None else QueuedFor(queue, p)
    {
      FindInTail(queue, p, 1);
    }
  }

  // ----- every step keeps one holder per ticket

  lemma ClaimKeepsPlaces(s: State, t: nat, r: Rid, seen: Counts, now: int)
    requires PlaceInv(s) && AwaitInv(s) && Has(s, t) && s.threads[t].Idle? && r in s.records
    requires seen.Ripe() ==> !s.records[r].counts.Awaiting()
    ensures PlaceInv(ClaimIf(s, t, r, seen, now))
  {
    hide QueuedFor, Q.OnePerPath;
    var s' := ClaimIf(s, t, r, seen, now);
    if !seen.Cooling(now) && seen.Ripe() {
      HeldAfter(s, s', t);
      assert PlaceInv(s) && Q.OnePerPath(s'.queue);
      hide PlaceInv, HeldAt;
      ThreadHolds(s, t);
      Enters(s, s', OfThread(t), Ticket(r, seen.stats, seen.evaluation + 1));
    } else {
      SameHolders(s, s');
    }
  }

  lemma ThreadHolds(s: State, t: nat)
    requires Has(s, t)
    ensures HeldAt(s, OfThread(t)) == Carries(s.threads[t])
  {
  }

  lemma SameHolders(s: State, s': State)
    requires PlaceInv(s) && s'.threads == s.threads && s'.queue == s.queue && s'.place == s.place && s.unused <= s'.unused
    ensures PlaceInv(s')
  {
    hide QueuedFor, Q.OnePerPath;
    assert forall p :: HeldAt(s', p) == HeldAt(s, p);
    Stays(s, s');
  }

  /** A thread moves on with what it has. */
  lemma CarriesOn(s: State, s': State, t: nat)
    requires PlaceInv(s) && ThreadMoves(s, s', t) && s'.place == s.place && s.unused <= s'.unused
    requires Carries(s'.threads[t]) == Carries(s.threads[t])
    ensures PlaceInv(s')
  {
    HeldAfter(s, s', t);
    ThreadHolds(s, t);
    QueueKept(s);
    hide HeldAt, PlaceInv, Q.OnePerPath;
    Stays(s, s');
  }

  lemma QueueKept(s: State)
    requires PlaceInv(s)
    ensures Q.OnePerPath(s.queue)
  {
  }

  /** A thread moves on without the ticket it had. */
  lemma PutsDown(s: State, s': State, t: nat)
    requires PlaceInv(s) && ThreadMoves(s, s', t) && Carries(s.threads[t]).Some? && Carries(s'.threads[t]).None?
    requires s'.place == s.place - {Carries(s.threads[t]).value.source} && s.unused <= s'.unused
    ensures PlaceInv(s')
  {
    HeldAfter(s, s', t);
    ThreadHolds(s, t);
    QueueKept(s);
    hide HeldAt, PlaceInv, Q.OnePerPath;
    Leaves(s, s', OfThread(t), Carries(s.threads[t]).value);
  }

  /** The caller's ticket is the only one of its record. */
  lemma NotQueuedToo(s: State, t: nat, path: string)
    requires PlaceInv(s) && Has(s, t) && Carries(s.threads[t]).Some? && QueuedFor(s.queue, path).Some?
    ensures QueuedFor(s.queue, path).value.source != Carries(s.threads[t]).value.source
  {
    hide QueuedFor, Q.OnePerPath;
    ThreadHolds(s, t);
    assert HeldAt(s, InQueue(path)) == QueuedFor(s.queue, path);
  }

  /** What is held after a submission. */
  lemma SubmitHolders(s: State, t: nat, path: string, ticket: Option<Ticket>, ordinary: bool, memory: bool)
    requires PlaceInv(s) && Has(s, t) && Carries(s.threads[t]) == ticket
    ensures var s' := AfterSubmit(s, t, path, ticket, ordinary, memory);
            var moves := Accepts(s, path, ticket, ordinary, memory) && ticket.Some?;
            && Q.OnePerPath(s'.queue) && (moves ==> QueuedFor(s.queue, path).None?)
            && forall p :: QueuedFor(s'.queue, p) == if moves && p == path then ticket else QueuedFor(s.queue, p)
  {
    hide QueuedFor, Q.OnePerPath, Q.Schedule, AfterSubmit;
    QueueKept(s);
    if ticket.Some? && QueuedFor(s.queue, path).Some? { NotQueuedToo(s, t, path); }
    ScheduleTickets(s.queue, path, ordinary, ticket, memory);
    SubmitShape(s, t, path, ticket, ordinary, memory);
  }

  lemma SubmitKeepsPlaces(s: State, t: nat, path: string, ticket: Option<Ticket>, ordinary: bool, memory: bool)
    requires PlaceInv(s) && Has(s, t) && Carries(s.threads[t]) == ticket
    ensures PlaceInv(AfterSubmit(s, t, path, ticket, ordinary, memory))
  {
    hide QueuedFor, PlaceInv, Q.OnePerPath, QueueAfter, Accepts, AfterSubmit, Running, Past;
    var s' := AfterSubmit(s, t, path, ticket, ordinary, memory);
    SubmitHolders(s, t, path, ticket, ordinary, memory);
    SubmitShape(s, t, path, ticket, ordinary, memory);
    ThreadHolds(s, t);
    if Accepts(s, path, ticket, ordinary, memory) && ticket.Some? {
      MovedToQueue(s, s', t, path);
    } else {
      assert forall p :: HeldAt(s', p) == HeldAt(s, p);
      Stays(s, s');
    }
  }

  lemma MovedToQueue(s: State, s': State, t: nat, path: string)
    requires PlaceInv(s) && Q.OnePerPath(s'.queue) && Has(s, t) && Carries(s.threads[t]).Some?
    requires s'.threads == s.threads[t := Idle] && s'.unused == s.unused && QueuedFor(s.queue, path).None?
    requires s'.place == s.place[Carries(s.threads[t]).value.source := InQueue(path)]
    requires forall p :: QueuedFor(s'.queue, p) == if p == path then Carries(s.threads[t]) else QueuedFor(s.queue, p)
    ensures PlaceInv(s')
  {
    hide QueuedFor, Q.OnePerPath;
    var k := Carries(s.threads[t]).value;
    ThreadHolds(s, t);
    assert HeldAt(s, InQueue(path)).None?;
    forall p
      ensures HeldAt(s', p) == if p == OfThread(t) then None else if p == InQueue(path) then Some(k) else HeldAt(s, p)
    {
    }
    Moves(s, s', OfThread(t), InQueue(path), k);
  }

  lemma TakeKeepsPlaces(s: State)
    requires PlaceInv(s) && Has(s, WORKER) && s.threads[WORKER].Idle? && s.queue != []
    ensures PlaceInv(AfterTake(s))
  {
    var s' := AfterTake(s);
    var path := s.queue[0].path;
    QueueKept(s);
    TakeTickets(s.queue);
    ThreadHolds(s, WORKER);
    assert HeldAt(s, InQueue(path)) == s.queue[0].adaptive;
    hide QueuedFor, PlaceInv, Q.OnePerPath;
    forall p
      ensures HeldAt(s', p) == if p == InQueue(path) then None else if p == OfThread(WORKER) then s.queue[0].adaptive else HeldAt(s, p)
    {
    }
    hide HeldAt;
    if s.queue[0].adaptive.Some? {
      Moves(s, s', InQueue(path), OfThread(WORKER), s.queue[0].adaptive.value);
    } else {
      Stays(s, s');
    }
  }

  lemma RipeNotAwaiting(c: Counts, full: u64, partial: u64, now: int)
    ensures c.Observed(full, partial, now).Ripe() ==> !c.Awaiting()
    ensures c.Expired(now).Ripe() ==> !c.Awaiting()
    ensures c.Observed(full, partial, now).Awaiting() == c.Awaiting() == c.Expired(now).Awaiting()
    ensures c.Observed(full, partial, now).evaluation == c.evaluation == c.Expired(now).evaluation
    ensures c.Awaiting() ==> c.Observed(full, partial, now).state == c.state == c.Expired(now).state
  {
    hide Add, Stats.Sample;
  }

  lemma StepKeepsPlaces(s: State, a: Action)
    requires PlaceInv(s) && AwaitInv(s) && LockInv(s) && Enabled(s, a)
    ensures PlaceInv(After(s, a))
  {
    hide PlaceInv, AwaitInv, LockInv, QueuedFor, Q.OnePerPath, LockedPath, AfterBegin, AfterHandOver, AfterSubmit, AfterTake;
    match a
    case Register(_) => SameHolders(s, After(s, a));
    case Observe(t, r, full, partial, now) =>
      var seen := s.records[r].counts.Observed(full, partial, now);
      RipeNotAwaiting(s.records[r].counts, full, partial, now);
      ClaimKeepsPlaces(s, t, r, seen, now);
      SameHolders(ClaimIf(s, t, r, seen, now), After(s, a));
    case Release(t, r, now) =>
      var seen := s.records[r].counts.Expired(now);
      RipeNotAwaiting(s.records[r].counts, 0, 0, now);
      ClaimKeepsPlaces(s, t, r, seen, now);
      SameHolders(ClaimIf(s, t, r, seen, now), After(s, a));
    case Submit(t, ordinary, memory) => SubmitKeepsPlaces(s, t, s.threads[t].path, Some(s.threads[t].ticket), ordinary, memory);
    case SubmitPlain(t, path, memory) => SubmitKeepsPlaces(s, t, path, None, true, memory);
    case Take => TakeKeepsPlaces(s);
    case Retire(_) => SameHolders(s, After(s, a));
    case SetAccepting(_) => SameHolders(s, After(s, a));
    case Begin(t) => BeginKeepsPlaces(s, t);
    case HandOver(t, now, failed) => HandOverKeepsPlaces(s, t, now, failed);
    case _ => ThreadStepKeepsPlaces(s, a);
  }

  lemma BeginKeepsPlaces(s: State, t: nat)
    requires PlaceInv(s) && Enabled(s, Begin(t))
    ensures PlaceInv(AfterBegin(s, t))
  {
    hide PlaceInv, LockedPath, Counts.Restored;
    if Carries(AfterBegin(s, t).threads[t]) == Carries(s.threads[t]) {
      CarriesOn(s, AfterBegin(s, t), t);
    } else {
      PutsDown(s, AfterBegin(s, t), t);
    }
  }

  lemma HandOverKeepsPlaces(s: State, t: nat, now: int, failed: bool)
    requires PlaceInv(s) && Has(s, t) && s.threads[t].Working? && (s.threads[t].was.Some? ==> s.threads[t].was.value in s.records)
    ensures PlaceInv(AfterHandOver(s, t, now, failed))
  {
    hide PlaceInv, AfterHandOver, Finished, Counts.GivenUp;
    HandOverShape(s, t, now, failed);
    FinishedCarries(t, s.threads[t].from, failed);
    if s.threads[t].live.None? {
      CarriesOn(s, AfterHandOver(s, t, now, failed), t);
    } else {
      PutsDown(s, AfterHandOver(s, t, now, failed), t);
    }
  }

  lemma ThreadStepKeepsPlaces(s: State, a: Action)
    requires PlaceInv(s) && Enabled(s, a)
    requires a.Lock? || a.LockFails? || a.ResolveFails? || a.Check? || a.Reject? || a.End? || a.Fail? || a.FailAgain?
    ensures PlaceInv(After(s, a))
  {
    var t := a.thread;
    hide PlaceInv, LockedPath, Counts.Restored, Recognised, Finished;
    if a.ResolveFails? || a.End? { FinishedCarries(t, s.threads[t].from, a.ResolveFails? || a.failed); }
    if Carries(After(s, a).threads[t]) == Carries(s.threads[t]) {
      CarriesOn(s, After(s, a), t);
    } else {
      PutsDown(s, After(s, a), t);
    }
  }

  // ----- every step keeps records, locks and past tickets in order

  /** Records keep their path, their evaluation number grows, and only a new evaluation awaits anew. */
  ghost predicate Progress(s: State, s': State) {
    && s.unused <= s'.unused
    && forall r :: r in s'.records ==>
         if r in s.records then
           && s'.records[r].path == s.records[r].path
           && s.records[r].counts.evaluation <= s'.records[r].counts.evaluation
           && (s'.records[r].counts.Awaiting() && !s.records[r].counts.Awaiting() ==>
                 s.records[r].counts.evaluation < s'.records[r].counts.evaluation)
         else s.unused <= r < s'.unused && !s'.records[r].counts.Awaiting()
  }

  lemma ClaimProgress(s: State, t: nat, r: Rid, seen: Counts, now: int)
    requires r in s.records && seen.evaluation == s.records[r].counts.evaluation && seen.Awaiting() == s.records[r].counts.Awaiting()
    ensures Progress(s, ClaimIf(s, t, r, seen, now))
  {
    hide Counts.Ripe, Counts.Cooling;
  }

  lemma RecordStepProgress(s: State, a: Action)
    requires UsedIds(s) && Enabled(s, a) && (a.Register? || a.Observe? || a.Release? || a.Retire? || a.SetAccepting?)
    ensures Progress(s, After(s, a))
  {
    hide LockedPath, ClaimIf, Counts.Observed, Counts.Expired;
    if a.Observe? || a.Release? {
      hide Counts.Awaiting;
      var c := s.records[a.record].counts;
      RipeNotAwaiting(c, if a.Observe? then a.full else 0, if a.Observe? then a.partial else 0, a.now);
      ClaimProgress(s, a.thread, a.record, if a.Observe? then c.Observed(a.full, a.partial, a.now) else c.Expired(a.now), a.now);
    }
  }

  ghost predicate UsedIds(s: State) { forall r :: r in s.records ==> r < s.unused }

  /** Nothing awaits that did not await before, and no record goes. */
  ghost predicate Quiet(s: State, s': State) {
    forall r :: r in s.records ==>
      r in s'.records && (s'.records[r].counts.Awaiting() ==> s.records[r].counts.Awaiting())
  }

  /** A step of the queue leaves the records alone, and nobody runs or is done because of it. */
  lemma QueueStepShape(s: State, a: Action)
    requires Enabled(s, a) && (a.Submit? || a.SubmitPlain? || a.Take?)
    ensures var s' := After(s, a); var t := if a.Take? then WORKER else a.thread;
            && s'.records == s.records && s'.unused == s.unused && Has(s, t) && Has(s', t)
            && s'.threads == s.threads[t := s'.threads[t]] && !Running(s'.threads[t]) && Past(s'.threads[t]).None?
  {
    hide LockedPath, AfterSubmit, QueueAfter, Accepts;
    if a.Submit? {
      SubmitShape(s, a.thread, s.threads[a.thread].path, Some(s.threads[a.thread].ticket), a.ordinary, a.memory);
    } else if a.SubmitPlain? {
      SubmitShape(s, a.thread, a.path, None, true, a.memory);
    }
  }

  lemma QueueStepProgress(s: State, a: Action)
    requires Enabled(s, a) && (a.Submit? || a.SubmitPlain? || a.Take?)
    ensures Progress(s, After(s, a)) && Quiet(s, After(s, a)) && After(s, a).records == s.records
  {
    QueueStepShape(s, a);
    hide Enabled, After, Running, Past;
  }

  /** Giving a ticket back touches its record only, and ends the wait. */
  lemma GivenBackFacts(s: State, k: Ticket, evidence: bool, inflight: bool)
    ensures var t := GivenBack(s, k, evidence, inflight);
            && t == s.(records := t.records) && t.records.Keys == s.records.Keys
            && (forall r :: r in s.records && r != k.source ==> t.records[r] == s.records[r])
            && (k.source in s.records ==>
                  && t.records[k.source].path == s.records[k.source].path
                  && t.records[k.source].counts.evaluation == s.records[k.source].counts.evaluation
                  && (t.records[k.source].counts.Awaiting() <==>
                        s.records[k.source].counts.Awaiting() && !Recognised(s, k, inflight))
                  && (!Recognised(s, k, inflight) ==> t.records[k.source] == s.records[k.source]))
  {
    hide Stats.Plus, Add, Stats.Sample;
  }

  lemma ThreadStepProgress(s: State, a: Action)
    requires Enabled(s, a)
    requires a.Lock? || a.LockFails? || a.ResolveFails? || a.Check? || a.Reject? || a.End? || a.Fail? || a.FailAgain?
    ensures Progress(s, After(s, a)) && Quiet(s, After(s, a))
  {
    hide LockedPath, GivenBack, Recognised, Finished;
    if a.ResolveFails? && s.threads[a.thread].from.Some? { GivenBackFacts(s, s.threads[a.thread].from.value, false, true); }
    if a.Reject? { GivenBackFacts(s, s.threads[a.thread].live.value, false, true); }
    if a.Fail? || a.FailAgain? { GivenBackFacts(s, s.threads[a.thread].ticket, true, false); }
  }

  lemma BeginProgress(s: State, t: nat)
    requires Enabled(s, Begin(t))
    ensures Progress(s, AfterBegin(s, t)) && Quiet(s, AfterBegin(s, t))
  {
    hide LockedPath, GivenBack;
    if s.threads[t].from.Some? { GivenBackFacts(s, s.threads[t].from.value, false, true); }
  }

  lemma HandOverProgress(s: State, t: nat, now: int, failed: bool)
    requires UsedIds(s) && Has(s, t) && s.threads[t].Working? && (s.threads[t].was.Some? ==> s.threads[t].was.value in s.records)
    ensures Progress(s, AfterHandOver(s, t, now, failed)) && Quiet(s, AfterHandOver(s, t, now, failed))
  {
    hide AfterHandOver, Finished;
    HandOverShape(s, t, now, failed);
  }

  lemma StepProgress(s: State, a: Action)
    requires AwaitInv(s) && Enabled(s, a)
    ensures Progress(s, After(s, a))
    ensures !a.Register? && !a.Observe? && !a.Release? && !a.Retire? && !a.SetAccepting? ==> Quiet(s, After(s, a))
  {
    assert UsedIds(s);
    hide AwaitInv, UsedIds, Enabled, Progress, Quiet, AfterBegin, AfterHandOver;
    match a
    case Register(_) => RecordStepProgress(s, a);
    case Observe(_, _, _, _, _) => RecordStepProgress(s, a);
    case Release(_, _, _) => RecordStepProgress(s, a);
    case Retire(_) => RecordStepProgress(s, a);
    case SetAccepting(_) => RecordStepProgress(s, a);
    case Submit(_, _, _) => QueueStepProgress(s, a);
    case SubmitPlain(_, _, _) => QueueStepProgress(s, a);
    case Take => QueueStepProgress(s, a);
    case Begin(t) => BeginProgress(s, t);
    case HandOver(t, now, failed) => HandOverProgress(s, t, now, failed);
    case _ => ThreadStepProgress(s, a);
  }

  // ----- records and holders

  lemma HoldersExpected(s: State, p: Place)
    requires AwaitInv(s) && HeldAt(s, p).Some?
    ensures Expected(s, p, HeldAt(s, p).value)
  {
  }

  /** Record `r` is as before, or settled with what the moving thread now carries. */
  predicate Settled(s: State, s': State, t: nat, r: Rid) {
    || (r in s.records && r in s'.records && s'.records[r].counts == s.records[r].counts && (r in s'.place <==> r in s.place)
        && (t in s'.threads && Carries(s'.threads[t]).Some? ==> Carries(s'.threads[t]).value.source != r))
    || (r in s'.records && !s'.records[r].counts.Awaiting() && r !in s'.place)
    || (r in s'.records && r in s'.place && t in s'.threads && Carries(s'.threads[t]).Some? && Carries(s'.threads[t]).value.source == r
        && s'.records[r].counts.Awaiting() && Expected(s', OfThread(t), Carries(s'.threads[t]).value))
  }

  lemma ThreadAwaits(s: State, s': State, t: nat)
    requires PlaceInv(s) && PlaceInv(s') && AwaitInv(s) && ThreadMoves(s, s', t)
    requires forall r :: r in s'.records ==> r < s'.unused && Settled(s, s', t, r)
    ensures AwaitInv(s')
  {
    HeldAfter(s, s', t);
    forall p: Place | HeldAt(s', p).Some?
      ensures Expected(s', p, HeldAt(s', p).value)
    {
      var k := HeldAt(s', p).value;
      assert k.source in s'.place && s'.place[k.source] == p;
      if k.source in s'.records {
        assert Settled(s, s', t, k.source);
        if p == OfThread(t) {
          ThreadHolds(s', t);
        } else {
          ThreadHolds(s', t);
          assert HeldAt(s', OfThread(t)) == Carries(s'.threads[t]);
          hide PlaceInv, Settled;
          ElsewhereExpected(s, s', t, p, k);
        }
      }
    }
    SettledAwaits(s, s', t);
  }

  lemma SettledAwaits(s: State, s': State, t: nat)
    requires AwaitInv(s) && forall r :: r in s'.records ==> r < s'.unused && Settled(s, s', t, r)
    ensures forall r :: r in s'.records ==> r < s'.unused && (s'.records[r].counts.Awaiting() <==> r in s'.place)
  {
    hide HeldAt;
  }

  lemma ElsewhereExpected(s: State, s': State, t: nat, p: Place, k: Ticket)
    requires AwaitInv(s) && ThreadMoves(s, s', t) && p != OfThread(t) && HeldAt(s, p) == Some(k) == HeldAt(s', p)
    requires k.source in s'.records && k.source in s'.place && s'.place[k.source] == p && Settled(s, s', t, k.source)
    requires Carries(s'.threads[t]).Some? ==> Carries(s'.threads[t]).value.source != k.source
    ensures Expected(s', p, k)
  {
    HoldersExpected(s, p);
    hide HeldAt, AwaitInv;
  }

  /** A thread moves on with what it has, and no record changes. */
  lemma CarriesOnAwaits(s: State, s': State, t: nat)
    requires PlaceInv(s) && PlaceInv(s') && AwaitInv(s) && ThreadMoves(s, s', t)
    requires s'.records == s.records && s'.place == s.place && s'.unused == s.unused
    requires Carries(s'.threads[t]) == Carries(s.threads[t]) && (Carries(s.threads[t]).Some? ==> !s.threads[t].Working? && !s'.threads[t].Working?)
    ensures AwaitInv(s')
  {
    ThreadHolds(s, t);
    if Carries(s.threads[t]).Some? {
      HoldersExpected(s, OfThread(t));
      assert Carries(s.threads[t]).value.source in s.place;
    }
    forall r | r in s'.records
      ensures r < s'.unused && Settled(s, s', t, r)
    {
    }
    hide PlaceInv, AwaitInv, Settled;
    ThreadAwaits(s, s', t);
  }

  /** A thread gives its ticket up, and the record does not wait for it any more. */
  lemma PutsDownAwaits(s: State, s': State, t: nat)
    requires PlaceInv(s) && PlaceInv(s') && AwaitInv(s) && ThreadMoves(s, s', t)
    requires Carries(s.threads[t]).Some? && Carries(s'.threads[t]).None?
    requires s'.place == s.place - {Carries(s.threads[t]).value.source}
    requires var r0 := Carries(s.threads[t]).value.source;
             forall r :: r in s'.records ==>
               && r < s'.unused
               && (r == r0 || r !in s.records ==> !s'.records[r].counts.Awaiting())
               && (r != r0 && r in s.records ==>
                     s'.records[r].counts == s.records[r].counts
                     || (!s'.records[r].counts.Awaiting() && !s.records[r].counts.Awaiting()))
    requires forall r :: r in s.place ==> r < s.unused
    requires forall r :: r in s'.records && r !in s.records ==> s.unused <= r
    ensures AwaitInv(s')
  {
    forall r | r in s'.records
      ensures r < s'.unused && Settled(s, s', t, r)
    {
    }
    hide PlaceInv, AwaitInv, Settled;
    ThreadAwaits(s, s', t);
  }

  /** The holder's record takes its ticket back. */
  lemma SurrenderEndsWait(s: State, t: nat, evidence: bool, inflight: bool)
    requires PlaceInv(s) && AwaitInv(s) && Has(s, t) && Carries(s.threads[t]).Some?
    requires s.threads[t].Working? ==> inflight
    ensures var k := Carries(s.threads[t]).value; var g := GivenBack(s, k, evidence, inflight);
            k.source in g.records ==> !g.records[k.source].counts.Awaiting()
  {
    ThreadHolds(s, t);
    HoldersExpected(s, OfThread(t));
    hide PlaceInv, AwaitInv, Counts.Restored;
    GivenBackFacts(s, Carries(s.threads[t]).value, evidence, inflight);
  }

  lemma PlacesUsed(s: State)
    requires PlaceInv(s)
    ensures forall r :: r in s.place ==> r < s.unused
  {
  }

  lemma SurrenderAwaits(s: State, t: nat, evidence: bool, inflight: bool, pc: Pc)
    requires PlaceInv(s) && AwaitInv(s) && Has(s, t) && Carries(s.threads[t]).Some? && Carries(pc).None?
    requires s.threads[t].Working? ==> inflight
    requires PlaceInv(SetPc(Surrendered(s, Carries(s.threads[t]).value, evidence, inflight), t, pc))
    ensures AwaitInv(SetPc(Surrendered(s, Carries(s.threads[t]).value, evidence, inflight), t, pc))
  {
    var k := Carries(s.threads[t]).value;
    var s' := SetPc(Surrendered(s, k, evidence, inflight), t, pc);
    SurrenderEndsWait(s, t, evidence, inflight);
    GivenBackFacts(s, k, evidence, inflight);
    PlacesUsed(s);
    assert forall r :: r in s.records ==> r < s.unused;
    hide PlaceInv, AwaitInv, GivenBack, Recognised;
    PutsDownAwaits(s, s', t);
  }

  lemma ThreadStepKeepsAwaiting(s: State, a: Action)
    requires PlaceInv(s) && AwaitInv(s) && LockInv(s) && Enabled(s, a) && PlaceInv(After(s, a))
    requires a.Lock? || a.LockFails? || a.ResolveFails? || a.Check? || a.Reject? || a.End? || a.Fail?
    ensures AwaitInv(After(s, a))
  {
    hide PlaceInv, AwaitInv, LockInv, Surrendered, LockedPath;
    var t, s' := a.thread, After(s, a);
    match a
    case ResolveFails(_) =>
      if s.threads[t].from.Some? {
        SurrenderAwaits(s, t, false, true, Finished(t, s.threads[t].from, true));
      } else {
        CarriesOnAwaits(s, s', t);
      }
    case Reject(_) => SurrenderAwaits(s, t, false, true, s.threads[t].(live := None));
    case Fail(_) => SurrenderAwaits(s, t, true, false, Idle);
    case _ => CarriesOnAwaits(s, s', t);
  }

  lemma BeginAwaits(s: State, t: nat)
    requires PlaceInv(s) && AwaitInv(s) && Enabled(s, Begin(t)) && PlaceInv(AfterBegin(s, t))
    ensures AwaitInv(AfterBegin(s, t))
  {
    var s', pc := AfterBegin(s, t), s.threads[t];
    if pc.from.None? {
      hide PlaceInv, AwaitInv;
      CarriesOnAwaits(s, s', t);
    } else if pc.was == Some(pc.from.value.source) && Recognised(s, pc.from.value, false) {
      var k := pc.from.value;
      ThreadHolds(s, t);
      HoldersExpected(s, OfThread(t));
      assert k.source in s.place;
      forall r | r in s'.records
        ensures r < s'.unused && Settled(s, s', t, r)
      {
      }
      hide PlaceInv, AwaitInv, Settled;
      ThreadAwaits(s, s', t);
    } else {
      hide PlaceInv, AwaitInv, Surrendered;
      SurrenderAwaits(s, t, false, true, Checking(pc.path, pc.was, pc.from));
    }
  }

  lemma SpentAwaits(s: State, t: nat, now: int, failed: bool)
    requires PlaceInv(s) && AwaitInv(s) && UsedIds(s) && Has(s, t) && s.threads[t].Working? && s.threads[t].live.Some?
    requires s.threads[t].was == Some(s.threads[t].live.value.source) && s.threads[t].was.value in s.records
    requires PlaceInv(AfterHandOver(s, t, now, failed))
    ensures AwaitInv(AfterHandOver(s, t, now, failed))
  {
    PlacesUsed(s);
    hide PlaceInv, AwaitInv, AfterHandOver, Finished, Past, Running;
    HandOverShape(s, t, now, failed);
    FinishedCarries(t, s.threads[t].from, failed);
    PutsDownAwaits(s, AfterHandOver(s, t, now, failed), t);
  }

  lemma HandOverAwaits(s: State, t: nat, now: int, failed: bool)
    requires PlaceInv(s) && AwaitInv(s) && LockInv(s) && Enabled(s, HandOver(t, now, failed)) && PlaceInv(AfterHandOver(s, t, now, failed))
    ensures AwaitInv(AfterHandOver(s, t, now, failed))
  {
    var s', pc := AfterHandOver(s, t, now, failed), s.threads[t];
    PlacesUsed(s);
    assert InOrder(s.records, pc) && UsedIds(s);
    hide LockInv, PlaceInv, AwaitInv, LockedPath, AfterHandOver, Finished, Past;
    if pc.live.Some? {
      SpentAwaits(s, t, now, failed);
    } else {
      HandOverShape(s, t, now, failed);
      FinishedCarries(t, pc.from, failed);
      forall r | r in s'.records
        ensures r < s'.unused && Settled(s, s', t, r)
      {
        if r in s.records { AwaitedHeld(s, r); }
      }
      hide Settled;
      ThreadAwaits(s, s', t);
    }
  }

  lemma AwaitedHeld(s: State, r: Rid)
    requires AwaitInv(s) && r in s.records
    ensures s.records[r].counts.Awaiting() <==> r in s.place
  {
  }

  /** A ticket held in `s'` was held in `s` by a holder of the same kind. */
  ghost predicate Comes(s: State, s': State, p: Place) {
    exists q: Place :: HeldAt(s, q) == HeldAt(s', p) && WorksAt(s, q) == WorksAt(s', p)
  }

  lemma HoldersKept(s: State, s': State)
    requires AwaitInv(s) && s'.records == s.records && s'.unused == s.unused && s'.place.Keys == s.place.Keys
    requires forall p: Place :: HeldAt(s', p).Some? ==> Comes(s, s', p)
    ensures AwaitInv(s')
  {
    forall p: Place | HeldAt(s', p).Some?
      ensures Expected(s', p, HeldAt(s', p).value)
    {
      var q: Place :| HeldAt(s, q) == HeldAt(s', p) && WorksAt(s, q) == WorksAt(s', p);
      HoldersExpected(s, q);
    }
    hide HeldAt;
  }

  lemma SubmitAwaits(s: State, t: nat, path: string, ticket: Option<Ticket>, ordinary: bool, memory: bool)
    requires PlaceInv(s) && AwaitInv(s) && Has(s, t) && Carries(s.threads[t]) == ticket && !s.threads[t].Working?
    ensures AwaitInv(AfterSubmit(s, t, path, ticket, ordinary, memory))
  {
    var s' := AfterSubmit(s, t, path, ticket, ordinary, memory);
    assert ticket.Some? ==> ticket.value.source in s.place by { ThreadHolds(s, t); }
    hide QueuedFor, PlaceInv, AwaitInv, Q.OnePerPath, QueueAfter, Accepts, AfterSubmit, Past;
    SubmitHolders(s, t, path, ticket, ordinary, memory);
    SubmitShape(s, t, path, ticket, ordinary, memory);
    ThreadHolds(s, t);
    assert s'.place.Keys == s.place.Keys;
    forall p: Place | HeldAt(s', p).Some?
      ensures Comes(s, s', p)
    {
      var q := if p.InQueue? && HeldAt(s', p) != HeldAt(s, p) then OfThread(t) else p;
      assert HeldAt(s, q) == HeldAt(s', p) && WorksAt(s, q) == WorksAt(s', p);
    }
    HoldersKept(s, s');
  }

  lemma TakeAwaits(s: State)
    requires PlaceInv(s) && AwaitInv(s) && Has(s, WORKER) && s.threads[WORKER].Idle? && s.queue != []
    ensures AwaitInv(AfterTake(s))
  {
    var s' := AfterTake(s);
    var path := s.queue[0].path;
    QueueKept(s);
    TakeTickets(s.queue);
    ThreadHolds(s, WORKER);
    assert HeldAt(s, InQueue(path)) == s.queue[0].adaptive;
    assert s'.place.Keys == s.place.Keys;
    hide QueuedFor, PlaceInv, AwaitInv, Q.OnePerPath;
    forall p: Place | HeldAt(s', p).Some?
      ensures Comes(s, s', p)
    {
      var q := if p == OfThread(WORKER) then InQueue(path) else p;
      assert HeldAt(s, q) == HeldAt(s', p) && WorksAt(s, q) == WorksAt(s', p);
    }
    HoldersKept(s, s');
  }

  /** Counting changes no holder, and an awaiting record stays so. */
  lemma CountAwaits(s: State, s': State, r: Rid)
    requires AwaitInv(s) && r in s.records && r in s'.records && s'.threads == s.threads && s'.queue == s.queue && s'.place == s.place
    requires s'.records == s.records[r := s'.records[r]] && s'.unused == s.unused
    requires s'.records[r].counts.Awaiting() == s.records[r].counts.Awaiting()
    requires s'.records[r].counts.evaluation == s.records[r].counts.evaluation
    requires s.records[r].counts.Awaiting() ==> s'.records[r].counts.state == s.records[r].counts.state
    ensures AwaitInv(s')
  {
    hide QueuedFor;
    forall p: Place
      ensures HeldAt(s', p) == HeldAt(s, p)
      ensures HeldAt(s', p).Some? ==> Expected(s', p, HeldAt(s', p).value)
    {
      if HeldAt(s, p).Some? { HoldersExpected(s, p); }
    }
  }

  lemma ClaimAwaits(s: State, t: nat, r: Rid, seen: Counts, now: int)
    requires PlaceInv(s) && AwaitInv(s) && Has(s, t) && s.threads[t].Idle? && r in s.records && PlaceInv(ClaimIf(s, t, r, seen, now))
    requires seen.Awaiting() == s.records[r].counts.Awaiting() && seen.evaluation == s.records[r].counts.evaluation
    requires s.records[r].counts.Awaiting() ==> seen.state == s.records[r].counts.state
    ensures AwaitInv(ClaimIf(s, t, r, seen, now))
  {
    var s' := ClaimIf(s, t, r, seen, now);
    if !seen.Cooling(now) && seen.Ripe() {
      hide Stats.Sample, HeldAt;
      forall q | q in s'.records
        ensures q < s'.unused && Settled(s, s', t, q)
      {
      }
      hide PlaceInv, AwaitInv, Settled;
      ThreadAwaits(s, s', t);
    } else {
      hide PlaceInv, AwaitInv;
      CountAwaits(s, s', r);
    }
  }

  /** The sums are of no account here. */
  lemma SameAwaits(s: State, s': State)
    requires AwaitInv(s) && s'.threads == s.threads && s'.queue == s.queue && s'.place == s.place && s.unused <= s'.unused
    requires forall r :: r in s'.records ==>
               if r in s.records then s'.records[r] == s.records[r]
               else r < s'.unused && !s'.records[r].counts.Awaiting() && r !in s'.place
    requires forall p: Place :: HeldAt(s, p).Some? && HeldAt(s, p).value.source !in s.records ==> HeldAt(s, p).value.source !in s'.records
    ensures AwaitInv(s')
  {
    hide QueuedFor;
    forall p: Place
      ensures HeldAt(s', p) == HeldAt(s, p)
      ensures HeldAt(s', p).Some? ==> Expected(s', p, HeldAt(s', p).value)
    {
      if HeldAt(s, p).Some? { HoldersExpected(s, p); }
    }
  }

  lemma RecordStepKeepsAwaiting(s: State, a: Action)
    requires PlaceInv(s) && AwaitInv(s) && Enabled(s, a) && (a.Register? || a.Retire? || a.SetAccepting?)
    ensures AwaitInv(After(s, a))
  {
    PlacesUsed(s);
    forall p: Place | HeldAt(s, p).Some?
      ensures HeldAt(s, p).value.source < s.unused
    {
      assert HeldAt(s, p).value.source in s.place;
    }
    hide PlaceInv, LockedPath, HeldAt;
    SameAwaits(s, After(s, a));
  }

  lemma ObserveAwaits(s: State, t: nat, r: Rid, full: u64, partial: u64, now: int)
    requires PlaceInv(s) && AwaitInv(s) && Enabled(s, Observe(t, r, full, partial, now))
    ensures AwaitInv(After(s, Observe(t, r, full, partial, now)))
  {
    var seen := s.records[r].counts.Observed(full, partial, now);
    RipeNotAwaiting(s.records[r].counts, full, partial, now);
    hide PlaceInv, AwaitInv, LockedPath, Counts.Observed, Counts.Awaiting, Counts.Ripe, ClaimIf;
    ClaimKeepsPlaces(s, t, r, seen, now);
    ClaimAwaits(s, t, r, seen, now);
    SumsDoNotMatter(ClaimIf(s, t, r, seen, now), After(s, Observe(t, r, full, partial, now)));
  }

  lemma ReleaseAwaits(s: State, t: nat, r: Rid, now: int)
    requires PlaceInv(s) && AwaitInv(s) && Enabled(s, Release(t, r, now))
    ensures AwaitInv(After(s, Release(t, r, now)))
  {
    var seen := s.records[r].counts.Expired(now);
    RipeNotAwaiting(s.records[r].counts, 0, 0, now);
    hide PlaceInv, AwaitInv, LockedPath, Counts.Expired, Counts.Awaiting, Counts.Ripe, ClaimIf;
    ClaimKeepsPlaces(s, t, r, seen, now);
    ClaimAwaits(s, t, r, seen, now);
    SumsDoNotMatter(ClaimIf(s, t, r, seen, now), After(s, Release(t, r, now)));
  }

  lemma SumsDoNotMatter(s: State, s': State)
    requires AwaitInv(s) && s' == s.(dropped := s'.dropped)
    ensures AwaitInv(s')
  {
    SameAwaits(s, s');
  }

  /** A ticket dealt with is recognised by no record. */
  lemma DeadUnrecognised(s: State, t: nat)
    requires DeadInv(s) && Has(s, t) && Past(s.threads[t]).Some?
    ensures forall inflight :: !Recognised(s, Past(s.threads[t]).value, inflight)
  {
    assert Dead(s, Past(s.threads[t]).value);
  }

  lemma StepKeepsAwaiting(s: State, a: Action)
    requires PlaceInv(s) && AwaitInv(s) && LockInv(s) && DeadInv(s) && Enabled(s, a) && PlaceInv(After(s, a))
    ensures AwaitInv(After(s, a))
  {
    hide PlaceInv, AwaitInv, LockInv, DeadInv, AfterBegin, AfterHandOver, AfterSubmit, AfterTake, LockedPath;
    match a
    case Register(_) => RecordStepKeepsAwaiting(s, a);
    case Retire(_) => RecordStepKeepsAwaiting(s, a);
    case SetAccepting(_) => RecordStepKeepsAwaiting(s, a);
    case Observe(t, r, full, partial, now) => ObserveAwaits(s, t, r, full, partial, now);
    case Release(t, r, now) => ReleaseAwaits(s, t, r, now);
    case Submit(t, ordinary, memory) => SubmitAwaits(s, t, s.threads[t].path, Some(s.threads[t].ticket), ordinary, memory);
    case SubmitPlain(t, path, memory) => SubmitAwaits(s, t, path, None, true, memory);
    case Take => TakeAwaits(s);
    case Begin(t) => BeginAwaits(s, t);
    case HandOver(t, now, failed) => HandOverAwaits(s, t, now, failed);
    case FailAgain(t) =>
      DeadUnrecognised(s, t);
      CarriesOnAwaits(s, After(s, a), t);
    case _ => ThreadStepKeepsAwaiting(s, a);
  }

  // ----- locks

  /** Only a claim makes a record await, and no compaction runs on its path then. */
  lemma OthersInOrder(s: State, s': State, u: nat)
    requires Has(s, u) && InOrder(s.records, s.threads[u])
    requires Running(s.threads[u]) && s.threads[u].was.Some? && s.threads[u].was.value in s.records ==>
               var r := s.threads[u].was.value;
               r in s'.records && s'.records[r].path == s.records[r].path
               && (s'.records[r].counts.Awaiting() ==> s.records[r].counts.Awaiting())
    ensures InOrder(s'.records, s.threads[u])
  {
  }

  lemma ThreadLocks(s: State, s': State, t: nat)
    requires LockInv(s) && Progress(s, s') && Quiet(s, s') && t in s.threads && t in s'.threads
    requires s'.threads == s.threads[t := s'.threads[t]]
    requires Running(s'.threads[t]) ==>
               if Running(s.threads[t]) then s'.threads[t].path == s.threads[t].path else !LockedPath(s, s'.threads[t].path)
    requires InOrder(s'.records, s'.threads[t])
    ensures LockInv(s')
  {
    forall u | u in s'.threads
      ensures InOrder(s'.records, s'.threads[u])
    {
      if u != t {
        assert InOrder(s.records, s.threads[u]);
        OthersInOrder(s, s', u);
      }
    }
    forall u | u in s.threads && u != t && Running(s.threads[u])
      ensures !Locks(s'.threads[t], s.threads[u].path)
    {
      assert Locks(s.threads[u], s.threads[u].path);
    }
    hide InOrder, Progress, Quiet;
  }

  lemma RecordLocks(s: State, s': State)
    requires LockInv(s) && s'.threads.Keys == s.threads.Keys
    requires forall t :: t in s.threads ==> s'.threads[t] == s.threads[t] || (!Running(s.threads[t]) && !Running(s'.threads[t]))
    requires forall t :: t in s.threads && Running(s.threads[t]) && s.threads[t].was.Some? && s.threads[t].was.value in s.records ==>
               var r := s.threads[t].was.value;
               r in s'.records && s'.records[r].path == s.records[r].path
               && (s'.records[r].counts.Awaiting() ==> s.records[r].counts.Awaiting())
    ensures LockInv(s')
  {
    forall u | u in s'.threads
      ensures InOrder(s'.records, s'.threads[u])
    {
      assert InOrder(s.records, s.threads[u]);
      if s'.threads[u] == s.threads[u] { OthersInOrder(s, s', u); }
    }
    hide InOrder;
  }

  /** No compaction runs on the record of an unlocked path. */
  lemma RunsElsewhere(s: State, u: nat, r: Rid)
    requires LockInv(s) && Has(s, u) && Running(s.threads[u]) && r in s.records && !LockedPath(s, s.records[r].path)
    ensures s.threads[u].was != Some(r)
  {
    assert InOrder(s.records, s.threads[u]) && Locks(s.threads[u], s.threads[u].path);
  }

  lemma ClaimKeepsLocks(s: State, t: nat, r: Rid, seen: Counts, now: int)
    requires LockInv(s) && Has(s, t) && s.threads[t].Idle? && r in s.records && !LockedPath(s, s.records[r].path)
    ensures LockInv(ClaimIf(s, t, r, seen, now))
  {
    forall u | u in s.threads && Running(s.threads[u])
      ensures s.threads[u].was != Some(r)
    {
      RunsElsewhere(s, u, r);
    }
    hide LockInv, LockedPath, Counts.Ripe, Counts.Cooling, Counts.Claimed, Counts.Awaiting;
    RecordLocks(s, ClaimIf(s, t, r, seen, now));
  }

  lemma SameLocks(s: State, s': State)
    requires LockInv(s) && s'.threads == s.threads && forall r :: r in s.records ==> r in s'.records && s'.records[r] == s.records[r]
    ensures LockInv(s')
  {
    hide LockInv;
    RecordLocks(s, s');
  }

  lemma RetireKeepsLocks(s: State, r: Rid)
    requires LockInv(s) && Enabled(s, Retire(r))
    ensures LockInv(After(s, Retire(r)))
  {
    forall u | u in s.threads && Running(s.threads[u])
      ensures s.threads[u].was != Some(r)
    {
      assert InOrder(s.records, s.threads[u]);
    }
    hide LockInv;
    RecordLocks(s, After(s, Retire(r)));
  }

  lemma RecordStepKeepsLocks(s: State, a: Action)
    requires AwaitInv(s) && LockInv(s) && Enabled(s, a)
    requires a.Register? || a.Observe? || a.Release? || a.Retire? || a.SetAccepting?
    ensures LockInv(After(s, a))
  {
    assert UsedIds(s);
    hide LockInv, LockedPath, AwaitInv, ClaimIf, Counts.Observed, Counts.Expired;
    match a
    case Register(_) => SameLocks(s, After(s, a));
    case SetAccepting(_) => SameLocks(s, After(s, a));
    case Retire(r) => RetireKeepsLocks(s, r);
    case Observe(t, r, full, partial, now) =>
      var seen := s.records[r].counts.Observed(full, partial, now);
      ClaimKeepsLocks(s, t, r, seen, now);
      SameLocks(ClaimIf(s, t, r, seen, now), After(s, a));
    case Release(t, r, now) =>
      var seen := s.records[r].counts.Expired(now);
      ClaimKeepsLocks(s, t, r, seen, now);
      SameLocks(ClaimIf(s, t, r, seen, now), After(s, a));
  }

  lemma QueueStepKeepsLocks(s: State, a: Action)
    requires LockInv(s) && Enabled(s, a) && (a.Submit? || a.SubmitPlain? || a.Take?)
    ensures LockInv(After(s, a))
  {
    hide LockInv, LockedPath, Progress, Quiet, Past, After, Enabled;
    QueueStepProgress(s, a);
    QueueStepShape(s, a);
    ThreadLocks(s, After(s, a), if a.Take? then WORKER else a.thread);
  }

  lemma WorkingWas(s: State, t: nat)
    requires LockInv(s) && Has(s, t)
    ensures InOrder(s.records, s.threads[t])
  {
  }

  lemma PlainStepKeepsLocks(s: State, a: Action)
    requires LockInv(s) && Enabled(s, a) && (a.Lock? || a.LockFails? || a.ResolveFails? || a.End? || a.Fail? || a.FailAgain?)
    ensures LockInv(After(s, a))
  {
    WorkingWas(s, a.thread);
    ThreadStepProgress(s, a);
    hide LockInv, LockedPath, GivenBack, Recognised, Finished, Progress, Quiet;
    GivenBackKeys(s, a);
    if a.ResolveFails? || a.End? { FinishedCarries(a.thread, s.threads[a.thread].from, a.ResolveFails? || a.failed); }
    ThreadLocks(s, After(s, a), a.thread);
  }

  lemma ThreadStepKeepsLocks(s: State, a: Action)
    requires PlaceInv(s) && AwaitInv(s) && LockInv(s) && Enabled(s, a)
    requires a.Lock? || a.LockFails? || a.ResolveFails? || a.Check? || a.Reject? || a.End? || a.Fail? || a.FailAgain?
    ensures LockInv(After(s, a))
  {
    if a.Check? || a.Reject? {
      WorkingWas(s, a.thread);
      ThreadStepProgress(s, a);
      if a.Reject? { SurrenderEndsWait(s, a.thread, false, true); }
      if a.Check? && After(s, a).threads[a.thread].Working? { CheckedIdle(s, a.thread); }
      hide LockInv, LockedPath, PlaceInv, AwaitInv, GivenBack, Recognised, Progress, Quiet;
      GivenBackKeys(s, a);
      ThreadLocks(s, After(s, a), a.thread);
    } else {
      hide LockInv, PlaceInv, AwaitInv, Enabled, After;
      PlainStepKeepsLocks(s, a);
    }
  }

  lemma GivenBackKeys(s: State, a: Action)
    requires Enabled(s, a) && (a.ResolveFails? || a.Reject? || a.Fail? || a.FailAgain? || a.Lock? || a.LockFails? || a.Check? || a.End?)
    ensures After(s, a).threads == s.threads[a.thread := After(s, a).threads[a.thread]]
    ensures forall r :: r in s.records ==> r in After(s, a).records && After(s, a).records[r].path == s.records[r].path
  {
    hide LockedPath, GivenBack, Recognised, Finished;
    if a.ResolveFails? && s.threads[a.thread].from.Some? { GivenBackFacts(s, s.threads[a.thread].from.value, false, true); }
    if a.Reject? { GivenBackFacts(s, s.threads[a.thread].live.value, false, true); }
    if a.Fail? || a.FailAgain? { GivenBackFacts(s, s.threads[a.thread].ticket, true, false); }
  }

  /** A ticket in flight is with a compaction that holds the lock of the path. */
  lemma InflightWorks(s: State, r: Rid) returns (u: nat)
    requires PlaceInv(s) && AwaitInv(s) && LockInv(s) && r in s.records && s.records[r].counts.state == INFLIGHT
    ensures Has(s, u) && s.threads[u].Working? && Locks(s.threads[u], s.records[r].path)
  {
    var p := s.place[r];
    HoldersExpected(s, p);
    u := p.thread;
    assert InOrder(s.records, s.threads[u]);
  }

  /** A compaction that goes on without a ticket finds no other one queued, and none can be at work. */
  lemma CheckedIdle(s: State, t: nat)
    requires PlaceInv(s) && AwaitInv(s) && LockInv(s) && Has(s, t) && s.threads[t].Checking?
    requires s.threads[t].was.Some? && s.threads[t].was.value in s.records ==> s.records[s.threads[t].was.value].counts.state != QUEUED
    ensures s.threads[t].was.Some? && s.threads[t].was.value in s.records ==> !s.records[s.threads[t].was.value].counts.Awaiting()
  {
    assert InOrder(s.records, s.threads[t]);
    hide PlaceInv, AwaitInv;
    if s.threads[t].was.Some? && s.threads[t].was.value in s.records && s.records[s.threads[t].was.value].counts.state == INFLIGHT {
      var u := InflightWorks(s, s.threads[t].was.value);
    }
  }

  lemma BeginInOrder(s: State, t: nat)
    requires Has(s, t) && s.threads[t].Locked? && InOrder(s.records, s.threads[t])
    ensures var s' := AfterBegin(s, t);
            && s'.threads == s.threads[t := s'.threads[t]] && InOrder(s'.records, s'.threads[t])
            && Running(s'.threads[t]) && s'.threads[t].path == s.threads[t].path
  {
    hide GivenBack, Recognised;
    var from := s.threads[t].from;
    if from.Some? { GivenBackFacts(s, from.value, false, true); }
  }

  lemma BeginKeepsLocks(s: State, t: nat)
    requires LockInv(s) && Enabled(s, Begin(t))
    ensures LockInv(AfterBegin(s, t))
  {
    WorkingWas(s, t);
    BeginProgress(s, t);
    BeginInOrder(s, t);
    hide LockInv, LockedPath, AfterBegin, InOrder, Progress, Quiet;
    ThreadLocks(s, AfterBegin(s, t), t);
  }

  lemma HandOverKeepsLocks(s: State, t: nat, now: int, failed: bool)
    requires AwaitInv(s) && LockInv(s) && Enabled(s, HandOver(t, now, failed))
    ensures LockInv(AfterHandOver(s, t, now, failed))
  {
    assert UsedIds(s);
    HandOverProgress(s, t, now, failed);
    hide AwaitInv, LockInv, LockedPath, Progress, Quiet, AfterHandOver, Finished;
    HandOverShape(s, t, now, failed);
    FinishedCarries(t, s.threads[t].from, failed);
    ThreadLocks(s, AfterHandOver(s, t, now, failed), t);
  }

  lemma StepKeepsLocks(s: State, a: Action)
    requires PlaceInv(s) && AwaitInv(s) && LockInv(s) && Enabled(s, a)
    ensures LockInv(After(s, a))
  {
    hide PlaceInv, AwaitInv, LockInv, AfterBegin, AfterHandOver, AfterSubmit, AfterTake, LockedPath, GivenBack, Surrendered, ClaimIf;
    match a
    case Register(_) => RecordStepKeepsLocks(s, a);
    case Observe(_, _, _, _, _) => RecordStepKeepsLocks(s, a);
    case Release(_, _, _) => RecordStepKeepsLocks(s, a);
    case Retire(_) => RecordStepKeepsLocks(s, a);
    case SetAccepting(_) => RecordStepKeepsLocks(s, a);
    case Submit(_, _, _) => QueueStepKeepsLocks(s, a);
    case SubmitPlain(_, _, _) => QueueStepKeepsLocks(s, a);
    case Take => QueueStepKeepsLocks(s, a);
    case Begin(t) => BeginKeepsLocks(s, t);
    case HandOver(t, now, failed) => HandOverKeepsLocks(s, t, now, failed);
    case _ => ThreadStepKeepsLocks(s, a);
  }

  // ----- tickets dealt with

  lemma DeadKept(s: State, s': State, k: Ticket)
    requires Dead(s, k) && Progress(s, s')
    ensures Dead(s', k)
  {
  }

  lemma ThreadDead(s: State, s': State, t: nat)
    requires DeadInv(s) && Progress(s, s') && t in s.threads && t in s'.threads && s'.threads == s.threads[t := s'.threads[t]]
    requires Past(s'.threads[t]).Some? ==> Past(s'.threads[t]) == Past(s.threads[t]) || Dead(s', Past(s'.threads[t]).value)
    ensures DeadInv(s')
  {
    hide Progress, Dead;
    forall u | u in s'.threads && Past(s'.threads[u]).Some?
      ensures Dead(s', Past(s'.threads[u]).value)
    {
      if u != t || Past(s'.threads[t]) == Past(s.threads[t]) { DeadKept(s, s', Past(s.threads[u]).value); }
    }
  }

  /** A ticket given up by its holder is dealt with. */
  lemma SurrenderedDead(s: State, t: nat, evidence: bool, inflight: bool)
    requires PlaceInv(s) && AwaitInv(s) && Has(s, t) && Carries(s.threads[t]).Some? && (s.threads[t].Working? ==> inflight)
    ensures Dead(GivenBack(s, Carries(s.threads[t]).value, evidence, inflight), Carries(s.threads[t]).value)
  {
    var k := Carries(s.threads[t]).value;
    ThreadHolds(s, t);
    HoldersExpected(s, OfThread(t));
    assert k.source in s.place;
    PlacesUsed(s);
    GivenBackFacts(s, k, evidence, inflight);
    SurrenderEndsWait(s, t, evidence, inflight);
    hide PlaceInv, AwaitInv, HeldAt, Recognised, GivenBack;
  }

  lemma PlainStepKeepsDead(s: State, a: Action)
    requires LockInv(s) && DeadInv(s) && Enabled(s, a) && (a.Lock? || a.LockFails? || a.Check? || a.End? || a.Fail? || a.FailAgain?)
    ensures DeadInv(After(s, a))
  {
    ThreadStepProgress(s, a);
    GivenBackKeys(s, a);
    hide LockInv, DeadInv, LockedPath, Progress, Quiet, GivenBack, Recognised, Finished;
    if a.End? { FinishedCarries(a.thread, s.threads[a.thread].from, a.failed); }
    ThreadDead(s, After(s, a), a.thread);
  }

  lemma ThreadStepKeepsDead(s: State, a: Action)
    requires PlaceInv(s) && AwaitInv(s) && LockInv(s) && DeadInv(s) && Enabled(s, a)
    requires a.Lock? || a.LockFails? || a.ResolveFails? || a.Check? || a.Reject? || a.End? || a.Fail? || a.FailAgain?
    ensures DeadInv(After(s, a))
  {
    var t := a.thread;
    if a.ResolveFails? || a.Reject? {
      WorkingWas(s, t);
      if Carries(s.threads[t]).Some? { SurrenderedDead(s, t, false, true); }
      hide PlaceInv, AwaitInv, LockInv, DeadInv, LockedPath, Progress, Quiet, GivenBack, Recognised, Finished;
      ThreadStepProgress(s, a);
      GivenBackKeys(s, a);
      FinishedCarries(t, s.threads[t].from, true);
      ThreadDead(s, After(s, a), t);
    } else {
      hide PlaceInv, AwaitInv, LockInv, DeadInv, Enabled, After;
      PlainStepKeepsDead(s, a);
    }
  }

  lemma BeginKeepsDead(s: State, t: nat)
    requires PlaceInv(s) && AwaitInv(s) && DeadInv(s) && Enabled(s, Begin(t))
    ensures DeadInv(AfterBegin(s, t))
  {
    BeginProgress(s, t);
    if s.threads[t].from.Some? {
      SurrenderedDead(s, t, false, true);
      GivenBackFacts(s, s.threads[t].from.value, false, true);
    }
    hide PlaceInv, AwaitInv, DeadInv, LockedPath, Progress, Quiet, GivenBack, Recognised;
    ThreadDead(s, AfterBegin(s, t), t);
  }

  lemma HandOverKeepsDead(s: State, t: nat, now: int, failed: bool)
    requires PlaceInv(s) && AwaitInv(s) && LockInv(s) && DeadInv(s) && Enabled(s, HandOver(t, now, failed))
    ensures DeadInv(AfterHandOver(s, t, now, failed))
  {
    assert UsedIds(s);
    HandOverProgress(s, t, now, failed);
    WorkingWas(s, t);
    if s.threads[t].live.Some? {
      ThreadHolds(s, t);
      HoldersExpected(s, OfThread(t));
    }
    hide PlaceInv, AwaitInv, LockInv, DeadInv, LockedPath, Progress, Quiet, HeldAt, AfterHandOver, Finished;
    HandOverShape(s, t, now, failed);
    FinishedCarries(t, s.threads[t].from, failed);
    ThreadDead(s, AfterHandOver(s, t, now, failed), t);
  }

  lemma ClaimStepKeepsDead(s: State, s': State, t: nat)
    requires DeadInv(s) && Progress(s, s') && t in s.threads && Past(s.threads[t]).None?
    requires s'.threads == s.threads || (t in s'.threads && s'.threads == s.threads[t := s'.threads[t]] && Past(s'.threads[t]).None?)
    ensures DeadInv(s')
  {
    hide Progress, Dead;
    forall u | u in s'.threads && Past(s'.threads[u]).Some?
      ensures Dead(s', Past(s'.threads[u]).value)
    {
      DeadKept(s, s', Past(s.threads[u]).value);
    }
  }

  lemma SameThreadsDead(s: State, s': State)
    requires DeadInv(s) && Progress(s, s') && s'.threads == s.threads
    ensures DeadInv(s')
  {
    hide Progress, Dead;
    forall u | u in s'.threads && Past(s'.threads[u]).Some?
      ensures Dead(s', Past(s'.threads[u]).value)
    {
      DeadKept(s, s', Past(s.threads[u]).value);
    }
  }

  lemma QueueStepKeepsDead(s: State, a: Action)
    requires DeadInv(s) && Enabled(s, a) && (a.Submit? || a.SubmitPlain? || a.Take?)
    ensures DeadInv(After(s, a))
  {
    hide DeadInv, LockedPath, Progress, Quiet, Running, After, Enabled;
    QueueStepProgress(s, a);
    QueueStepShape(s, a);
    ThreadDead(s, After(s, a), if a.Take? then WORKER else a.thread);
  }

  lemma ObserveKeepsDead(s: State, a: Action)
    requires DeadInv(s) && Enabled(s, a) && (a.Observe? || a.Release?) && Progress(s, After(s, a))
    ensures DeadInv(After(s, a))
  {
    hide DeadInv, LockedPath, Progress, Counts.Observed, Counts.Expired, Counts.Ripe, Counts.Cooling;
    ClaimStepKeepsDead(s, After(s, a), a.thread);
  }

  lemma StepKeepsDead(s: State, a: Action)
    requires PlaceInv(s) && AwaitInv(s) && LockInv(s) && DeadInv(s) && Enabled(s, a)
    ensures DeadInv(After(s, a))
  {
    StepProgress(s, a);
    hide PlaceInv, AwaitInv, LockInv, DeadInv, AfterBegin, AfterHandOver, AfterSubmit, AfterTake, LockedPath, GivenBack, Surrendered,
         ClaimIf, Progress, Quiet;
    match a
    case Register(_) => SameThreadsDead(s, After(s, a));
    case Retire(_) => SameThreadsDead(s, After(s, a));
    case SetAccepting(_) => SameThreadsDead(s, After(s, a));
    case Observe(_, _, _, _, _) => ObserveKeepsDead(s, a);
    case Release(_, _, _) => ObserveKeepsDead(s, a);
    case Submit(_, _, _) => QueueStepKeepsDead(s, a);
    case SubmitPlain(_, _, _) => QueueStepKeepsDead(s, a);
    case Take => QueueStepKeepsDead(s, a);
    case Begin(t) => BeginKeepsDead(s, t);
    case HandOver(t, now, failed) => HandOverKeepsDead(s, t, now, failed);
    case _ => ThreadStepKeepsDead(s, a);
  }

  /** Every step of every thread keeps the invariant. */
  lemma StepKeepsInv(s: State, a: Action)
    requires Inv(s) && Enabled(s, a)
    ensures Inv(After(s, a))
  {
    hide PlaceInv, AwaitInv, LockInv, DeadInv, Enabled, After;
    StepKeepsPlaces(s, a);
    StepKeepsAwaiting(s, a);
    StepKeepsLocks(s, a);
    StepKeepsDead(s, a);
  }
}
