/**
 Adaptive tickets (src/core/compact.c:476-639, 1510-1554, 1844-1882): the event counts of a
 generation record move into a ticket when it is claimed, and back when it is turned down.  A ghost
 ledger follows every observed event.
 */
module Tickets {
  import opened Basics

  const MIN_SAMPLE: int := 128
  const COOLDOWN_SECONDS: int := 3600

  /** `add_saturating`. */
  function Add(a: u64, b: u64): (r: u64)
    ensures a + b <= U64_MAX ==> r == a + b
  {
    if U64_MAX - a < b then U64_MAX else a + b
  }

  datatype Stats = Stats(full: u64, partial: u64) {
    function Plus(s: Stats): Stats { Stats(Add(full, s.full), Add(partial, s.partial)) }

    function Sample(): u64 { Add(full, partial) }

    function Halved(): Stats { Stats(full / 2, partial / 2) }
  }

  const NO_STATS: Stats := Stats(0, 0)

  /** A claimed evaluation of record `source`. */
  datatype Ticket = Ticket(source: nat, snapshot: Stats, evaluation: nat)

  datatype AdaptiveState = IDLE | QUEUED | INFLIGHT | COOLDOWN_DEFERRED

  /** A ticket is recognised by its record and evaluation number. */
  predicate SameTicket(a: Ticket, b: Ticket) { a.source == b.source && a.evaluation == b.evaluation }

  // ----- what the operations do to the counts of a record

  datatype Counts = Counts(stats: Stats, classified: u64, evaluation: nat, state: AdaptiveState,
                           lastResizeValid: bool, cooldownUntil: int) {
    predicate Cooling(now: int) { lastResizeValid && now < cooldownUntil }

    /** Whether a ticket can be claimed. */
    predicate Ripe() { state == IDLE && stats.Sample() >= MIN_SAMPLE && classified >= MIN_SAMPLE }

    /** A ticket is out. */
    predicate Awaiting() { state == QUEUED || state == INFLIGHT }

    predicate Halves(now: int) { lastResizeValid && !Cooling(now) && state == COOLDOWN_DEFERRED }

    function Expired(now: int): Counts {
      if !lastResizeValid || now < cooldownUntil then this
      else if state == COOLDOWN_DEFERRED then
        this.(stats := stats.Halved(), classified := stats.Halved().Sample(), state := IDLE, lastResizeValid := false)
      else this.(lastResizeValid := false)
    }

    function Counted(full: u64, partial: u64): Counts {
      this.(stats := stats.Plus(Stats(full, partial)), classified := Add(classified, Add(full, partial)))
    }

    function Claimed(): Counts {
      this.(evaluation := evaluation + 1, stats := NO_STATS, classified := 0, state := QUEUED)
    }

    function Restored(t: Ticket, restoreEvidence: bool): Counts {
      this.(stats := stats.Plus(t.snapshot), state := IDLE,
            classified := if restoreEvidence then Add(classified, t.snapshot.Sample()) else classified)
    }

    /** A write observed, up to the claim. */
    function Observed(full: u64, partial: u64, now: int): Counts {
      var counted := Expired(now).Counted(full, partial);
      if counted.Cooling(now) && counted.state == IDLE then counted.(state := COOLDOWN_DEFERRED) else counted
    }

    function GivenUp(): Counts { this.(stats := NO_STATS, classified := 0, state := IDLE) }

    /** What a fresh record takes over from its predecessor. */
    function Inherited(resized: bool, now: int): Counts {
      var until := if resized then now + COOLDOWN_SECONDS else cooldownUntil;
      var valid := resized || lastResizeValid;
      Counts(stats, classified, 0,
             if stats.Sample() > 0 && valid && (resized || now < until) then COOLDOWN_DEFERRED else IDLE,
             valid, if valid then until else 0)
    }
  }

  const NO_COUNTS: Counts := Counts(NO_STATS, 0, 0, IDLE, false, 0)

  /** Totals that outgrow 64 bits in the program do not here. */
  datatype Sum = Sum(full: nat, partial: nat) {
    function Plus(s: Stats): Sum { Sum(full + s.full, partial + s.partial) }

    predicate Fits() { full <= U64_MAX && partial <= U64_MAX }
  }

  /**
   Where the events went: seen by this record or taken over from its predecessor, minus those
   dropped by the cooldown, spent on a resize or passed on to a successor.
   */
  datatype Ledger = Ledger(arrived: Sum, dropped: Sum, spent: Sum, passedOn: Sum)

  class Record {
    const id: nat
    var stats: Stats
    var classified: u64
    var evaluation: nat
    var state: AdaptiveState
    var lastResizeValid: bool
    var cooldownUntil: int
    ghost var ledger: Ledger
    /** Every ticket ever claimed from this record. */
    ghost var issued: seq<Ticket>

    ghost function Value(): Counts
      reads this
    {
      Counts(stats, classified, evaluation, state, lastResizeValid, cooldownUntil)
    }

    /** The ticket that still stands for events of this record. */
    ghost function Outstanding(): Option<Ticket>
      reads this
    {
      if (state == QUEUED || state == INFLIGHT) && issued != [] then Some(issued[|issued| - 1]) else None
    }

    /** The events in the record and in its outstanding ticket. */
    ghost function Held(): Sum
      reads this
    {
      var own := Sum(stats.full, stats.partial);
      if Outstanding().Some? then own.Plus(Outstanding().value.snapshot) else own
    }

    /** Every event that arrived is held, dropped, spent or passed on - exactly once. */
    ghost predicate Balanced()
      reads this
    {
      && ledger.arrived.full == Held().full + ledger.dropped.full + ledger.spent.full + ledger.passedOn.full
      && ledger.arrived.partial == Held().partial + ledger.dropped.partial + ledger.spent.partial + ledger.passedOn.partial
    }

    ghost predicate Valid()
      reads this
    {
      && evaluation == |issued|
      && (forall i :: 0 <= i < |issued| ==> issued[i].source == id && issued[i].evaluation == i + 1)
      && (state == QUEUED || state == INFLIGHT ==> issued != [])
      && (ledger.arrived.Fits() ==> Balanced())
    }

    constructor (id: nat)
      ensures Valid() && this.id == id && stats == NO_STATS && state == IDLE && issued == [] && !lastResizeValid
      ensures Value() == NO_COUNTS && ledger.arrived == Sum(0, 0)
    {
      this.id, stats, classified, evaluation, state := id, NO_STATS, 0, 0, IDLE;
      lastResizeValid, cooldownUntil := false, 0;
      ledger, issued := Ledger(Sum(0, 0), Sum(0, 0), Sum(0, 0), Sum(0, 0)), [];
    }

    predicate Cooling(now: int)
      reads this
    {
      lastResizeValid && now < cooldownUntil
    }

    /** `process_expired_cooldown`: deferred evidence is halved once the cooldown is over. */
    method ExpireCooldown(now: int)
      requires Valid()
      modifies this
      ensures Valid() && issued == old(issued) && ledger.arrived == old(ledger.arrived)
      ensures Value() == old(Value()).Expired(now)
      ensures Cooling(now) == old(Cooling(now)) && (!Cooling(now) ==> !lastResizeValid)
      ensures old(state) == COOLDOWN_DEFERRED && old(lastResizeValid) && !old(Cooling(now)) ==>
                state == IDLE && stats == old(stats).Halved() && classified == stats.Sample()
      ensures !(old(state) == COOLDOWN_DEFERRED && old(lastResizeValid) && !old(Cooling(now))) ==>
                state == old(state) && stats == old(stats) && classified == old(classified) && ledger == old(ledger)
    {
      if !lastResizeValid || now < cooldownUntil { return; }
      if state == COOLDOWN_DEFERRED {
        Halve();
      }
      lastResizeValid := false;
    }

    method Halve()
      requires Valid() && state == COOLDOWN_DEFERRED
      modifies this`stats, this`classified, this`state, this`ledger
      ensures Valid() && state == IDLE && stats == old(stats).Halved() && classified == stats.Sample()
      ensures ledger.arrived == old(ledger.arrived)
    {
      hide Add;
      ledger := ledger.(dropped := ledger.dropped.Plus(Stats(stats.full - stats.full / 2, stats.partial - stats.partial / 2)));
      stats := stats.Halved();
      classified := stats.Sample();
      state := IDLE;
    }

    /** `claim_adaptive_ticket`: all the evidence moves into the ticket. */
    method Claim() returns (t: Option<Ticket>)
      requires Valid()
      modifies this
      ensures Valid() && ledger == old(ledger)
      ensures t.Some? <==> old(Value()).Ripe()
      ensures Value() == if t.Some? then old(Value()).Claimed() else old(Value())
      ensures t.Some? ==>
                && issued == old(issued) + [t.value] && t.value == Ticket(id, old(stats), old(evaluation) + 1)
                && stats == NO_STATS && classified == 0 && state == QUEUED && Outstanding() == t
      ensures t.None? ==> unchanged(this)
      ensures lastResizeValid == old(lastResizeValid) && cooldownUntil == old(cooldownUntil)
    {
      if state != IDLE || stats.Sample() < MIN_SAMPLE || classified < MIN_SAMPLE { return None; }
      evaluation := evaluation + 1;
      var ticket := Ticket(id, stats, evaluation);
      issued := issued + [ticket];
      stats, classified, state := NO_STATS, 0, QUEUED;
      t := Some(ticket);
    }

    /** `restore_adaptive_ticket_locked`. */
    method Restore(t: Ticket, restoreEvidence: bool)
      requires Valid() && Outstanding() == Some(t)
      modifies this`stats, this`classified, this`state
      ensures Valid() && Value() == old(Value()).Restored(t, restoreEvidence)
      ensures state == IDLE && stats == old(stats).Plus(t.snapshot)
      ensures classified == if restoreEvidence then Add(old(classified), t.snapshot.Sample()) else old(classified)
    {
      stats := stats.Plus(t.snapshot);
      if restoreEvidence {
        classified := Add(classified, t.snapshot.Sample());
      }
      state := IDLE;
    }

    /** `generation_observe_write_locked`: count a write, perhaps claim. */
    method Observe(full: u64, partial: u64, now: int) returns (t: Option<Ticket>)
      requires Valid()
      modifies this
      ensures Valid() && ledger.arrived == old(ledger.arrived).Plus(Stats(full, partial))
      ensures issued == old(issued) + (if t.Some? then [t.value] else [])
      ensures t.Some? ==> Outstanding() == t && !Cooling(now)
      ensures var seen := old(Value()).Observed(full, partial, now);
              && (t.Some? <==> !seen.Cooling(now) && seen.Ripe())
              && Value() == if t.Some? then seen.Claimed() else seen
    {
      ExpireCooldown(now);
      CountEvents(full, partial);
      if lastResizeValid && now < cooldownUntil {
        if state == IDLE { state := COOLDOWN_DEFERRED; }
        return None;
      }
      t := Claim();
    }

    method CountEvents(full: u64, partial: u64)
      requires Valid()
      modifies this`stats, this`classified, this`ledger
      ensures Valid() && ledger == old(ledger).(arrived := old(ledger.arrived).Plus(Stats(full, partial)))
      ensures Value() == old(Value()).Counted(full, partial)
      ensures stats == old(stats).Plus(Stats(full, partial))
      ensures classified == Add(old(classified), Add(full, partial))
    {
      stats := stats.Plus(Stats(full, partial));
      classified := Add(classified, Add(full, partial));
      ledger := ledger.(arrived := ledger.arrived.Plus(Stats(full, partial)));
    }

    /** `generation_claim_release_locked`: the last writer may claim on its way out. */
    method ClaimOnRelease(writable: bool, writerRefs: nat, now: int) returns (t: Option<Ticket>)
      requires Valid()
      modifies this
      ensures Valid() && ledger.arrived == old(ledger.arrived)
      ensures issued == old(issued) + (if t.Some? then [t.value] else [])
      ensures t.Some? ==> writable && writerRefs == 1 && Outstanding() == t
      ensures writable && writerRefs == 1 ==>
                var expired := old(Value()).Expired(now);
                && (t.Some? <==> !expired.Cooling(now) && expired.Ripe())
                && Value() == if t.Some? then expired.Claimed() else expired
      ensures !writable || writerRefs != 1 ==> unchanged(this)
    {
      if !writable || writerRefs != 1 { return None; }
      ExpireCooldown(now);
      if lastResizeValid && now < cooldownUntil { return None; }
      t := Claim();
    }

    /** A ticket is recognised by its record and evaluation number. */
    predicate Recognises(t: Ticket)
      reads this
    {
      t.source == id && t.evaluation == evaluation
    }

    /** While a record waits for a ticket, the one it recognises is the outstanding one. */
    lemma RecognisedIsOutstanding(t: Ticket)
      requires Valid() && t in issued && (state == QUEUED || state == INFLIGHT)
      ensures Recognises(t) <==> Outstanding() == Some(t)
    {
      var i :| 0 <= i < |issued| && issued[i] == t;
      if Recognises(t) { assert i == |issued| - 1; }
    }

    /** `generation_adaptive_schedule_failed`: the evidence comes back in full. */
    method ScheduleFailed(t: Ticket)
      requires Valid() && t in issued
      modifies this
      ensures Valid() && ledger == old(ledger) && issued == old(issued)
      ensures old(Outstanding()) == Some(t) && old(state) == QUEUED ==>
                Value() == old(Value()).Restored(t, true)
                && state == IDLE && stats == old(stats).Plus(t.snapshot) && classified == Add(old(classified), t.snapshot.Sample())
      ensures !(old(Outstanding()) == Some(t) && old(state) == QUEUED) ==> unchanged(this)
    {
      if state == QUEUED { RecognisedIsOutstanding(t); }
      if t.source == id && evaluation == t.evaluation && state == QUEUED {
        Restore(t, true);
      }
    }

    /** `adaptive_reject`: the counts come back, the evidence window starts anew. */
    method Reject(t: Ticket)
      requires Valid() && t in issued
      modifies this
      ensures Valid() && ledger == old(ledger) && issued == old(issued)
      ensures old(Outstanding()) == Some(t) ==>
                Value() == old(Value()).Restored(t, false)
                && state == IDLE && stats == old(stats).Plus(t.snapshot) && classified == old(classified)
      ensures old(Outstanding()) != Some(t) ==> unchanged(this)
      ensures Outstanding() != Some(t)
    {
      if state == QUEUED || state == INFLIGHT { RecognisedIsOutstanding(t); }
      if t.source == id && evaluation == t.evaluation && (state == QUEUED || state == INFLIGHT) {
        Restore(t, false);
      }
    }

    /** `adaptive_begin`. */
    method Begin(t: Ticket, now: int) returns (valid: bool, inCooldown: bool)
      requires Valid() && t in issued
      modifies this`state
      ensures Valid() && valid == (old(Outstanding()) == Some(t) && old(state) == QUEUED)
      ensures valid ==> state == INFLIGHT && Outstanding() == Some(t)
      ensures !valid ==> state == old(state)
      ensures inCooldown <==> valid && Cooling(now)
    {
      inCooldown := false;
      if state == QUEUED { RecognisedIsOutstanding(t); }
      valid := t.source == id && evaluation == t.evaluation && state == QUEUED;
      if valid {
        state := INFLIGHT;
        if lastResizeValid { inCooldown := now < cooldownUntil; }
      }
    }

    /** Turning the same ticket down again, in whatever way, has no further effect. */
    method RejectAgain(t: Ticket)
      requires Valid() && t in issued && Outstanding() != Some(t)
      ensures unchanged(this)
      modifies this
    {
      Reject(t);
      ScheduleFailed(t);
      Reject(t);
    }

    /**
     The statistics part of a hand-over.  `evaluated` is the ticket a resize was decided on; its
     events are spent.  An ordinary compaction never gets here with a ticket outstanding.
     */
    method HandOver(next: Record, evaluated: Option<Ticket>, now: int)
      requires Valid() && next.Valid() && next != this
      requires next.issued == [] && next.state == IDLE && !next.lastResizeValid
      requires if evaluated.Some? then state == INFLIGHT && Outstanding() == evaluated else state == IDLE || state == COOLDOWN_DEFERRED
      modifies this, next
      ensures Valid() && next.Valid()
      ensures Value() == old(Value()).GivenUp()
      ensures old(next.Value()) == NO_COUNTS ==> next.Value() == old(Value()).Inherited(evaluated.Some?, now)
      ensures stats == NO_STATS && classified == 0 && state == IDLE && Outstanding().None? && issued == old(issued)
      ensures next.stats == old(next.stats).Plus(old(stats)) && next.classified == Add(old(next.classified), old(classified))
      ensures next.ledger.arrived == old(next.ledger.arrived).Plus(old(stats))
      ensures ledger.passedOn == old(ledger.passedOn).Plus(old(stats)) && ledger.arrived == old(ledger.arrived)
      ensures ledger.spent == if evaluated.Some? then old(ledger.spent).Plus(evaluated.value.snapshot) else old(ledger.spent)
      ensures next.issued == [] && (next.state == IDLE || next.state == COOLDOWN_DEFERRED)
      ensures evaluated.Some? ==> next.Cooling(now)
      ensures evaluated.None? ==> next.lastResizeValid == old(lastResizeValid)
      ensures next.state == COOLDOWN_DEFERRED ==> next.Cooling(now)
    {
      next.TakeOver(stats, classified);
      GiveUp(evaluated);
      if evaluated.Some? {
        next.cooldownUntil, next.lastResizeValid := now + COOLDOWN_SECONDS, true;
        if next.stats.Sample() > 0 { next.state := COOLDOWN_DEFERRED; }
      } else if lastResizeValid {
        next.lastResizeValid, next.cooldownUntil := true, cooldownUntil;
        if next.stats.Sample() > 0 && now < next.cooldownUntil { next.state := COOLDOWN_DEFERRED; }
      }
    }

    method TakeOver(inherited: Stats, evidence: u64)
      requires Valid()
      modifies this`stats, this`classified, this`ledger
      ensures Valid() && stats == old(stats).Plus(inherited) && classified == Add(old(classified), evidence)
      ensures ledger == old(ledger).(arrived := old(ledger.arrived).Plus(inherited))
    {
      stats, classified := stats.Plus(inherited), Add(classified, evidence);
      ledger := ledger.(arrived := ledger.arrived.Plus(inherited));
    }

    method GiveUp(evaluated: Option<Ticket>)
      requires Valid() && Outstanding() == evaluated
      modifies this`stats, this`classified, this`state, this`ledger
      ensures Valid() && stats == NO_STATS && classified == 0 && state == IDLE
      ensures ledger.passedOn == old(ledger.passedOn).Plus(old(stats)) && ledger.arrived == old(ledger.arrived)
      ensures ledger.spent == if evaluated.Some? then old(ledger.spent).Plus(evaluated.value.snapshot) else old(ledger.spent)
    {
      ledger := ledger.(passedOn := ledger.passedOn.Plus(stats),
                        spent := if evaluated.Some? then ledger.spent.Plus(evaluated.value.snapshot) else ledger.spent);
      stats, classified, state := NO_STATS, 0, IDLE;
    }
  }
}
