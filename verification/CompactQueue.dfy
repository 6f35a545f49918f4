/**
 The compaction queue (src/core/compact.c:2235-2509): a linked list that holds at most one request
 per path, and the protocol of schedulers, worker and stop around it.
 */
module CompactQueue {
  import opened Basics
  import opened Tickets

  datatype Request = Request(path: string, ordinary: bool, adaptive: Option<Ticket>)

  /** `r` takes over the demands of one more call for its path, unless their tickets differ. */
  function Merged(r: Request, ordinary: bool, ticket: Option<Ticket>): Option<Request> {
    if ticket.None? then Some(r.(ordinary := r.ordinary || ordinary))
    else if r.adaptive.Some? && !SameTicket(r.adaptive.value, ticket.value) then None
    else Some(Request(r.path, r.ordinary || ordinary, ticket))
  }

  /** The first request for `path` at or after `from`. */
  function Find(queue: seq<Request>, path: string, from: nat): (r: Option<nat>)
    requires from <= |queue|
    ensures r.Some? ==> from <= r.value < |queue| && queue[r.value].path == path
    ensures r.None? ==> forall i :: from <= i < |queue| ==> queue[i].path != path
    decreases |queue| - from
  {
    if from == |queue| then None
    else if queue[from].path == path then Some(from)
    else Find(queue, path, from + 1)
  }

  /** Outcome of the critical section of `schedule_request`; -EBUSY still notes an ordinary demand. */
  datatype Scheduled = Accepted(queue: seq<Request>, at: nat) | Busy(queue: seq<Request>) | NoMemory

  function Schedule(queue: seq<Request>, path: string, ordinary: bool, ticket: Option<Ticket>, memory: bool): Scheduled {
    var found := Find(queue, path, 0);
    if found.Some? then
      var i := found.value;
      var merged := Merged(queue[i], ordinary, ticket);
      if merged.Some? then Accepted(queue[i := merged.value], i)
      else Busy(queue[i := queue[i].(ordinary := queue[i].ordinary || ordinary)])
    else if !memory then NoMemory
    else Accepted(queue + [Request(path, ordinary, ticket)], |queue|)
  }

  predicate OnePerPath(queue: seq<Request>) {
    forall i, j :: 0 <= i < j < |queue| ==> queue[i].path != queue[j].path
  }

  // ----- the list in memory

  class Node {
    var request: Request
    var next: Node?

    constructor (request: Request)
      ensures this.request == request && next == null
    {
      this.request, next := request, null;
    }
  }

  ghost function NodeAfter(l: seq<Node>, i: int): Node?
    requires -1 <= i < |l|
  {
    if i + 1 < |l| then l[i + 1] else null
  }

  ghost function Requests(l: seq<Node>): (r: seq<Request>)
    reads l`request
    ensures |r| == |l| && forall i :: 0 <= i < |r| ==> r[i] == l[i].request
  {
    if l == [] then [] else [l[0].request] + Requests(l[1..])
  }

  class Queue {
    var head: Node?
    var tail: Node?
    ghost var nodes: seq<Node>

    ghost predicate Valid()
      reads this, nodes`next
    {
      && head == NodeAfter(nodes, -1)
      && tail == (if nodes == [] then null else nodes[|nodes| - 1])
      && (forall i, j :: 0 <= i < j < |nodes| ==> nodes[i] != nodes[j])
      && (forall i :: 0 <= i < |nodes| ==> nodes[i].next == NodeAfter(nodes, i))
    }

    /** The requests in order. */
    ghost function Contents(): (r: seq<Request>)
      reads this`nodes, nodes`request
      ensures |r| == |nodes| && forall i :: 0 <= i < |r| ==> r[i] == nodes[i].request
    {
      Requests(nodes)
    }

    constructor ()
      ensures Valid() && Contents() == [] && head == null && tail == null
    {
      head, tail, nodes := null, null, [];
    }

    /** Head and tail are null together, and only for the empty queue. */
    lemma EndsTogether()
      requires Valid()
      ensures (head == null <==> tail == null) && (head == null <==> Contents() == [])
    {
    }

    method Lookup(path: string) returns (n: Node?, ghost i: nat)
      requires Valid()
      ensures n == null <==> Find(Contents(), path, 0).None?
      ensures n != null ==> Find(Contents(), path, 0) == Some(i) && i < |nodes| && n == nodes[i]
    {
      n, i := head, 0;
      while n != null && n.request.path != path
        invariant 0 <= i <= |nodes| && n == NodeAfter(nodes, i - 1)
        invariant Find(Contents(), path, 0) == Find(Contents(), path, i)
        decreases |nodes| - i
      {
        assert n == nodes[i] && n.next == NodeAfter(nodes, i);
        n, i := n.next, i + 1;
      }
    }

    method Append(request: Request)
      requires Valid()
      modifies this, nodes`next
      ensures Valid() && Contents() == old(Contents()) + [request]
    {
      hide Requests;
      var n := new Node(request);
      if tail != null {
        tail.next := n;
      } else {
        head := n;
      }
      tail, nodes := n, nodes + [n];
    }

    /** The worker takes the oldest request. */
    method TakeHead() returns (request: Request)
      requires Valid() && Contents() != []
      modifies this
      ensures Valid() && old(Contents()) == [request] + Contents()
    {
      assert head == nodes[0] && head.next == NodeAfter(nodes, 0);
      request, head := head.request, head.next;
      if head == null { tail := null; }
      nodes := nodes[1..];
    }

    /** The critical section of `schedule_request` with a running worker. */
    method ScheduleLocked(path: string, ordinary: bool, ticket: Option<Ticket>, memory: bool) returns (r: Result<()>)
      requires Valid()
      modifies this, nodes
      ensures Valid()
      ensures match Schedule(old(Contents()), path, ordinary, ticket, memory)
              case Accepted(queue, _) => r.Ok? && Contents() == queue
              case Busy(queue) => r == Err(EBUSY) && Contents() == queue
              case NoMemory => r == Err(ENOMEM) && Contents() == old(Contents())
    {
      var n, i := Lookup(path);
      if n != null {
        r := Merge(n, i, ordinary, ticket);
        return;
      }
      if !memory { return Err(ENOMEM); }
      Append(Request(path, ordinary, ticket));
      r := Ok(());
    }

    /** A further demand for a path that is already queued. */
    method Merge(n: Node, ghost i: nat, ordinary: bool, ticket: Option<Ticket>) returns (r: Result<()>)
      requires Valid() && i < |nodes| && n == nodes[i]
      modifies n`request
      ensures Valid()
      ensures var merged := Merged(old(n.request), ordinary, ticket);
              if merged.Some? then r.Ok? && Contents() == old(Contents())[i := merged.value]
              else r == Err(EBUSY) && Contents() == old(Contents())[i := old(n.request).(ordinary := old(n.request).ordinary || ordinary)]
    {
      hide Requests;
      n.request := n.request.(ordinary := n.request.ordinary || ordinary);
      if ticket.Some? {
        if n.request.adaptive.Some? && !SameTicket(n.request.adaptive.value, ticket.value) { return Err(EBUSY); }
        n.request := n.request.(adaptive := ticket);
      }
      r := Ok(());
    }
  }

  // ----- the protocol

  /** The worker thread between two steps; it holds the queue mutex only inside a step. */
  datatype Worker = Absent | Polling | Executing(request: Request) | Exited

  /** An accepted call and the position, in the order of creation, of the request that serves it. */
  datatype Call = Call(path: string, ordinary: bool, ticket: Option<Ticket>, at: nat)

  /** `executed` and `calls` are history; the rest is the program's state. */
  datatype State = State(queue: seq<Request>, running: bool, stopping: bool, worker: Worker,
                         executed: seq<Request>, calls: seq<Call>)

  datatype Action =
    | Start(created: bool)
    | Submit(path: string, ordinary: bool, ticket: Option<Ticket>, memory: bool)
    | Take
    | Finish
    | Exit
    | RequestStop
    | Join

  /** Every request ever made, oldest first: done, in hand, still queued. */
  function Log(s: State): seq<Request> {
    s.executed + (if s.worker.Executing? then [s.worker.request] else []) + s.queue
  }

  function TakenCount(s: State): nat { |s.executed| + if s.worker.Executing? then 1 else 0 }

  predicate Enabled(s: State, a: Action) {
    match a
    case Start(_) => true
    case Submit(_, _, _, _) => true
    case Take => s.worker == Polling && s.queue != []
    case Finish => s.worker.Executing?
    case Exit => s.worker == Polling && s.queue == [] && s.stopping
    case RequestStop => true
    case Join => s.running && s.stopping && s.worker == Exited
  }

  function AfterSubmit(s: State, path: string, ordinary: bool, ticket: Option<Ticket>, memory: bool): State {
    if !s.running || s.stopping then s
    else
      match Schedule(s.queue, path, ordinary, ticket, memory)
      case Accepted(queue, at) => s.(queue := queue, calls := s.calls + [Call(path, ordinary, ticket, TakenCount(s) + at)])
      case Busy(queue) => s.(queue := queue)
      case NoMemory => s
  }

  function After(s: State, a: Action): State
    requires Enabled(s, a)
  {
    match a
    case Start(created) => if s.running || !created then s else s.(running := true, stopping := false, worker := Polling)
    case Submit(path, ordinary, ticket, memory) => AfterSubmit(s, path, ordinary, ticket, memory)
    case Take => s.(queue := s.queue[1..], worker := Executing(s.queue[0]))
    case Finish => s.(worker := Polling, executed := s.executed + [s.worker.request])
    case Exit => s.(worker := Exited)
    case RequestStop => if s.running then s.(stopping := true) else s
    case Join => s.(running := false, stopping := false)
  }

  /** A request meets the demand of a call it serves. */
  predicate Serves(r: Request, c: Call) {
    && r.path == c.path && (c.ordinary ==> r.ordinary)
    && (c.ticket.Some? ==> r.adaptive.Some? && SameTicket(r.adaptive.value, c.ticket.value))
  }

  ghost predicate Inv(s: State) {
    && OnePerPath(s.queue)
    && (s.running <==> s.worker.Polling? || s.worker.Executing? || (s.worker == Exited && s.stopping))
    && (s.stopping ==> s.running)
    && (!s.running || s.worker == Exited ==> s.queue == [])
    && forall c :: c in s.calls ==> c.at < |Log(s)| && Serves(Log(s)[c.at], c)
  }

  /** A queued request keeps its place and goes on serving whom it served. */
  ghost predicate Extends(was: seq<Request>, now: seq<Request>) {
    && |was| <= |now|
    && forall i :: 0 <= i < |was| ==>
         now[i].path == was[i].path && (was[i].ordinary ==> now[i].ordinary)
         && (was[i].adaptive.Some? ==> now[i].adaptive.Some? && SameTicket(now[i].adaptive.value, was[i].adaptive.value))
  }

  lemma ScheduleExtends(queue: seq<Request>, path: string, ordinary: bool, ticket: Option<Ticket>, memory: bool)
    requires OnePerPath(queue)
    ensures match Schedule(queue, path, ordinary, ticket, memory)
            case Accepted(now, at) =>
              && Extends(queue, now) && OnePerPath(now)
              && at < |now| && Serves(now[at], Call(path, ordinary, ticket, 0))
              && (forall i :: 0 <= i < |now| && i != at ==> i < |queue| && now[i] == queue[i])
              && now[at].adaptive == (if ticket.Some? then ticket else if at < |queue| then queue[at].adaptive else None)
            case Busy(now) =>
              && Extends(queue, now) && OnePerPath(now) && |now| == |queue|
              && forall i :: 0 <= i < |now| ==> now[i].adaptive == queue[i].adaptive
            case NoMemory => true
  {
  }

  lemma SubmitKeepsInv(s: State, path: string, ordinary: bool, ticket: Option<Ticket>, memory: bool)
    requires Inv(s)
    ensures Inv(AfterSubmit(s, path, ordinary, ticket, memory))
  {
    hide OnePerPath, Schedule;
    var s' := AfterSubmit(s, path, ordinary, ticket, memory);
    ScheduleExtends(s.queue, path, ordinary, ticket, memory);
    if Extends(s.queue, s'.queue) {
      forall c | c in s.calls
        ensures c.at < |Log(s')| && Serves(Log(s')[c.at], c)
      {
        StillServed(s, s', c);
      }
      if s'.calls != s.calls {
        var c := s'.calls[|s.calls|];
        assert Log(s')[c.at] == s'.queue[c.at - TakenCount(s)];
      }
    }
  }

  lemma StillServed(s: State, s': State, c: Call)
    requires s'.executed == s.executed && s'.worker == s.worker && Extends(s.queue, s'.queue)
    requires c.at < |Log(s)| && Serves(Log(s)[c.at], c)
    ensures c.at < |Log(s')| && Serves(Log(s')[c.at], c)
  {
    var n := TakenCount(s);
    if c.at >= n {
      assert Log(s)[c.at] == s.queue[c.at - n] && Log(s')[c.at] == s'.queue[c.at - n];
    }
  }

  /** Only a submission changes the order of requests, and it only adds at the end. */
  lemma WorkerKeepsLog(s: State, a: Action)
    requires Enabled(s, a) && !a.Submit? && Inv(s)
    ensures Log(After(s, a)) == Log(s) && After(s, a).calls == s.calls
  {
  }

  lemma StepKeepsInv(s: State, a: Action)
    requires Inv(s) && Enabled(s, a)
    ensures Inv(After(s, a))
  {
    if a.Submit? {
      SubmitKeepsInv(s, a.path, a.ordinary, a.ticket, a.memory);
    } else {
      WorkerKeepsLog(s, a);
      hide Log;
    }
  }

  predicate Initial(s: State) {
    s == State([], false, false, Absent, [], [])
  }

  /** The state after a schedule of steps, if each was possible. */
  function RunOf(s: State, actions: seq<Action>): Option<State> {
    if actions == [] then Some(s)
    else
      var before := RunOf(s, actions[..|actions| - 1]);
      if before.None? || !Enabled(before.value, actions[|actions| - 1]) then None
      else Some(After(before.value, actions[|actions| - 1]))
  }

  lemma {:induction false} RunKeepsInv(s: State, actions: seq<Action>)
    requires Initial(s) && RunOf(s, actions).Some?
    ensures Inv(RunOf(s, actions).value)
    decreases |actions|
  {
    if actions != [] {
      var n := |actions| - 1;
      RunKeepsInv(s, actions[..n]);
      hide Inv, Enabled;
      StepKeepsInv(RunOf(s, actions[..n]).value, actions[n]);
    }
  }

  /**
   Under every interleaving the queue has one request per path, and once the worker has been
   stopped it is empty and every accepted call was served by a request that was executed - one
   request, at one position of the execution order.
   */
  lemma StoppedMeansServed(s: State, actions: seq<Action>)
    requires Initial(s) && RunOf(s, actions).Some?
    ensures var now := RunOf(s, actions).value;
            && OnePerPath(now.queue)
            && (!now.running ==>
                  now.queue == [] && forall c :: c in now.calls ==> c.at < |now.executed| && Serves(now.executed[c.at], c))
  {
    RunKeepsInv(s, actions);
    var now := RunOf(s, actions).value;
    if !now.running { assert Log(now) == now.executed; }
  }

  /** After the worker has exited nothing is put in the queue any more. */
  lemma NothingQueuedAfterExit(s: State, actions: seq<Action>, path: string, ordinary: bool, ticket: Option<Ticket>, memory: bool)
    requires Initial(s) && RunOf(s, actions).Some? && RunOf(s, actions).value.worker == Exited
    ensures var now := RunOf(s, actions).value;
            now.queue == [] && AfterSubmit(now, path, ordinary, ticket, memory) == now
  {
    RunKeepsInv(s, actions);
    hide OnePerPath, Log;
  }

  /** First in, first out: what the worker has taken is a prefix of the requests in order of creation. */
  lemma TakesOldestFirst(s: State, actions: seq<Action>)
    requires Initial(s) && RunOf(s, actions).Some? && Enabled(RunOf(s, actions).value, Take)
    ensures var now := RunOf(s, actions).value; var next := After(now, Take);
            && Log(next) == Log(now) && TakenCount(now) < |Log(now)|
            && next.worker.request == Log(now)[TakenCount(now)]
            && now.executed == Log(now)[..|now.executed|]
  {
    RunKeepsInv(s, actions);
    WorkerKeepsLog(RunOf(s, actions).value, Take);
  }

  // ----- acceptance, and the end of the worker

  /** A call is accepted exactly while the worker serves, for a queued path unless its ticket differs from the queued one. */
  lemma AcceptedExactlyWhen(s: State, actions: seq<Action>, path: string, ordinary: bool, ticket: Option<Ticket>, memory: bool)
    requires Initial(s) && RunOf(s, actions).Some?
    ensures var now := RunOf(s, actions).value; var next := AfterSubmit(now, path, ordinary, ticket, memory);
            var accepted := |next.calls| > |now.calls|;
            && (accepted <==>
                  && now.running && !now.stopping
                  && (memory || exists r :: r in now.queue && r.path == path)
                  && (ticket.Some? ==>
                        forall r :: r in now.queue && r.path == path && r.adaptive.Some? ==> SameTicket(r.adaptive.value, ticket.value)))
            && (accepted ==>
                  var c := next.calls[|now.calls|];
                  && next.calls == now.calls + [c] && c == Call(path, ordinary, ticket, c.at)
                  && c.at < |Log(next)| && Serves(Log(next)[c.at], c))
  {
    RunKeepsInv(s, actions);
    var now := RunOf(s, actions).value;
    SubmitKeepsInv(now, path, ordinary, ticket, memory);
    hide RunOf, Log, Inv;
    OneFound(now.queue, path);
  }

  /** With one request per path the first is the only one. */
  lemma OneFound(queue: seq<Request>, path: string)
    requires OnePerPath(queue)
    ensures var found := Find(queue, path, 0);
            if found.Some? then queue[found.value] in queue && forall r :: r in queue && r.path == path ==> r == queue[found.value]
            else forall r :: r in queue ==> r.path != path
  {
  }

  /** Steps the worker has still to take until it has exited, once it is told to. */
  function WorkLeft(s: State): nat {
    match s.worker
    case Polling => 2 * |s.queue| + 1
    case Executing(_) => 2 * |s.queue| + 2
    case _ => 0
  }

  /**
   A stop always ends: until the worker has exited it has a step to take, each of its steps brings the
   exit nearer and nobody moves it away; then the join goes through, and the queue can be started anew.
   */
  lemma StopEnds(s: State, actions: seq<Action>, a: Action)
    requires Initial(s) && RunOf(s, actions).Some? && RunOf(s, actions).value.stopping && Enabled(RunOf(s, actions).value, a)
    ensures var now := RunOf(s, actions).value; var next := After(now, a);
            && (if WorkLeft(now) == 0 then Enabled(now, Join) && !After(now, Join).running
                else Enabled(now, Take) || Enabled(now, Finish) || Enabled(now, Exit))
            && WorkLeft(next) <= WorkLeft(now)
            && (a.Take? || a.Finish? || a.Exit? ==> WorkLeft(next) < WorkLeft(now))
            && (a.Join? || next.stopping)
            && (WorkLeft(now) == 0 ==> forall c :: c in now.calls ==> c.at < |now.executed| && Serves(now.executed[c.at], c))
  {
    RunKeepsInv(s, actions);
    var now := RunOf(s, actions).value;
    hide RunOf, OnePerPath, Serves;
    if now.worker == Exited { assert Log(now) == now.executed; }
  }

  /** A worker that is started serves until it is told to stop, and accepts nothing from then on. */
  lemma ServesUntilStopped(s: State, actions: seq<Action>)
    requires Initial(s) && RunOf(s, actions).Some?
    ensures var now := RunOf(s, actions).value; var started, stopped := After(now, Start(true)), After(now, RequestStop);
            && started.running && started.queue == now.queue && (!now.running ==> !started.stopping && started.worker == Polling)
            && (now.running ==> started == now && stopped == now.(stopping := true))
            && (!now.running ==> stopped == now)
            && forall path, ordinary, ticket, memory :: AfterSubmit(stopped, path, ordinary, ticket, memory) == stopped
  {
    RunKeepsInv(s, actions);
    hide RunOf, OnePerPath, Log, Serves, Schedule;
  }
}
