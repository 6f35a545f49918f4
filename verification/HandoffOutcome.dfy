/**
 How a hand-over ends (src/core/compact.c:1605-1933): from its beginning to the release of the last
 lock, with opens and closes kept out by the path lock and reads coming in between.
 */
module HandoffOutcome {
  import opened Basics
  import opened Handoff

  /** What has become of the hand-over so far. */
  datatype Course =
    | Underway
    | Published
    | Done
    | Abandoned
    | PointerLost
    | RecordMissing

  /** The actions of a hand-over that decide it. */
  function CourseOf(actions: seq<Action>): Course {
    if actions == [] then Underway
    else
      match actions[|actions| - 1]
      case LockFails => Abandoned
      case Publish(NotVisible) => Abandoned
      case Publish(Visible) => Published
      case Publish(Lost) => PointerLost
      case Switch(recordMade) => if recordMade then Done else RecordMissing
      case _ => CourseOf(actions[..|actions| - 1])
  }

  /** Handle `h` is as at the beginning, or - a writer after the switch - on the new generation. */
  predicate FollowsOne(s0: State, next: Gen, writers: seq<nat>, c: Course, s: State, h: nat) {
    && h in s0.handles && h in s.handles && s.handles[h].writable == s0.handles[h].writable
    && s.handles[h].record == if c.Done? && h in writers then next else s0.handles[h].record
  }

  /** The registry, the pointer and the bindings, as far as the hand-over has come. */
  ghost predicate Follows(s0: State, next: Gen, writers: seq<nat>, c: Course, s: State) {
    && s0.pointer.Names? && s.handles.Keys == s0.handles.Keys
    && (forall h :: h in s0.handles ==> FollowsOne(s0, next, writers, c, s, h))
    && s.pointer == (match c
                     case Underway => s0.pointer
                     case Abandoned => s0.pointer
                     case PointerLost => Unreadable
                     case _ => Names(next))
    && s.superseded == (match c
                        case Underway => s0.superseded
                        case Abandoned => s0.superseded
                        case Published => s0.superseded
                        case _ => s0.superseded + {s0.pointer.generation})
  }

  /** Where the thread that hands over is, given what has become of it. */
  ghost predicate InCourse(s0: State, next: Gen, writers: seq<nat>, c: Course, s: State) {
    && Follows(s0, next, writers, c, s) && s.writers == writers && s.was == s0.pointer.generation && s.next == next
    && match s.pc
       case Idle => false
       case Locking(_) => c.Underway?
       case Publishing => c.Underway?
       case Registering => c.Published?
       case Swapping(_) => c.Done?
       case Unlocking(_) => !c.Underway? && !c.Published?
  }

  lemma BeginsUnderway(s0: State, next: Gen, writers: seq<nat>)
    requires Enabled(s0, Begin(next, writers))
    ensures InCourse(s0, next, writers, Underway, After(s0, Begin(next, writers)))
  {
  }

  lemma CourseStep(actions: seq<Action>, a: Action)
    ensures CourseOf(actions + [a]) ==
            match a
            case LockFails => Abandoned
            case Publish(NotVisible) => Abandoned
            case Publish(Visible) => Published
            case Publish(Lost) => PointerLost
            case Switch(recordMade) => if recordMade then Done else RecordMissing
            case _ => CourseOf(actions)
  {
    assert (actions + [a])[..|actions|] == actions;
  }

  lemma ReadStaysInCourse(s0: State, next: Gen, writers: seq<nat>, c: Course, s: State, a: Action)
    requires InCourse(s0, next, writers, c, s) && Enabled(s, a) && (a.BeginRead? || a.EndRead?)
    ensures InCourse(s0, next, writers, c, After(s, a))
  {
  }

  lemma LockStaysInCourse(s0: State, next: Gen, writers: seq<nat>, c: Course, s: State, a: Action)
    requires InCourse(s0, next, writers, c, s) && Enabled(s, a) && (a.LockNext? || a.SwapNext? || a.UnlockNext?)
    ensures InCourse(s0, next, writers, c, After(s, a))
  {
  }

  lemma DecisionStaysInCourse(s0: State, next: Gen, writers: seq<nat>, c: Course, s: State, a: Action)
    requires InCourse(s0, next, writers, c, s) && Enabled(s, a) && (a.LockFails? || a.Publish?)
    ensures InCourse(s0, next, writers,
                     if a.LockFails? || a.outcome.NotVisible? then Abandoned else if a.outcome.Visible? then Published else PointerLost,
                     After(s, a))
  {
  }

  lemma SwitchStaysInCourse(s0: State, next: Gen, writers: seq<nat>, c: Course, s: State, recordMade: bool)
    requires InCourse(s0, next, writers, c, s) && Enabled(s, Switch(recordMade))
    ensures InCourse(s0, next, writers, if recordMade then Done else RecordMissing, After(s, Switch(recordMade)))
  {
  }

  lemma FinishStaysInCourse(s0: State, next: Gen, writers: seq<nat>, c: Course, s: State)
    requires InCourse(s0, next, writers, c, s) && Enabled(s, Finish)
    ensures var t := After(s, Finish);
            if t.pc.Idle? then Follows(s0, next, writers, c, t) && !c.Underway? && !c.Published? else InCourse(s0, next, writers, c, t)
  {
  }

  lemma StaysInCourse(s0: State, next: Gen, writers: seq<nat>, actions: seq<Action>, a: Action, s: State)
    requires InCourse(s0, next, writers, CourseOf(actions), s) && Enabled(s, a) && !a.Finish?
    ensures InCourse(s0, next, writers, CourseOf(actions + [a]), After(s, a))
  {
    CourseStep(actions, a);
    assert !a.Open? && !a.Close? && !a.Begin? && !a.Resolve?;
    hide InCourse, Enabled, After, CourseOf;
    if a.BeginRead? || a.EndRead? {
      ReadStaysInCourse(s0, next, writers, CourseOf(actions), s, a);
    } else if a.LockNext? || a.SwapNext? || a.UnlockNext? {
      LockStaysInCourse(s0, next, writers, CourseOf(actions), s, a);
    } else if a.LockFails? || a.Publish? {
      DecisionStaysInCourse(s0, next, writers, CourseOf(actions), s, a);
    } else {
      SwitchStaysInCourse(s0, next, writers, CourseOf(actions), s, a.recordMade);
    }
  }

  /** The actions of one hand-over, the last of which - and no earlier one - makes the thread idle. */
  ghost predicate OneHandOver(s: State, actions: seq<Action>) {
    && RunOf(s, actions).Some? && RunOf(s, actions).value.pc.Idle?
    && forall n :: 0 <= n < |actions| ==> RunOf(s, actions[..n]).Some? && !RunOf(s, actions[..n]).value.pc.Idle?
  }

  lemma {:induction false} CourseOfRun(s0: State, next: Gen, writers: seq<nat>, actions: seq<Action>, n: nat)
    requires Enabled(s0, Begin(next, writers)) && n < |actions| && OneHandOver(After(s0, Begin(next, writers)), actions)
    ensures RunOf(After(s0, Begin(next, writers)), actions[..n]).Some?
    ensures InCourse(s0, next, writers, CourseOf(actions[..n]), RunOf(After(s0, Begin(next, writers)), actions[..n]).value)
    decreases n
  {
    var s := After(s0, Begin(next, writers));
    if n == 0 {
      assert actions[..0] == [];
      BeginsUnderway(s0, next, writers);
    } else {
      CourseOfRun(s0, next, writers, actions, n - 1);
      assert actions[..n][..n - 1] == actions[..n - 1] && actions[..n] == actions[..n - 1] + [actions[n - 1]];
      var before := RunOf(s, actions[..n - 1]).value;
      hide InCourse, Enabled, After, CourseOf;
      if actions[n - 1].Finish? {
        FinishStaysInCourse(s0, next, writers, CourseOf(actions[..n - 1]), before);
        CourseStep(actions[..n - 1], Finish);
      } else {
        StaysInCourse(s0, next, writers, actions[..n - 1], actions[n - 1], before);
      }
    }
  }

  /** The hand-over ends as its course says. */
  lemma EndFollows(s0: State, next: Gen, writers: seq<nat>, actions: seq<Action>)
    requires Enabled(s0, Begin(next, writers)) && OneHandOver(After(s0, Begin(next, writers)), actions)
    ensures var c := CourseOf(actions);
            !c.Underway? && !c.Published? && Follows(s0, next, writers, c, RunOf(After(s0, Begin(next, writers)), actions).value)
  {
    var s := After(s0, Begin(next, writers));
    assert actions != [] by { if actions == [] { BeginsUnderway(s0, next, writers); } }
    var n := |actions| - 1;
    CourseOfRun(s0, next, writers, actions, n);
    assert actions == actions[..n] + [actions[n]];
    var before := RunOf(s, actions[..n]).value;
    var last := After(before, actions[n]);
    hide Enabled, After, CourseOf, InCourse, Follows;
    CourseStep(actions[..n], actions[n]);
    if actions[n].Finish? {
      FinishStaysInCourse(s0, next, writers, CourseOf(actions[..n]), before);
    } else {
      StaysInCourse(s0, next, writers, actions[..n], actions[n], before);
      NotIdle(s0, next, writers, CourseOf(actions), last);
    }
  }

  lemma NotIdle(s0: State, next: Gen, writers: seq<nat>, c: Course, s: State)
    requires InCourse(s0, next, writers, c, s)
    ensures !s.pc.Idle?
  {
  }

  /** All parts of handle `h` are as they were. */
  predicate SameParts(s0: State, s: State, h: nat) {
    h in s0.handles && h in s.handles
    && s.handles[h] == s0.handles[h].(readers := s.handles[h].readers, locked := s.handles[h].locked)
  }

  /**
   In every run, a hand-over that began and is back at idle has one of four ends.  Switched: every
   writer is on the new generation with all its parts, the new one is named and takes writes, the old
   one does not.  Abandoned, before the pointer moved: nothing has changed.  Lost, or without a new
   record: the old generation takes no more writes.  Whoever did not move is as before, in all parts.
   */
  lemma HandOverEnds(s: State, history: seq<Action>, next: Gen, writers: seq<nat>, actions: seq<Action>)
    requires Initial(s) && RunOf(s, history).Some? && Enabled(RunOf(s, history).value, Begin(next, writers))
    requires OneHandOver(After(RunOf(s, history).value, Begin(next, writers)), actions)
    ensures var s0 := RunOf(s, history).value; var end := RunOf(After(s0, Begin(next, writers)), actions).value;
            var switched, abandoned := CourseOf(actions).Done?, CourseOf(actions).Abandoned?;
            && end.handles.Keys == s0.handles.Keys
            && (forall h :: h in end.handles ==> !end.handles[h].locked)
            && (switched ==>
                  && end.pointer == Names(next) && next !in end.superseded && s0.pointer.generation in end.superseded
                  && forall h :: h in writers ==> h in end.handles && Uniform(end.handles[h]) && end.handles[h].record == next)
            && (abandoned ==> end.pointer == s0.pointer && end.superseded == s0.superseded)
            && (!switched && !abandoned ==> s0.pointer.generation in end.superseded && end.pointer != s0.pointer)
            && (forall h :: h in s0.handles && !(switched && h in writers) ==> SameParts(s0, end, h))
  {
    RunKeepsInv(s, history);
    var s0 := RunOf(s, history).value;
    EndFollows(s0, next, writers, actions);
    var begun := After(s0, Begin(next, writers));
    StepKeepsInv(s0, Begin(next, writers));
    InvFrom(begun, actions);
    var end := RunOf(begun, actions).value;
    forall h | h in s0.handles
      ensures h in end.handles && FollowsOne(s0, next, writers, CourseOf(actions), end, h)
      ensures !end.handles[h].locked && Uniform(end.handles[h]) && Uniform(s0.handles[h])
    {
      IdleIsUniform(s0, h);
      assert FollowsOne(s0, next, writers, CourseOf(actions), end, h);
      IdleIsUniform(end, h);
    }
    assert forall h :: h in writers ==> h in s0.handles;
    assert next !in s0.superseded && next != s0.pointer.generation;
    hide Enabled, After, Inv, RunOf, CourseOf, Initial;
  }

  lemma IdleIsUniform(s: State, h: nat)
    requires Inv(s) && s.pc.Idle? && h in s.handles
    ensures Uniform(s.handles[h]) && !s.handles[h].locked
  {
  }

  lemma {:induction false} InvFrom(s: State, actions: seq<Action>)
    requires Inv(s) && RunOf(s, actions).Some?
    ensures Inv(RunOf(s, actions).value)
    decreases |actions|
  {
    if actions != [] {
      var n := |actions| - 1;
      InvFrom(s, actions[..n]);
      hide Enabled, After, Inv;
      StepKeepsInv(RunOf(s, actions[..n]).value, actions[n]);
    }
  }

  /** The step that takes the hand-over on, if it does not wait for a reader. */
  function NextStep(s: State): Action {
    match s.pc
    case Locking(done) => if done < |s.writers| then LockNext else Finish
    case Publishing => Publish(Visible)
    case Registering => Switch(true)
    case Swapping(done) => if done < |s.writers| then SwapNext else Finish
    case Unlocking(left) => if left > 0 then UnlockNext else Finish
    case Idle => Finish
  }

  /**
   A hand-over never gets stuck: its next step is possible, or it waits for the lock of a writer whose
   readers can let go.
   */
  lemma NeverStuck(s: State, actions: seq<Action>)
    requires Initial(s) && RunOf(s, actions).Some? && !RunOf(s, actions).value.pc.Idle?
    ensures var now := RunOf(s, actions).value;
            Enabled(now, NextStep(now))
            || (now.pc.Locking? && now.pc.done < |now.writers| && Enabled(now, EndRead(now.writers[now.pc.done])))
  {
    RunKeepsInv(s, actions);
    WritersThere(RunOf(s, actions).value);
    hide RunOf, Inv, Initial, Enabled, NextStep;
    CanGoOn(RunOf(s, actions).value);
  }

  lemma CanGoOn(s: State)
    requires !s.pc.Idle? && forall i :: 0 <= i < |s.writers| ==> s.writers[i] in s.handles
    requires (s.pc.Locking? ==> s.pc.done <= |s.writers|) && (s.pc.Swapping? ==> s.pc.done <= |s.writers|)
    requires s.pc.Unlocking? ==> s.pc.left <= |s.writers|
    ensures Enabled(s, NextStep(s)) || (s.pc.Locking? && s.pc.done < |s.writers| && Enabled(s, EndRead(s.writers[s.pc.done])))
  {
  }

  lemma WritersThere(s: State)
    requires LockInv(s)
    ensures forall i :: 0 <= i < |s.writers| ==> s.writers[i] in s.handles
    ensures (s.pc.Locking? ==> s.pc.done <= |s.writers|) && (s.pc.Swapping? ==> s.pc.done <= |s.writers|)
    ensures s.pc.Unlocking? ==> s.pc.left <= |s.writers|
  {
  }

  /** A reader keeps the hand-over out while it reads, and leaves everything as it was. */
  lemma ReadersKeepOut(s: State, h: nat)
    requires Enabled(s, BeginRead(h))
    ensures var reading := After(s, BeginRead(h));
            && Enabled(reading, EndRead(h)) && After(reading, EndRead(h)) == s
            && (reading.pc.Locking? && reading.pc.done < |reading.writers| && reading.writers[reading.pc.done] == h ==>
                  !Enabled(reading, LockNext) && Enabled(reading, LockFails))
            && !Enabled(reading, Close(h))
  {
    var reading := After(s, BeginRead(h));
    assert After(reading, EndRead(h)).handles == s.handles;
  }
}
