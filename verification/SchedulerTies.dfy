/**
  What happens when a step assigns a fire time that another live task has. The ordered map holds one
  entry per time, so the task is not listed when the other one is; and when the other one is held, its
  wakeup finds that entry by its time and takes it away.
 */
module SchedulerTies {
  import opened Scheduler
  import opened SchedulerInvariant

  /** The task that the step lists, if any, and its new fire time. */
  ghost function Assigned(s: Sched, step: Step): Option<(Tid, Time)>
    requires Enabled(s, step)
  {
    match step
    case DoSpawn(tid, repeat, interval, now) => Some((tid, now + interval))
    case DoYield(now) => Some((s.running.value, now))
    case DoHoldFor(timeout, now) => if Me(s).cancelled then None else Some((s.running.value, now + timeout))
    case DoWait(fd, ev, timeout, now) => if Me(s).cancelled then None else Some((s.running.value, now + timeout))
    case DoWakeup(tid, signal, now) =>
      if s.running == Some(tid) || tid !in s.tasks then None
      else Some((tid, if s.tasks[tid].fire in s.list.timed then now else s.tasks[tid].fire))
    case DoCancel(tid, now) =>
      if tid !in s.tasks || s.tasks[tid].cancelled || s.running == Some(tid) then None
      else Some((tid, if s.tasks[tid].fire in s.list.timed then now else s.tasks[tid].fire))
    case DoFinish(now) => if LastRun(Me(s)) then None else Some((s.running.value, Me(s).fire + Me(s).interval))
    case _ => None
  }

  predicate ListsOne(step: Step) {
    !step.DoEvent? && !step.DoError? && !step.DoSweep?
  }

  /** The task is listed after the step exactly when no other listed task has that fire time. */
  lemma ListedUnlessTaken(s: Sched, step: Step)
    requires Core(s) && Enabled(s, step) && Assigned(s, step).Some?
    ensures var (t, time) := Assigned(s, step).value;
      && t in Apply(s, step).tasks && Apply(s, step).tasks[t].fire == time
      && (Listed(Apply(s, step), t) <==> forall u | u in s.tasks && u != t && Listed(s, u) :: s.tasks[u].fire != time)
  {
    var (t, time) := Assigned(s, step).value;
    assert forall u | Listed(s, u) :: s.tasks[u].fire in s.list.timed;
    if t in s.tasks {
      assert TaskOk(s, t);
      ListedIsOccupied(s, t);
    }
    if time in s.list.timed {
      var u := s.list.timed[time].tid;
      assert u in s.tasks && s.tasks[u].fire == time && Listed(s, u);
    }
  }

  /** A step is untimely when a live task already has the fire time that it assigns. */
  lemma UntimelyIsTie(s: Sched, step: Step)
    requires Core(s) && Enabled(s, step) && ListsOne(step)
    ensures !Timely(s, step) <==>
      Assigned(s, step).Some? && exists u | u in s.tasks :: u != Assigned(s, step).value.0 && s.tasks[u].fire == Assigned(s, step).value.1
  {
  }

  /** A wakeup of a task that is not listed takes the entry of the listed task with its fire time. */
  lemma WakeupTakesEntry(s: Sched, t: Tid, u: Tid, signal: Signal, now: Time)
    requires t in s.tasks && Listed(s, t) && u in s.tasks && u != t && s.running != Some(u)
    requires s.tasks[u].fire == s.tasks[t].fire && now !in s.list.timed
    ensures var s1 := Wakeup(s, u, signal, now);
      && !Listed(s1, t) && Listed(s1, u)
      && s1.list.timed[now] == Entry(u, s.list.timed[s.tasks[t].fire].handler)
      && s1.tasks[t] == s.tasks[t] && s1.running == s.running
  {
  }

  /**
    An untimely step loses its task: at once, when the other task is listed; with the other task's next
    wakeup, when that one is held, or when it is running and holds before it gets another fire time.
   */
  lemma UntimelyLoses(s: Sched, step: Step, u: Tid, signal: Signal, hold: Time, now: Time)
    requires Core(s) && Enabled(s, step) && Assigned(s, step).Some?
    requires u in s.tasks && u != Assigned(s, step).value.0 && s.tasks[u].fire == Assigned(s, step).value.1
    ensures var t, s1 := Assigned(s, step).value.0, Apply(s, step);
      && u in s1.tasks && t in s1.tasks
      && (Listed(s, u) ==> !Listed(s1, t) && s1.running != Some(t))
      && (Held(s, u) && now !in s1.list.timed ==>
            !Listed(Wakeup(s1, u, signal, now), t) && Wakeup(s1, u, signal, now).running != Some(t))
      && (s.running == Some(u) && !s1.tasks[u].cancelled && now !in s1.list.timed ==>
            var s2 := Wakeup(Hold(s1, hold), u, signal, now); !Listed(s2, t) && s2.running != Some(t))
  {
    var (t, time) := Assigned(s, step).value;
    var s1 := Apply(s, step);
    ListedUnlessTaken(s, step);
    assert TaskOk(s, u);
    if Held(s, u) && now !in s1.list.timed && Listed(s1, t) {
      WakeupTakesEntry(s1, t, u, signal, now);
    }
    if s.running == Some(u) && !s1.tasks[u].cancelled && now !in s1.list.timed {
      var s2 := Hold(s1, hold);
      assert s2.list == s1.list && s2.tasks[t] == s1.tasks[t] && s2.tasks[u].fire == s1.tasks[u].fire;
      if Listed(s2, t) {
        WakeupTakesEntry(s2, t, u, signal, now);
      }
    }
  }

  /** So a step that lists one task keeps registry and list sound if and only if it is no tie. */
  lemma StepKeepsCoreIffNoTie(s: Sched, step: Step)
    requires Core(s) && Enabled(s, step) && ListsOne(step)
    ensures Core(Apply(s, step)) <==> Timely(s, step)
  {
    if Timely(s, step) {
      StepKeepsCore(s, step);
    } else {
      UntimelyIsTie(s, step);
      var t, s1 := Assigned(s, step).value.0, Apply(s, step);
      var u :| u in s.tasks && u != t && s.tasks[u].fire == Assigned(s, step).value.1;
      ListedUnlessTaken(s, step);
      assert u in s1.tasks && s1.tasks[u].fire == s1.tasks[t].fire;
    }
  }

  // ----- steps that assign several fire times -----

  /** Registry and list are sound after every single turn of the event handler. */
  ghost predicate EventTurnsKeep(s: Sched, fd: int, ev: EventType, ids: seq<Tid>, nows: seq<Time>)
    requires |nows| == |ids|
    decreases |ids|
  {
    ids != [] ==>
      var s1 := EventTurn(s, fd, ev, ids[0], nows[0]);
      Core(s1) && EventTurnsKeep(s1, fd, ev, ids[1..], nows[1..])
  }

  lemma EventTurnTie(s: Sched, fd: int, ev: EventType, t: Tid, now: Time)
    requires t in s.tasks && !FreeTime(s, t, now)
    ensures !DistinctTimes(EventTurn(s, fd, ev, t, now))
  {
    var s1 := EventTurn(s, fd, ev, t, now);
    var u :| u in s.tasks && u != t && s.tasks[u].fire == now;
    assert u in s1.tasks && s1.tasks[u].fire == s1.tasks[t].fire;
  }

  /** They are so exactly when no turn assigns a fire time that another live task has. */
  lemma {:induction false} EventTurnsKeepIff(s: Sched, fd: int, ev: EventType, ids: seq<Tid>, nows: seq<Time>)
    requires Core(s) && s.running == None && |nows| == |ids| && NowsFrom(s.clock, nows)
    ensures EventTurnsKeep(s, fd, ev, ids, nows) <==> EventTimely(s, fd, ev, ids, nows)
    decreases |ids|
  {
    if ids != [] {
      if ids[0] in s.tasks && !FreeTime(s, ids[0], nows[0]) {
        EventTurnTie(s, fd, ev, ids[0], nows[0]);
      } else {
        EventTurnKeepsCore(s, fd, ev, ids[0], nows[0]);
        LaterNows(s.clock, nows);
        EventTurnsKeepIff(EventTurn(s, fd, ev, ids[0], nows[0]), fd, ev, ids[1..], nows[1..]);
      }
    }
  }

  /** The same for the error handler, with the waiters `todo` that have not had their turn. */
  ghost predicate ErrorTurnsKeep(s: Sched, todo: set<Tid>, ids: seq<Tid>, nows: seq<Time>)
    requires |nows| == |ids|
    decreases |ids|
  {
    ids != [] ==>
      var s1 := ErrorTurn(s, ids[0], nows[0]);
      CoreExcept(s1, todo - {ids[0]}) && ErrorTurnsKeep(s1, todo - {ids[0]}, ids[1..], nows[1..])
  }

  lemma ErrorTurnTie(s: Sched, t: Tid, now: Time)
    requires t in s.tasks && !FreeTime(s, t, now)
    ensures !DistinctTimes(ErrorTurn(s, t, now))
  {
    var s1 := ErrorTurn(s, t, now);
    var u :| u in s.tasks && u != t && s.tasks[u].fire == now;
    assert u in s1.tasks && s1.tasks[u].fire == s1.tasks[t].fire;
  }

  lemma {:induction false} ErrorTurnsKeepIff(s: Sched, todo: set<Tid>, ids: seq<Tid>, nows: seq<Time>)
    requires CoreExcept(s, todo) && |nows| == |ids| && NowsFrom(s.clock, nows)
    requires todo == (set t | t in ids && t in s.tasks) && !Twice(s, ids)
    ensures ErrorTurnsKeep(s, todo, ids, nows) <==> ErrorTimely(s, ids, nows)
    decreases |ids|
  {
    if ids != [] {
      if ids[0] in s.tasks && !FreeTime(s, ids[0], nows[0]) {
        ErrorTurnTie(s, ids[0], nows[0]);
      } else {
        LaterNows(s.clock, nows);
        ErrorTurnOk(s, todo, ids, nows);
        ErrorTurnsKeepIff(ErrorTurn(s, ids[0], nows[0]), todo - {ids[0]}, ids[1..], nows[1..]);
      }
    }
  }

  /** And for the sweep. */
  ghost predicate SweepTurnsKeep(s: Sched, order: seq<Tid>, nows: seq<Time>)
    requires |nows| == |order|
    decreases |order|
  {
    order != [] ==>
      var s1 := Cancel(s, order[0], nows[0]);
      Core(s1) && SweepTurnsKeep(s1, order[1..], nows[1..])
  }

  lemma {:induction false} SweepTurnsKeepIff(s: Sched, order: seq<Tid>, nows: seq<Time>)
    requires Core(s) && s.running == None && |nows| == |order| && NowsFrom(s.clock, nows)
    ensures SweepTurnsKeep(s, order, nows) <==> SweepTimely(s, order, nows)
    decreases |order|
  {
    if order != [] {
      StepKeepsCoreIffNoTie(s, DoCancel(order[0], nows[0]));
      if CancelTimely(s, order[0], nows[0]) {
        SweepTurnsKeepIff(Cancel(s, order[0], nows[0]), order[1..], nows[1..]);
      }
    }
  }

  /** A task that yields on another's fire time is never dispatched again: it is neither listed nor running. */
  lemma TieLosesTheTask(s: Sched, other: Tid, now: Time)
    requires Core(s) && HasRunning(s) && Listed(s, other) && s.tasks[other].fire == now
    ensures var t := s.running.value; Held(Yield(s, now), t) && !DistinctTimes(Yield(s, now))
    ensures Yield(s, now).list.timed[now].tid == other
  {
    var t, s1 := s.running.value, Yield(s, now);
    assert TaskOk(s, t);
    assert s1.tasks[t].fire == s1.tasks[other].fire && t != other;
  }
}
