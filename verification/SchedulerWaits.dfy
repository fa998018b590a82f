/**
  How a suspended task goes on: when a wait reports Received, and what wakes a task that is held. Both
  in runs in which waits for writing may time out, and exact: a stale index entry does answer a wait
  that is not its own, and does wake a held task.
 */
module SchedulerWaits {
  import opened Scheduler
  import opened SchedulerInvariant
  import opened SchedulerRuns
  import opened SchedulerIndex

  // ----- a wait reports Received only after an event -----

  /** The steps that may make the wait of `t` end with Received. */
  predicate Answers(step: Step, t: Tid, fd: int, ev: EventType) {
    || (step.DoEvent? && step.fd == fd && step.ev == ev)
    || (step.DoWakeup? && step.tid == t && step.signal == Received)
  }

  /** Every entry that names the task is of this one wait. */
  ghost predicate OnlyNamedBy(s: Sched, t: Tid, fd: int, ev: EventType) {
    forall e | e in s.list.fds && e.tid == t :: e.fd == fd && e.ev == ev
  }

  ghost predicate Unanswered(s: Sched, t: Tid, fd: int, ev: EventType) {
    && Listed(s, t) && s.running != Some(t) && s.tasks[t].signal != Received
    && (HandlerOf(s, t) == NoHandler || HandlerOf(s, t) == OnTimeout(t, fd, ev))
    && OnlyNamedBy(s, t, fd, ev) && (forall e | e in s.list.fds :: e.fd != NO_FD)
  }

  lemma UnansweredIsNotReached(s: Sched, step: Step, t: Tid, fd: int, ev: EventType)
    requires Enabled(s, step) && OnlyNamedBy(s, t, fd, ev) && step.DoEvent? && !Answers(step, t, fd, ev)
    ensures !Reaches(s, step, t)
  {
    SearchOk(s.list.fds, step.fd, step.ev);
  }

  lemma UnansweredStep(s: Sched, step: Step, t: Tid, fd: int, ev: EventType)
    requires Core(s) && Enabled(s, step) && Orderly(s, step)
    requires Unanswered(s, t, fd, ev) && !Answers(step, t, fd, ev)
    requires step.DoDispatch? ==> Head(s).tid != t
    ensures Unanswered(Apply(s, step), t, fd, ev)
  {
    StepFds(s, step);
    assert TaskOk(s, t);
    if !Touches(s, step, t) {
      StepFrame(s, step, t);
    } else if Reaches(s, step, t) {
      if step.DoEvent? {
        UnansweredIsNotReached(s, step, t, fd, ev);
      }
      ReachedIsAnswered(s, step, t);
    } else {
      match step
      case DoWakeup(tid, signal, now) => ListedIsOccupied(s, t);
      case DoCancel(tid, now) => ListedIsOccupied(s, t);
      case DoSweep(order, nows) => SweepKeepsEntries(s, order, nows, t);
      case _ =>
    }
  }

  /** The run does not switch to `t`. */
  ghost predicate Suspended(s: Sched, steps: seq<Step>, t: Tid)
    requires EnabledRun(s, steps)
    decreases |steps|
  {
    steps != [] ==>
      (steps[0].DoDispatch? ==> Head(s).tid != t) && Suspended(Apply(s, steps[0]), steps[1..], t)
  }

  lemma {:induction false} UnansweredRun(s: Sched, steps: seq<Step>, t: Tid, fd: int, ev: EventType)
    requires Core(s) && EnabledRun(s, steps) && OrderlyRun(s, steps) && Suspended(s, steps, t)
    requires Unanswered(s, t, fd, ev) && forall k | 0 <= k < |steps| :: !Answers(steps[k], t, fd, ev)
    ensures Unanswered(Run(s, steps), t, fd, ev)
    decreases |steps|
  {
    if steps != [] {
      UnansweredStep(s, steps[0], t, fd, ev);
      StepKeepsCore(s, steps[0]);
      UnansweredRun(Apply(s, steps[0]), steps[1..], t, fd, ev);
    }
  }

  lemma WaitIsUnanswered(s: Sched, fd: int, ev: EventType, timeout: int, now: Time)
    requires Core(s) && HasRunning(s) && s.clock <= now && !Me(s).cancelled
    requires FreeTime(s, s.running.value, now + timeout)
    requires OnlyNamedBy(s, s.running.value, fd, ev) && forall e | e in s.list.fds :: e.fd != NO_FD
    ensures Unanswered(Wait(s, fd, ev, timeout, now), s.running.value, fd, ev)
  {
    ParkedOk(s);
    FreeTimeVacant(Parked(s), s.running.value, now + timeout);
  }

  /**
    A wait of a task that the index names for no other wait reports Received only if, while the task
    was suspended, that very event occurred on that very descriptor (or somebody woke it by hand).
   */
  lemma ReceivedOnlyAfterEvent(s: Sched, wait: Step, steps: seq<Step>, now: Time)
    requires Core(s) && wait.DoWait? && Enabled(s, wait) && Timely(s, wait) && !Me(s).cancelled
    requires OnlyNamedBy(s, s.running.value, wait.fd, wait.ev) && forall e | e in s.list.fds :: e.fd != NO_FD
    requires EnabledRun(Apply(s, wait), steps) && OrderlyRun(Apply(s, wait), steps)
    requires Suspended(Apply(s, wait), steps, s.running.value)
    requires var s2 := Run(Apply(s, wait), steps); CanDispatch(s2, now) && Head(s2).tid == s.running.value
    ensures var t, s2 := s.running.value, Run(Apply(s, wait), steps);
      && t in s2.tasks
      && (Dispatch(s2, now).tasks[t].signal == Received ==>
            exists k :: 0 <= k < |steps| && Answers(steps[k], t, wait.fd, wait.ev))
  {
    var t, s1 := s.running.value, Apply(s, wait);
    StepKeepsCore(s, wait);
    RunKeepsCore(s1, steps);
    var s2 := Run(s1, steps);
    DispatchTakesOut(s2, now);
    if forall k | 0 <= k < |steps| :: !Answers(steps[k], t, wait.fd, wait.ev) {
      WaitIsUnanswered(s, wait.fd, wait.ev, wait.timeout, wait.now);
      UnansweredRun(s1, steps, t, wait.fd, wait.ev);
    }
  }

  /** Any other entry that names the task is one too many: an event on it does answer the wait. */
  lemma OtherEntryAnswers(s: Sched, wait: Step, e: FdEntry, event: Step)
    requires Core(s) && wait.DoWait? && Enabled(s, wait) && Timely(s, wait) && !Me(s).cancelled
    requires e in s.list.fds && e.tid == s.running.value && !Answers(DoEvent(e.fd, e.ev, []), e.tid, wait.fd, wait.ev)
    requires event.DoEvent? && event.fd == e.fd && event.ev == e.ev
    requires Enabled(Apply(s, wait), event) && Timely(Apply(s, wait), event)
    ensures !Answers(event, e.tid, wait.fd, wait.ev)
    ensures IsAnswered(Apply(Apply(s, wait), event), e.tid, Received)
  {
    var s1 := Apply(s, wait);
    StepKeepsCore(s, wait);
    SearchOk(s1.list.fds, e.fd, e.ev);
    assert FdEntry(e.fd, e.ev, e.tid) in s1.list.fds;
    ReachedIsAnswered(s1, event, e.tid);
  }

  // ----- a held task is woken by name, or by an entry that names it -----

  /** The steps that name a task to wake it; the sweep names them all. */
  predicate Wakes(s: Sched, step: Step, t: Tid) {
    || (step.DoWakeup? && step.tid == t) || (step.DoCancel? && step.tid == t) || step.DoSweep?
    || Reaches(s, step, t)
  }

  predicate SameButInterval(c: Ctx, d: Ctx) {
    c == d.(interval := c.interval)
  }

  /** Waking is the only thing that happens to a held task, and it always ends the hold. */
  lemma HeldIffNotWoken(s: Sched, step: Step, t: Tid)
    requires Core(s) && Enabled(s, step) && Orderly(s, step) && Held(s, t)
    ensures t in Apply(s, step).tasks
    ensures Held(Apply(s, step), t) <==> !Wakes(s, step, t)
    ensures !Wakes(s, step, t) ==> SameButInterval(Apply(s, step).tasks[t], s.tasks[t])
  {
    assert TaskOk(s, t);
    if Reaches(s, step, t) {
      ReachedIsAnswered(s, step, t);
    } else if !Wakes(s, step, t) && !step.DoSetInterval? {
      HeldIsUntouched(s, step, t);
      StepFrame(s, step, t);
    } else {
      ListedIsOccupied(s, t);
      match step
      case DoSweep(order, nows) =>
        assert t in s.tasks.Keys && t in (set u | u in order);
        SweepWakes(s, order, nows, t);
      case _ =>
    }
  }

  lemma HeldIsUntouched(s: Sched, step: Step, t: Tid)
    requires Core(s) && Enabled(s, step) && Held(s, t) && !Wakes(s, step, t) && !step.DoSetInterval?
    ensures !Touches(s, step, t)
  {
    if step.DoDispatch? {
      DispatchTakesOut(s, step.now);
    }
  }

  lemma {:induction false} SweepWakes(s: Sched, order: seq<Tid>, nows: seq<Time>, t: Tid)
    requires Core(s) && s.running == None && |nows| == |order| && NowsFrom(s.clock, nows)
    requires SweepTimely(s, order, nows) && t in s.tasks && t in order
    ensures Listed(Sweep(s, order, nows), t)
    decreases |order|
  {
    var s1 := Cancel(s, order[0], nows[0]);
    CancelOk(s, order[0], nows[0]);
    if order[0] == t {
      assert TaskOk(s1, t) && s1.tasks[t].cancelled;
      SweepKeepsEntries(s1, order[1..], nows[1..], t);
    } else {
      SweepWakes(s1, order[1..], nows[1..], t);
    }
  }

  ghost predicate Unwoken(s: Sched, steps: seq<Step>, t: Tid)
    requires EnabledRun(s, steps)
    decreases |steps|
  {
    steps != [] ==> !Wakes(s, steps[0], t) && Unwoken(Apply(s, steps[0]), steps[1..], t)
  }

  /**
    A held task stays held, with its signal, through every run in which nothing wakes it. So the caller
    of the task queue's `sync` goes on only after the wakeup that its own job does last, or one by
    hand, or a cancel, or an event or error of a descriptor that still names it.
   */
  lemma {:induction false} HeldUntilWoken(s: Sched, steps: seq<Step>, t: Tid)
    requires Core(s) && EnabledRun(s, steps) && OrderlyRun(s, steps) && Held(s, t) && Unwoken(s, steps, t)
    ensures Held(Run(s, steps), t) && SameButInterval(Run(s, steps).tasks[t], s.tasks[t])
    decreases |steps|
  {
    if steps != [] {
      HeldIffNotWoken(s, steps[0], t);
      StepKeepsCore(s, steps[0]);
      HeldUntilWoken(Apply(s, steps[0]), steps[1..], t);
    }
  }

  /** The index names no held task as long as its entries are current, so no descriptor wakes one. */
  lemma HeldIsNotNamed(s: Sched, step: Step, t: Tid)
    requires Inv(s) && Enabled(s, step) && Held(s, t)
    ensures !Reaches(s, step, t)
  {
    assert forall e | e in s.list.fds :: (e.ev == Read || e.ev == Write) && WaitsOn(s, e);
    if step.DoEvent? {
      SearchOk(s.list.fds, step.fd, step.ev);
    } else if step.DoError? {
      NamedBy(s.list.fds, step.fd);
    }
  }

  // ----- a wait for writing that timed out -----

  /**
    After the timeout of a wait for writing its task is named still. When it then holds, the next
    event of that kind on the descriptor ends the hold with Received.
   */
  lemma StaleWriteEntryWakes(s: Sched, now: Time, hold: Time, event: Step)
    requires Core(s) && WaitsIndexed(s) && CanDispatch(s, now) && WriteTimeout(s, DoDispatch(now))
    requires s.clock <= now <= hold && Head(s).tid in s.tasks && !s.tasks[Head(s).tid].cancelled
    requires var held := Hold(Dispatch(s, now), hold);
      event.DoEvent? && event.fd == Head(s).handler.fd && event.ev == Write && Enabled(held, event) && Timely(held, event)
    ensures var t, held := Head(s).tid, Hold(Dispatch(s, now), hold);
      Held(held, t) && Reaches(held, event, t) && IsAnswered(Apply(held, event), t, Received)
  {
    var t, s1 := Head(s).tid, Dispatch(s, now);
    DispatchTakesOut(s, now);
    WriteTimeoutIsStale(s, now);
    assert TaskOk(s1, t);
    HoldOk(s1, hold);
    var held := Hold(s1, hold);
    SearchOk(held.list.fds, event.fd, Write);
    assert FdEntry(event.fd, Write, t) in held.list.fds;
    ReachedIsAnswered(held, event, t);
  }
}
