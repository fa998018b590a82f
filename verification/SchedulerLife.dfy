/**
  From start to end of a task: the number of times its worker completes, in any run at all, and the
  drain of the loop after exit.
 */
module SchedulerLife {
  import opened Scheduler
  import opened SchedulerInvariant

  // ----- repeat counts -----

  /** What the repeat logic looks at is the same before and after. */
  ghost predicate SameLife(s: Sched, s1: Sched) {
    && s1.tasks.Keys == s.tasks.Keys
    && (forall t | t in s.tasks ::
          s1.tasks[t].repeat == s.tasks[t].repeat && s1.tasks[t].cancelled == s.tasks[t].cancelled)
  }

  lemma {:induction false} EventLoopLife(s: Sched, fd: int, ev: EventType, ids: seq<Tid>, nows: seq<Time>)
    requires |nows| == |ids|
    ensures SameLife(s, EventLoop(s, fd, ev, ids, nows))
    decreases |ids|
  {
    if ids != [] {
      if ids[0] !in s.tasks {
        EventLoopLife(s, fd, ev, ids[1..], nows[1..]);
      } else {
        var s1 := s.(list := Erase(s.list, ids[0], s.tasks[ids[0]].fire, fd, ev));
        EventLoopLife(Resume(s1, ids[0], Received, nows[0]), fd, ev, ids[1..], nows[1..]);
      }
    }
  }

  lemma {:induction false} ErrorLoopLife(s: Sched, ids: seq<Tid>, nows: seq<Time>)
    requires |nows| == |ids|
    ensures SameLife(s, ErrorLoop(s, ids, nows))
    decreases |ids|
  {
    if ids != [] {
      if ids[0] !in s.tasks {
        ErrorLoopLife(s, ids[1..], nows[1..]);
      } else {
        ErrorLoopLife(Resume(s, ids[0], Broken, nows[0]), ids[1..], nows[1..]);
      }
    }
  }

  lemma {:induction false} SweepLife(s: Sched, order: seq<Tid>, nows: seq<Time>)
    requires |nows| == |order|
    ensures var s1 := Sweep(s, order, nows);
      && s1.tasks.Keys == s.tasks.Keys
      && (forall t | t in s.tasks ::
            && s1.tasks[t].repeat == s.tasks[t].repeat
            && (s1.tasks[t].cancelled <==> s.tasks[t].cancelled || t in order))
    decreases |order|
  {
    if order != [] {
      SweepLife(Cancel(s, order[0], nows[0]), order[1..], nows[1..]);
    }
  }

  /** Only Spawn and the last Finish change which tasks exist, only Finish a repeat count. */
  lemma StepLife(s: Sched, step: Step, t: Tid)
    requires Enabled(s, step)
    requires !(step.DoSpawn? && step.tid == t) && !(step.DoFinish? && s.running == Some(t))
    ensures var s1 := Apply(s, step);
      && (t in s1.tasks <==> t in s.tasks)
      && (t in s.tasks ==>
            && s1.tasks[t].repeat == s.tasks[t].repeat
            && (s1.tasks[t].cancelled <==>
                  s.tasks[t].cancelled || step.DoSweep? || (step.DoCancel? && step.tid == t)))
  {
    match step
    case DoEvent(fd, ev, nows) => EventLoopLife(s, fd, ev, Search(s.list.fds, fd, ev), nows);
    case DoError(fd, nows) =>
      ErrorLoopLife(s.(list := EraseFd(s.list, s.tasks, fd)), SearchAll(s.list.fds, fd), nows);
    case DoSweep(order, nows) =>
      SweepLife(s, order, nows);
      assert t in s.tasks.Keys <==> t in (set u | u in order);
    case _ =>
  }

  /** How often the worker of `t` returns during the run. */
  ghost function Completions(s: Sched, steps: seq<Step>, t: Tid): nat
    requires EnabledRun(s, steps)
    decreases |steps|
  {
    if steps == [] then 0 else
      (if steps[0].DoFinish? && s.running == Some(t) then 1 else 0)
      + Completions(Apply(s, steps[0]), steps[1..], t)
  }

  ghost predicate NeverSpawned(steps: seq<Step>, t: Tid) {
    forall k | 0 <= k < |steps| :: !(steps[k].DoSpawn? && steps[k].tid == t)
  }

  ghost predicate NeverCancelled(steps: seq<Step>, t: Tid) {
    forall k | 0 <= k < |steps| :: !steps[k].DoSweep? && !(steps[k].DoCancel? && steps[k].tid == t)
  }

  lemma {:induction false} GoneStaysGone(s: Sched, steps: seq<Step>, t: Tid)
    requires EnabledRun(s, steps) && NeverSpawned(steps, t) && t !in s.tasks
    ensures t !in Run(s, steps).tasks && Completions(s, steps, t) == 0
    decreases |steps|
  {
    if steps != [] {
      StepLife(s, steps[0], t);
      GoneStaysGone(Apply(s, steps[0]), steps[1..], t);
    }
  }

  /**
    A task with repeat count n, never cancelled, completes its worker n times and is then removed:
    while it exists the completions so far and the count left add up to n.
   */
  lemma {:induction false} CompletesRepeatTimes(s: Sched, steps: seq<Step>, t: Tid)
    requires EnabledRun(s, steps) && NeverSpawned(steps, t) && NeverCancelled(steps, t)
    requires t in s.tasks && !s.tasks[t].cancelled && 1 <= s.tasks[t].repeat < REPEAT_INFINITE
    ensures var s1, n := Run(s, steps), Completions(s, steps, t);
      if t in s1.tasks then 1 <= s1.tasks[t].repeat && n + s1.tasks[t].repeat == s.tasks[t].repeat
      else n == s.tasks[t].repeat
    decreases |steps|
  {
    if steps != [] {
      var s1 := Apply(s, steps[0]);
      if steps[0].DoFinish? && s.running == Some(t) {
        if s.tasks[t].repeat == 1 {
          GoneStaysGone(s1, steps[1..], t);
        } else {
          CompletesRepeatTimes(s1, steps[1..], t);
        }
      } else {
        StepLife(s, steps[0], t);
        CompletesRepeatTimes(s1, steps[1..], t);
      }
    }
  }

  predicate RepeatsForEver(n: nat) {
    n == REPEAT_INFINITE || n == 0 // the count is unsigned, and 0 is counted down to the largest value
  }

  /** The infinite repeat count is never used up. */
  lemma {:induction false} InfiniteNeverEnds(s: Sched, steps: seq<Step>, t: Tid)
    requires EnabledRun(s, steps) && NeverSpawned(steps, t) && NeverCancelled(steps, t)
    requires t in s.tasks && !s.tasks[t].cancelled && RepeatsForEver(s.tasks[t].repeat)
    ensures t in Run(s, steps).tasks && RepeatsForEver(Run(s, steps).tasks[t].repeat)
    decreases |steps|
  {
    if steps != [] {
      if !(steps[0].DoFinish? && s.running == Some(t)) {
        StepLife(s, steps[0], t);
      }
      InfiniteNeverEnds(Apply(s, steps[0]), steps[1..], t);
    }
  }

  /**
    A task created with repeat count n and never cancelled: its worker completes at most n times, and
    the task is gone exactly when it has completed n times; with the largest count, and with 0, it is
    never gone. The count is the one that was asked for.
   */
  lemma CreatedCompletesRepeatTimes(s: Sched, t: Tid, n: nat, interval: int, now: Time, steps: seq<Step>)
    requires Enabled(s, DoSpawn(t, n, interval, now))
    requires var s1 := Apply(s, DoSpawn(t, n, interval, now)); EnabledRun(s1, steps)
    requires NeverSpawned(steps, t) && NeverCancelled(steps, t)
    ensures var s1 := Apply(s, DoSpawn(t, n, interval, now)); var s2, done := Run(s1, steps), Completions(s1, steps, t);
      && t in s1.tasks
      && (1 <= n < 0xFFFF_FFFF_FFFF_FFFF ==> done <= n && (t in s2.tasks <==> done < n))
      && (n == 0xFFFF_FFFF_FFFF_FFFF || n == 0 ==> t in s2.tasks)
  {
    var s1 := Apply(s, DoSpawn(t, n, interval, now));
    if 1 <= n < REPEAT_INFINITE {
      CompletesRepeatTimes(s1, steps, t);
    } else {
      InfiniteNeverEnds(s1, steps, t);
    }
  }

  // ----- intervals -----

  /** The interval that was set last, first of all the one the task was created with. */
  function LastInterval(steps: seq<Step>, t: Tid, interval: int): int {
    if steps == [] then interval
    else LastInterval(steps[1..], t, if steps[0].DoSetInterval? && steps[0].tid == t then steps[0].interval else interval)
  }

  lemma {:induction false} EventLoopIntervals(s: Sched, fd: int, ev: EventType, ids: seq<Tid>, nows: seq<Time>, t: Tid)
    requires |nows| == |ids| && t in s.tasks
    ensures var s1 := EventLoop(s, fd, ev, ids, nows); t in s1.tasks && s1.tasks[t].interval == s.tasks[t].interval
    decreases |ids|
  {
    if ids != [] {
      EventLoopIntervals(EventTurn(s, fd, ev, ids[0], nows[0]), fd, ev, ids[1..], nows[1..], t);
    }
  }

  lemma {:induction false} ErrorLoopIntervals(s: Sched, ids: seq<Tid>, nows: seq<Time>, t: Tid)
    requires |nows| == |ids| && t in s.tasks
    ensures var s1 := ErrorLoop(s, ids, nows); t in s1.tasks && s1.tasks[t].interval == s.tasks[t].interval
    decreases |ids|
  {
    if ids != [] {
      ErrorLoopIntervals(ErrorTurn(s, ids[0], nows[0]), ids[1..], nows[1..], t);
    }
  }

  lemma {:induction false} SweepIntervals(s: Sched, order: seq<Tid>, nows: seq<Time>, t: Tid)
    requires |nows| == |order| && t in s.tasks
    ensures var s1 := Sweep(s, order, nows); t in s1.tasks && s1.tasks[t].interval == s.tasks[t].interval
    decreases |order|
  {
    if order != [] {
      SweepIntervals(Cancel(s, order[0], nows[0]), order[1..], nows[1..], t);
    }
  }

  /** Only `update_interval` changes an interval, to what it was given. */
  lemma StepInterval(s: Sched, step: Step, t: Tid)
    requires Enabled(s, step) && t in s.tasks && t in Apply(s, step).tasks && !(step.DoSpawn? && step.tid == t)
    ensures Apply(s, step).tasks[t].interval ==
      if step.DoSetInterval? && step.tid == t then step.interval else s.tasks[t].interval
  {
    match step
    case DoEvent(fd, ev, nows) => EventLoopIntervals(s, fd, ev, Search(s.list.fds, fd, ev), nows, t);
    case DoError(fd, nows) =>
      ErrorLoopIntervals(s.(list := EraseFd(s.list, s.tasks, fd)), SearchAll(s.list.fds, fd), nows, t);
    case DoSweep(order, nows) => SweepIntervals(s, order, nows, t);
    case _ =>
  }

  lemma {:induction false} RunInterval(s: Sched, steps: seq<Step>, t: Tid)
    requires EnabledRun(s, steps) && NeverSpawned(steps, t) && t in s.tasks && t in Run(s, steps).tasks
    ensures Run(s, steps).tasks[t].interval == LastInterval(steps, t, s.tasks[t].interval)
    decreases |steps|
  {
    if steps != [] {
      var s1 := Apply(s, steps[0]);
      if t !in s1.tasks {
        GoneStaysGone(s1, steps[1..], t);
      } else {
        StepInterval(s, steps[0], t);
        RunInterval(s1, steps[1..], t);
      }
    }
  }

  /**
    The interval that a task was created with, or the one set last, is the gap from its fire time to the
    next when its worker returns and it runs again; and the first fire time is one interval after its
    creation. What is listed so is not dispatched before that time.
   */
  lemma RunsAgainAfterInterval(s: Sched, t: Tid, n: nat, interval: int, now: Time, steps: seq<Step>, end: Time)
    requires Core(s) && Enabled(s, DoSpawn(t, n, interval, now)) && Timely(s, DoSpawn(t, n, interval, now))
    requires var s1 := Apply(s, DoSpawn(t, n, interval, now)); EnabledRun(s1, steps) && NeverSpawned(steps, t)
    requires var s2 := Run(Apply(s, DoSpawn(t, n, interval, now)), steps);
      Core(s2) && Enabled(s2, DoFinish(end)) && Timely(s2, DoFinish(end)) && s2.running == Some(t)
    ensures var s1 := Apply(s, DoSpawn(t, n, interval, now));
      Listed(s1, t) && s1.tasks[t].fire == now + interval
    ensures var s2 := Run(Apply(s, DoSpawn(t, n, interval, now)), steps); var s3 := Apply(s2, DoFinish(end));
      t in s3.tasks ==> Listed(s3, t) && s3.tasks[t].fire == s2.tasks[t].fire + LastInterval(steps, t, interval)
  {
    var s1 := Apply(s, DoSpawn(t, n, interval, now));
    FreshNotListed(s, t, now + interval);
    var s2 := Run(s1, steps);
    RunInterval(s1, steps, t);
    FinishOk(s2, end);
    assert TaskOk(s2, t);
    if !LastRun(Me(s2)) {
      ParkedOk(s2);
      FreeTimeVacant(Parked(s2), t, s2.tasks[t].fire + s2.tasks[t].interval);
    }
  }

  /** A listed task is dispatched at its fire time or later. */
  lemma DispatchedWhenDue(s: Sched, now: Time)
    requires Core(s) && Enabled(s, DoDispatch(now))
    ensures Listed(s, Head(s).tid) && s.tasks[Head(s).tid].fire <= now
  {
    DispatchTakesOut(s, now);
  }

  // ----- exit -----

  lemma StepActive(s: Sched, step: Step)
    requires Enabled(s, step)
    ensures Apply(s, step).active <==> s.active && !step.DoExit?
  {
    match step
    case DoEvent(fd, ev, nows) => EventLoopActive(s, fd, ev, Search(s.list.fds, fd, ev), nows);
    case DoError(fd, nows) =>
      ErrorLoopActive(s.(list := EraseFd(s.list, s.tasks, fd)), SearchAll(s.list.fds, fd), nows);
    case DoSweep(order, nows) => SweepStops(s, order, nows);
    case _ =>
  }

  lemma {:induction false} EventLoopActive(s: Sched, fd: int, ev: EventType, ids: seq<Tid>, nows: seq<Time>)
    requires |nows| == |ids|
    ensures EventLoop(s, fd, ev, ids, nows).active == s.active
    decreases |ids|
  {
    if ids != [] {
      EventLoopActive(EventTurn(s, fd, ev, ids[0], nows[0]), fd, ev, ids[1..], nows[1..]);
    }
  }

  lemma {:induction false} ErrorLoopActive(s: Sched, ids: seq<Tid>, nows: seq<Time>)
    requires |nows| == |ids|
    ensures ErrorLoop(s, ids, nows).active == s.active
    decreases |ids|
  {
    if ids != [] {
      ErrorLoopActive(ErrorTurn(s, ids[0], nows[0]), ids[1..], nows[1..]);
    }
  }

  predicate EverExits(steps: seq<Step>) {
    exists k :: 0 <= k < |steps| && steps[k].DoExit?
  }

  /**
    From an active loop, the sweep over the registry may come if and only if some task has called exit,
    and an event or an error only if none has; whatever else the run does.
   */
  lemma SweepIffExited(s: Sched, steps: seq<Step>, order: seq<Tid>, nows: seq<Time>, fd: int)
    requires s.active && EnabledRun(s, steps) && Run(s, steps).running == None
    requires |nows| == |order| && NowsFrom(Run(s, steps).clock, nows) && (set t | t in order) == Run(s, steps).tasks.Keys
    ensures Enabled(Run(s, steps), DoSweep(order, nows)) <==> EverExits(steps)
    ensures forall ev, times | Enabled(Run(s, steps), DoEvent(fd, ev, times)) :: !EverExits(steps)
    ensures forall times | Enabled(Run(s, steps), DoError(fd, times)) :: !EverExits(steps)
  {
    RunActive(s, steps);
  }

  lemma {:induction false} RunActive(s: Sched, steps: seq<Step>)
    requires EnabledRun(s, steps)
    ensures Run(s, steps).active <==> s.active && !EverExits(steps)
    decreases |steps|
  {
    if steps != [] {
      StepActive(s, steps[0]);
      RunActive(Apply(s, steps[0]), steps[1..]);
      if EverExits(steps[1..]) {
        var k :| 0 <= k < |steps[1..]| && steps[1..][k].DoExit?;
        assert steps[k + 1].DoExit?;
      }
      if EverExits(steps) {
        var k :| 0 <= k < |steps| && steps[k].DoExit?;
        assert k > 0 ==> steps[1..][k - 1].DoExit?;
      }
    }
  }

  /** Once cancelled, a task completes its worker at most once more, whatever its repeat count. */
  lemma {:induction false} CancelledCompletesOnce(s: Sched, steps: seq<Step>, t: Tid)
    requires EnabledRun(s, steps) && NeverSpawned(steps, t) && t in s.tasks && s.tasks[t].cancelled
    ensures var s1, n := Run(s, steps), Completions(s, steps, t);
      if t in s1.tasks then n == 0 && s1.tasks[t].cancelled else n == 1
    decreases |steps|
  {
    if steps != [] {
      var s1 := Apply(s, steps[0]);
      if steps[0].DoFinish? && s.running == Some(t) {
        GoneStaysGone(s1, steps[1..], t);
      } else {
        StepLife(s, steps[0], t);
        CancelledCompletesOnce(s1, steps[1..], t);
      }
    }
  }

  /**
    How often a run of the worker of `t` starts: with a dispatch that does not resume it. `midway` says
    whether the worker is in the middle of a run.
   */
  ghost function Starts(s: Sched, steps: seq<Step>, t: Tid, midway: bool): nat
    requires EnabledRun(s, steps)
    decreases |steps|
  {
    if steps == [] then 0 else
      var switched := steps[0].DoDispatch? && Head(s).tid == t;
      var returned := steps[0].DoFinish? && s.running == Some(t);
      (if switched && !midway then 1 else 0)
      + Starts(Apply(s, steps[0]), steps[1..], t, switched || (midway && !returned))
  }

  lemma {:induction false} GoneNeverStarts(s: Sched, steps: seq<Step>, t: Tid, midway: bool)
    requires EnabledRun(s, steps) && NeverSpawned(steps, t) && t !in s.tasks
    ensures Starts(s, steps, t, midway) == 0
    decreases |steps|
  {
    if steps != [] {
      StepLife(s, steps[0], t);
      GoneNeverStarts(Apply(s, steps[0]), steps[1..], t, midway && !(steps[0].DoFinish? && s.running == Some(t)));
    }
  }

  /** Once cancelled, a task's worker starts at most once more, and not at all when it is midway. */
  lemma {:induction false} CancelledStartsOnce(s: Sched, steps: seq<Step>, t: Tid, midway: bool)
    requires EnabledRun(s, steps) && NeverSpawned(steps, t) && t in s.tasks && s.tasks[t].cancelled
    ensures Starts(s, steps, t, midway) <= if midway then 0 else 1
    decreases |steps|
  {
    if steps != [] {
      var s1 := Apply(s, steps[0]);
      if steps[0].DoFinish? && s.running == Some(t) {
        GoneNeverStarts(s1, steps[1..], t, false);
      } else {
        StepLife(s, steps[0], t);
        CancelledStartsOnce(s1, steps[1..], t, (steps[0].DoDispatch? && Head(s).tid == t) || midway);
      }
    }
  }

  // ----- the drain after exit -----

  /** The state the cancel sweep leaves behind, and every later one. Write timeouts are allowed. */
  ghost predicate Drained(s: Sched) {
    Core(s) && !s.active && forall t | t in s.tasks :: s.tasks[t].cancelled
  }

  lemma SweepDrains(s: Sched, step: Step)
    requires Core(s) && step.DoSweep? && Enabled(s, step) && Timely(s, step)
    ensures Drained(Apply(s, step)) && Apply(s, step).running == None
    ensures Apply(s, step).tasks.Keys == s.tasks.Keys
  {
    StepKeepsCore(s, step);
    SweepLife(s, step.order, step.nows);
    forall t | t in s.tasks
      ensures t in step.order
    {
      assert t in s.tasks.Keys;
    }
    SweepStops(s, step.order, step.nows);
  }

  lemma {:induction false} SweepStops(s: Sched, order: seq<Tid>, nows: seq<Time>)
    requires |nows| == |order|
    ensures Sweep(s, order, nows).active == s.active && Sweep(s, order, nows).running == s.running
    decreases |order|
  {
    if order != [] {
      SweepStops(Cancel(s, order[0], nows[0]), order[1..], nows[1..]);
    }
  }

  /** In a drained state nothing is held and, when nothing runs, the nearest entry is due. */
  lemma DrainedIsDue(s: Sched, now: Time)
    requires Drained(s) && s.clock <= now
    ensures forall t | t in s.tasks :: !Held(s, t)
    ensures s.running == None && s.tasks != map[] ==> CanDispatch(s, now)
  {
    forall t | t in s.tasks
      ensures !Held(s, t)
    {
      assert TaskOk(s, t);
    }
    if s.running == None && s.tasks != map[] {
      var t := SomeTask(s);
      assert TaskOk(s, t) && Listed(s, t);
      assert s.tasks[t].fire in s.list.timed.Keys;
    }
  }

  /** A cancelled worker cannot be suspended: its holds and waits return at once, with Broken. */
  lemma DrainedCallsReturn(s: Sched, fd: int, ev: EventType, timeout: int, now: Time)
    requires Drained(s) && HasRunning(s)
    ensures forall s1 | s1 in {Hold(s, now), HoldFor(s, timeout, now), Wait(s, fd, ev, timeout, now)} ::
      s1.running == s.running && HasRunning(s1) && Me(s1).signal == Broken && s1.list == s.list
  {
    var t := s.running.value;
    assert t in s.tasks && s.tasks[t].cancelled;
  }

  lemma SomeTask(s: Sched) returns (t: Tid)
    requires s.tasks != map[]
    ensures t in s.tasks
  {
    assert s.tasks.Keys != {};
    EmptyOrMember(s.tasks.Keys);
    t :| t in s.tasks.Keys;
  }

  predicate IsCall(step: Step) {
    step.DoYield? || step.DoHold? || step.DoHoldFor? || step.DoWait? || step.DoWakeup? || step.DoCancel? || step.DoExit?
    || step.DoSetInterval?
  }

  /** Steps of a drained loop: dispatches, and the at most `calls` calls the workers have left. */
  ghost predicate DrainLegal(s: Sched, steps: seq<Step>, calls: nat)
    decreases |steps|
  {
    steps != [] ==>
      && Enabled(s, steps[0]) && Timely(s, steps[0])
      && (if s.running == None then steps[0].DoDispatch? else steps[0].DoFinish? || (IsCall(steps[0]) && calls > 0))
      && DrainLegal(Apply(s, steps[0]), steps[1..], if IsCall(steps[0]) then calls - 1 else calls)
  }

  ghost function DrainRun(s: Sched, steps: seq<Step>, calls: nat): Sched
    requires DrainLegal(s, steps, calls)
    decreases |steps|
  {
    if steps == [] then s
    else DrainRun(Apply(s, steps[0]), steps[1..], if IsCall(steps[0]) then calls - 1 else calls)
  }

  ghost function Remaining(s: Sched, calls: nat): nat {
    2 * (calls + |s.tasks|) + (if s.running == None then 1 else 0)
  }

  lemma DrainStep(s: Sched, step: Step, calls: nat)
    requires Drained(s) && DrainLegal(s, [step], calls)
    ensures Drained(Apply(s, step))
    ensures Remaining(Apply(s, step), if IsCall(step) then calls - 1 else calls) < Remaining(s, calls)
  {
    StepKeepsCore(s, step);
    forall t | t in Apply(s, step).tasks
      ensures t in s.tasks
      ensures Apply(s, step).tasks[t].cancelled
    {
      if !(step.DoFinish? && s.running == Some(t)) {
        StepLife(s, step, t);
      }
    }
    if step.DoFinish? {
      assert Apply(s, step).tasks.Keys == s.tasks.Keys - {s.running.value};
      assert |s.tasks.Keys - {s.running.value}| == |s.tasks.Keys| - 1;
    } else {
      forall t
        ensures t in s.tasks <==> t in Apply(s, step).tasks
      {
        StepLife(s, step, t);
      }
      assert Apply(s, step).tasks.Keys == s.tasks.Keys;
      SameKeysSameSize(s.tasks, Apply(s, step).tasks);
    }
    if step.DoFinish? {
      SizeIsKeys(s.tasks);
      SizeIsKeys(Apply(s, step).tasks);
    }
  }

  lemma SizeIsKeys(m: map<Tid, Ctx>)
    ensures |m| == |m.Keys|
  {
  }

  lemma SameKeysSameSize(m: map<Tid, Ctx>, n: map<Tid, Ctx>)
    requires m.Keys == n.Keys
    ensures |m| == |n|
  {
    SizeIsKeys(m);
    SizeIsKeys(n);
  }

  /**
    Shutdown drains: after the sweep, and with no new tasks, a run has at most as many steps as the
    bound of its first state; and where it cannot go on, the registry is empty and `main` returns.
   */
  lemma {:induction false} DrainEnds(s: Sched, steps: seq<Step>, calls: nat, now: Time)
    requires Drained(s) && DrainLegal(s, steps, calls) && DrainRun(s, steps, calls).clock <= now
    ensures |steps| <= Remaining(s, calls)
    ensures var s1 := DrainRun(s, steps, calls);
      && Drained(s1)
      && (s1.tasks == map[] || (s1.running == None && Enabled(s1, DoDispatch(now))) || Enabled(s1, DoFinish(now)))
    decreases |steps|
  {
    if steps == [] {
      DrainedIsDue(s, now);
      if s.running == None && s.tasks != map[] {
        DispatchTakesOut(s, now);
      }
    } else {
      var rest := if IsCall(steps[0]) then calls - 1 else calls;
      assert DrainLegal(s, [steps[0]], calls) by {
        assert [steps[0]][1..] == [];
      }
      DrainStep(s, steps[0], calls);
      DrainEnds(Apply(s, steps[0]), steps[1..], rest, now);
    }
  }
}
