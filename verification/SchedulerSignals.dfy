/**
  The signal a suspended task resumes with, in terms of the steps taken meanwhile. What the task is told
  is kept in an account that looks at the steps only: a wakeup tells it its signal, an event Received, an
  error Broken, and the cancel of a held task Broken. A wait on a descriptor that is still on when its
  task is dispatched tells it Broken if and only if the task was cancelled.
 */
module SchedulerSignals {
  import opened Scheduler
  import opened SchedulerInvariant
  import opened SchedulerRuns
  import opened SchedulerLife
  import opened SchedulerWaits

  /** What the task was told last, whether its wait on a descriptor is on, and whether it was cancelled. */
  datatype Account = Account(told: Signal, waiting: bool, cancelled: bool)

  predicate Cancels(step: Step, t: Tid) {
    (step.DoCancel? && step.tid == t) || step.DoSweep?
  }

  ghost function Entered(s: Sched, step: Step, t: Tid, a: Account): Account {
    if Reaches(s, step, t) then Account(if step.DoEvent? then Received else Broken, false, a.cancelled)
    else if step.DoWakeup? && step.tid == t then a.(told := step.signal)
    else if Cancels(step, t) && !a.cancelled then Account(if Held(s, t) then Broken else a.told, a.waiting, true)
    else a
  }

  ghost function Accounted(s: Sched, steps: seq<Step>, t: Tid, a: Account): Account
    requires EnabledRun(s, steps)
    decreases |steps|
  {
    if steps == [] then a else Accounted(Apply(s, steps[0]), steps[1..], t, Entered(s, steps[0], t, a))
  }

  /** The account agrees with the task, which is suspended. */
  ghost predicate Agrees(s: Sched, t: Tid, a: Account) {
    && t in s.tasks && s.running != Some(t)
    && s.tasks[t].signal == a.told && s.tasks[t].cancelled == a.cancelled
    && (a.waiting <==> Listed(s, t) && HandlerOf(s, t) != NoHandler)
  }

  lemma {:induction false} SweptStays(s: Sched, order: seq<Tid>, nows: seq<Time>, t: Tid)
    requires Core(s) && s.running == None && |nows| == |order| && NowsFrom(s.clock, nows)
    requires SweepTimely(s, order, nows) && t in s.tasks && (Listed(s, t) || t in order)
    ensures var s1 := Sweep(s, order, nows);
      && Listed(s1, t) && s1.running == None
      && s1.tasks[t].signal == (if Held(s, t) then Broken else s.tasks[t].signal)
      && HandlerOf(s1, t) == (if Held(s, t) then NoHandler else HandlerOf(s, t))
    decreases |order|
  {
    if Listed(s, t) {
      SweepKeepsEntries(s, order, nows, t);
    } else {
      var s1 := Cancel(s, order[0], nows[0]);
      CancelOk(s, order[0], nows[0]);
      if order[0] == t {
        assert TaskOk(s1, t) && TaskOk(s, t);
        ListedIsOccupied(s, t);
        SweepKeepsEntries(s1, order[1..], nows[1..], t);
      } else {
        if order[0] in s.tasks {
          StepFrame(s, DoCancel(order[0], nows[0]), t);
        }
        SweptStays(s1, order[1..], nows[1..], t);
      }
    }
  }

  lemma CancelEntered(s: Sched, step: Step, t: Tid, a: Account)
    requires Core(s) && Enabled(s, step) && Orderly(s, step) && Agrees(s, t, a) && Cancels(step, t)
    ensures Agrees(Apply(s, step), t, Entered(s, step, t, a))
  {
    StepLife(s, step, t);
    assert TaskOk(s, t);
    ListedIsOccupied(s, t);
    if step.DoSweep? {
      assert t in s.tasks.Keys && t in (set u | u in step.order);
      SweptStays(s, step.order, step.nows, t);
    }
  }

  lemma StepEntered(s: Sched, step: Step, t: Tid, a: Account)
    requires Core(s) && Enabled(s, step) && Orderly(s, step) && Agrees(s, t, a)
    requires step.DoDispatch? ==> Head(s).tid != t
    ensures Agrees(Apply(s, step), t, Entered(s, step, t, a))
  {
    if Reaches(s, step, t) {
      ReachedIsAnswered(s, step, t);
      StepLife(s, step, t);
    } else if Cancels(step, t) {
      CancelEntered(s, step, t, a);
    } else if !Touches(s, step, t) {
      StepFrame(s, step, t);
    } else if step.DoWakeup? {
      ListedIsOccupied(s, t);
    }
  }

  lemma {:induction false} RunEntered(s: Sched, steps: seq<Step>, t: Tid, a: Account)
    requires Core(s) && EnabledRun(s, steps) && OrderlyRun(s, steps) && Suspended(s, steps, t) && Agrees(s, t, a)
    ensures Agrees(Run(s, steps), t, Accounted(s, steps, t, a))
    decreases |steps|
  {
    if steps != [] {
      StepEntered(s, steps[0], t, a);
      StepKeepsCore(s, steps[0]);
      RunEntered(Apply(s, steps[0]), steps[1..], t, Entered(s, steps[0], t, a));
    }
  }

  lemma DispatchTells(s: Sched, t: Tid, a: Account, now: Time)
    requires Core(s) && Agrees(s, t, a) && CanDispatch(s, now) && Head(s).tid == t
    ensures var s1 := Dispatch(s, now);
      t in s1.tasks && s1.tasks[t].signal == if a.waiting && a.cancelled then Broken else a.told
  {
    DispatchTakesOut(s, now);
  }

  /** The account of a task that the step suspends, creates, or lets run again: nothing was told since. */
  ghost predicate Suspends(s: Sched, step: Step, t: Tid, a: Account)
    requires Enabled(s, step)
  {
    match step
    case DoSpawn(tid, _, _, _) => t == tid && a == Account(Nothing, false, false)
    case DoYield(_) => s.running == Some(t) && a == Account(Me(s).signal, false, Me(s).cancelled)
    case DoHold(_) => s.running == Some(t) && !Me(s).cancelled && a == Account(Nothing, false, false)
    case DoHoldFor(_, _) => s.running == Some(t) && !Me(s).cancelled && a == Account(Nothing, false, false)
    case DoWait(_, _, _, _) => s.running == Some(t) && !Me(s).cancelled && a == Account(Nothing, true, false)
    case DoFinish(_) => s.running == Some(t) && !LastRun(Me(s)) && a == Account(Me(s).signal, false, false)
    case _ => false
  }

  lemma SuspendedAgrees(s: Sched, step: Step, t: Tid, a: Account)
    requires Core(s) && Enabled(s, step) && Timely(s, step) && Suspends(s, step, t, a)
    ensures Agrees(Apply(s, step), t, a)
  {
    if step.DoSpawn? {
      FreshNotListed(s, t, step.now + step.interval);
      assert s.running != Some(t);
    } else {
      ParkedOk(s);
      assert TaskOk(s, t);
      if !step.DoHold? {
        FreeTimeVacant(Parked(s), t, Apply(s, step).tasks[t].fire);
      }
    }
  }

  /**
    A new task, and one that yielded, held, held for a time, waited on a descriptor or starts its next run,
    resumes with what it was told last, or with Broken when its wait is still on and it was cancelled.
   */
  lemma ResumesWithWhatItWasTold(s: Sched, step: Step, steps: seq<Step>, t: Tid, a: Account, now: Time)
    requires Core(s) && Enabled(s, step) && Orderly(s, step) && Suspends(s, step, t, a)
    requires EnabledRun(Apply(s, step), steps) && OrderlyRun(Apply(s, step), steps)
    requires Suspended(Apply(s, step), steps, t)
    requires var s2 := Run(Apply(s, step), steps); CanDispatch(s2, now) && Head(s2).tid == t
    ensures var s2, b := Run(Apply(s, step), steps), Accounted(Apply(s, step), steps, t, a);
      t in s2.tasks && t in Dispatch(s2, now).tasks
      && Dispatch(s2, now).tasks[t].signal == if b.waiting && b.cancelled then Broken else b.told
  {
    var s1 := Apply(s, step);
    StepKeepsCore(s, step);
    SuspendedAgrees(s, step, t, a);
    RunKeepsCore(s1, steps);
    RunEntered(s1, steps, t, a);
    DispatchTells(Run(s1, steps), t, Accounted(s1, steps, t, a), now);
  }

  // ----- nothing but a cancel -----

  /** No event, no error and no wakeup by hand meets the task. */
  ghost predicate LeftAlone(s: Sched, steps: seq<Step>, t: Tid)
    requires EnabledRun(s, steps)
    decreases |steps|
  {
    steps != [] ==>
      && !Reaches(s, steps[0], t) && !(steps[0].DoWakeup? && steps[0].tid == t)
      && LeftAlone(Apply(s, steps[0]), steps[1..], t)
  }

  predicate EverCancels(steps: seq<Step>, t: Tid) {
    exists k :: 0 <= k < |steps| && Cancels(steps[k], t)
  }

  lemma EverCancelsOne(step: Step, steps: seq<Step>, t: Tid)
    ensures EverCancels([step] + steps, t) <==> Cancels(step, t) || EverCancels(steps, t)
  {
    if EverCancels(steps, t) {
      var k :| 0 <= k < |steps| && Cancels(steps[k], t);
      assert ([step] + steps)[k + 1] == steps[k];
    }
    if Cancels(step, t) {
      assert ([step] + steps)[0] == step;
    }
  }

  /** A listed task that is left alone keeps what it was told, and its wait. */
  lemma {:induction false} LeftAloneAccount(s: Sched, steps: seq<Step>, t: Tid, a: Account)
    requires Core(s) && EnabledRun(s, steps) && OrderlyRun(s, steps) && Suspended(s, steps, t) && Agrees(s, t, a)
    requires Listed(s, t) && LeftAlone(s, steps, t)
    ensures Accounted(s, steps, t, a) == a.(cancelled := a.cancelled || EverCancels(steps, t))
    decreases |steps|
  {
    if steps != [] {
      var s1, b := Apply(s, steps[0]), Entered(s, steps[0], t, a);
      StepKeepsCore(s, steps[0]);
      StepEntered(s, steps[0], t, a);
      ListedStays(s, steps[0], t);
      LeftAloneAccount(s1, steps[1..], t, b);
      assert steps == [steps[0]] + steps[1..];
      EverCancelsOne(steps[0], steps[1..], t);
    }
  }

  lemma ListedStays(s: Sched, step: Step, t: Tid)
    requires Core(s) && Enabled(s, step) && Orderly(s, step) && Listed(s, t) && s.running != Some(t)
    requires step.DoDispatch? ==> Head(s).tid != t
    ensures Listed(Apply(s, step), t)
  {
    if Reaches(s, step, t) {
      ReachedIsAnswered(s, step, t);
    } else if step.DoSweep? {
      SweepKeepsEntries(s, step.order, step.nows, t);
    } else if !Touches(s, step, t) {
      StepFrame(s, step, t);
    } else {
      ListedIsOccupied(s, t);
    }
  }

  /**
    A wait on a descriptor, or a hold for a time, whose task nothing meets but cancels: the wait resumes
    with Broken if and only if its task was cancelled meanwhile, and otherwise with Nothing; the hold
    for a time resumes with Nothing.
   */
  lemma UnansweredResumesWith(s: Sched, step: Step, steps: seq<Step>, t: Tid, now: Time)
    requires Core(s) && Enabled(s, step) && Orderly(s, step) && s.running == Some(t) && !Me(s).cancelled
    requires step.DoWait? || step.DoHoldFor?
    requires EnabledRun(Apply(s, step), steps) && OrderlyRun(Apply(s, step), steps)
    requires Suspended(Apply(s, step), steps, t) && LeftAlone(Apply(s, step), steps, t)
    requires var s2 := Run(Apply(s, step), steps); CanDispatch(s2, now) && Head(s2).tid == t
    ensures var s2 := Run(Apply(s, step), steps);
      && t in s2.tasks && t in Dispatch(s2, now).tasks
      && Dispatch(s2, now).tasks[t].signal == if step.DoWait? && EverCancels(steps, t) then Broken else Nothing
  {
    var a := Account(Nothing, step.DoWait?, false);
    ResumesWithWhatItWasTold(s, step, steps, t, a, now);
    SuspendedAgrees(s, step, t, a);
    StepKeepsCore(s, step);
    SuspendedIsListed(s, step, t);
    LeftAloneAccount(Apply(s, step), steps, t, a);
  }

  lemma SuspendedIsListed(s: Sched, step: Step, t: Tid)
    requires Core(s) && Enabled(s, step) && Timely(s, step) && s.running == Some(t) && !Me(s).cancelled
    requires step.DoWait? || step.DoHoldFor?
    ensures Listed(Apply(s, step), t) && Apply(s, step).tasks[t].fire == step.now + step.timeout
    ensures Apply(s, step).running != Some(t)
  {
    ParkedOk(s);
    FreeTimeVacant(Parked(s), t, step.now + step.timeout);
  }

  // ----- its time -----

  lemma {:induction false} LeftAloneKeepsTime(s: Sched, steps: seq<Step>, t: Tid)
    requires Core(s) && EnabledRun(s, steps) && OrderlyRun(s, steps) && Suspended(s, steps, t)
    requires Listed(s, t) && s.running != Some(t) && LeftAlone(s, steps, t) && !EverCancels(steps, t)
    ensures Listed(Run(s, steps), t) && Run(s, steps).tasks[t].fire == s.tasks[t].fire
    decreases |steps|
  {
    if steps != [] {
      var s1 := Apply(s, steps[0]);
      assert steps == [steps[0]] + steps[1..];
      EverCancelsOne(steps[0], steps[1..], t);
      StepKeepsCore(s, steps[0]);
      if !Touches(s, steps[0], t) {
        StepFrame(s, steps[0], t);
      }
      LeftAloneKeepsTime(s1, steps[1..], t);
    }
  }

  /** Nobody resumes such a task before its time, unless it is cancelled. */
  lemma ResumesAtItsTime(s: Sched, step: Step, steps: seq<Step>, t: Tid, now: Time)
    requires Core(s) && Enabled(s, step) && Orderly(s, step) && s.running == Some(t) && !Me(s).cancelled
    requires step.DoWait? || step.DoHoldFor?
    requires EnabledRun(Apply(s, step), steps) && OrderlyRun(Apply(s, step), steps)
    requires Suspended(Apply(s, step), steps, t) && LeftAlone(Apply(s, step), steps, t) && !EverCancels(steps, t)
    requires var s2 := Run(Apply(s, step), steps); CanDispatch(s2, now) && Head(s2).tid == t
    ensures step.now + step.timeout <= now
  {
    var s1 := Apply(s, step);
    StepKeepsCore(s, step);
    SuspendedIsListed(s, step, t);
    RunKeepsCore(s1, steps);
    LeftAloneKeepsTime(s1, steps, t);
    DispatchTakesOut(Run(s1, steps), now);
  }

  // ----- a cancelled task does not wait -----

  /** The calls that suspend return at once, with Broken, if and only if the caller is cancelled. */
  lemma CallReturnsIffCancelled(s: Sched, step: Step)
    requires Core(s) && Enabled(s, step) && Timely(s, step) && (step.DoHold? || step.DoHoldFor? || step.DoWait?)
    ensures var t, s1 := s.running.value, Apply(s, step);
      && t in s1.tasks && (s1.running == Some(t) <==> Me(s).cancelled)
      && (Me(s).cancelled ==> s1.tasks[t].signal == Broken && s1.list == s.list)
      && (!Me(s).cancelled ==> s1.running == None && (step.DoHold? <==> Held(s1, t)))
  {
    if !Me(s).cancelled {
      if step.DoHold? {
        assert TaskOk(s, s.running.value);
      } else {
        SuspendedIsListed(s, step, s.running.value);
      }
    }
  }
}
