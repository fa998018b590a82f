/**
  The index of waiters by descriptor agrees with the timed list. Every wait that is on has its entry
  in every run. Conversely the entries for reading all stand for waits that are on, until an event or
  an error reaches a waiting task by another entry, one that a wait for writing left behind when it
  timed out. Where no wait for writing times out the same holds of the entries for writing.
 */
module SchedulerIndex {
  import opened Scheduler
  import opened SchedulerInvariant
  import opened SchedulerRuns
  import opened SchedulerLife

  /** An event or an error reaches a task by another entry than that of its wait, and leaves that one. */
  ghost predicate Diverts(s: Sched, step: Step, ev: EventType) {
    exists e :: e in s.list.fds && e.ev == ev && Reaches(s, step, e.tid) && !Drops(s, step, e)
  }

  // ----- waits have entries -----

  lemma CancelKeepsWaits(s: Sched, tid: Tid, now: Time)
    requires Core(s) && WaitsIndexed(s) && CancelTimely(s, tid, now)
    ensures WaitsIndexed(Cancel(s, tid, now))
  {
    var s1 := Cancel(s, tid, now);
    if tid in s.tasks {
      ListedIsOccupied(s, tid);
    }
    forall T | T in s1.list.timed
      ensures HandlerIndexed(s1, T)
    {
      if T in s.list.timed {
        assert HandlerIndexed(s, T);
      }
      if tid in s.tasks && s.tasks[tid].fire in s.list.timed {
        assert HandlerIndexed(s, s.tasks[tid].fire);
      }
    }
  }

  lemma {:induction false} SweepKeepsWaits(s: Sched, order: seq<Tid>, nows: seq<Time>)
    requires Core(s) && s.running == None && |nows| == |order| && NowsFrom(s.clock, nows)
    requires SweepTimely(s, order, nows) && WaitsIndexed(s)
    ensures WaitsIndexed(Sweep(s, order, nows))
    decreases |order|
  {
    if order != [] {
      CancelOk(s, order[0], nows[0]);
      CancelKeepsWaits(s, order[0], nows[0]);
      SweepKeepsWaits(Cancel(s, order[0], nows[0]), order[1..], nows[1..]);
    }
  }

  /** The wait of a task that the step does not touch keeps its entry. */
  lemma UntouchedWait(s: Sched, step: Step, t: Tid)
    requires Core(s) && Enabled(s, step) && Orderly(s, step) && WaitsIndexed(s)
    requires t in s.tasks && !Touches(s, step, t) && Listed(Apply(s, step), t)
    ensures HandlerIndexed(Apply(s, step), Apply(s, step).tasks[t].fire)
  {
    StepFrame(s, step, t);
    StepFds(s, step);
    assert HandlerIndexed(s, s.tasks[t].fire);
    TouchedByFds(s, step, t);
  }

  lemma TouchedByFds(s: Sched, step: Step, t: Tid)
    requires Core(s) && Enabled(s, step) && !Touches(s, step, t)
    ensures forall e | e in s.list.fds && e.tid == t :: !Drops(s, step, e)
  {
    match step
    case DoEvent(fd, ev, nows) => SearchOk(s.list.fds, fd, ev);
    case DoError(fd, nows) => NamedBy(s.list.fds, fd);
    case _ =>
  }

  lemma TouchedWait(s: Sched, step: Step, t: Tid)
    requires Core(s) && Enabled(s, step) && Orderly(s, step) && WaitsIndexed(s)
    requires Touches(s, step, t) && !step.DoSweep? && Listed(Apply(s, step), t)
    ensures HandlerIndexed(Apply(s, step), Apply(s, step).tasks[t].fire)
  {
    StepFds(s, step);
    if Reaches(s, step, t) {
      if t in s.tasks {
        ReachedIsAnswered(s, step, t);
      } else {
        StepLife(s, step, t);
      }
    } else {
      match step
      case DoDispatch(now) => DispatchTakesOut(s, now);
      case DoCancel(tid, now) => CancelKeepsWaits(s, tid, now);
      case DoWakeup(tid, signal, now) =>
        if tid in s.tasks {
          ListedIsOccupied(s, tid);
          if s.tasks[tid].fire in s.list.timed {
            assert HandlerIndexed(s, s.tasks[tid].fire);
          }
        }
      case _ =>
    }
  }

  /** Every wait that is on has its entry, after any step. */
  lemma StepKeepsWaits(s: Sched, step: Step)
    requires Core(s) && Enabled(s, step) && Orderly(s, step) && WaitsIndexed(s)
    ensures WaitsIndexed(Apply(s, step))
  {
    var s1 := Apply(s, step);
    StepKeepsCore(s, step);
    StepFds(s, step);
    if step.DoSweep? {
      SweepKeepsWaits(s, step.order, step.nows);
    } else {
      forall T | T in s1.list.timed
        ensures HandlerIndexed(s1, T)
      {
        var t := s1.list.timed[T].tid;
        assert t in s1.tasks && s1.tasks[t].fire == T;
        if Touches(s, step, t) {
          TouchedWait(s, step, t);
        } else {
          StepLife(s, step, t);
          UntouchedWait(s, step, t);
        }
      }
    }
  }

  /** In every reachable state each wait on a descriptor has its entry, whatever else the index holds. */
  lemma {:induction false} RunKeepsWaits(s: Sched, steps: seq<Step>)
    requires Core(s) && WaitsIndexed(s) && EnabledRun(s, steps) && OrderlyRun(s, steps)
    ensures Core(Run(s, steps)) && WaitsIndexed(Run(s, steps))
    decreases |steps|
  {
    if steps != [] {
      StepKeepsCore(s, steps[0]);
      StepKeepsWaits(s, steps[0]);
      RunKeepsWaits(Apply(s, steps[0]), steps[1..]);
    }
  }

  // ----- entries stand for waits -----

  /** An entry that is left after the step stands for a wait that is still on. */
  lemma EntryStays(s: Sched, step: Step, e: FdEntry)
    requires Core(s) && Enabled(s, step) && Orderly(s, step)
    requires e in s.list.fds && e.fd != NO_FD && WaitsOn(s, e) && !Drops(s, step, e) && !Reaches(s, step, e.tid)
    requires e.ev == Write ==> !WriteTimeout(s, step)
    ensures WaitsOn(Apply(s, step), e)
  {
    assert TaskOk(s, e.tid);
    if !Touches(s, step, e.tid) {
      StepFrame(s, step, e.tid);
    } else {
      match step
      case DoDispatch(now) => DispatchTakesOut(s, now);
      case DoWakeup(tid, signal, now) => ListedIsOccupied(s, e.tid);
      case DoCancel(tid, now) => ListedIsOccupied(s, e.tid);
      case DoSweep(order, nows) => SweepKeepsEntries(s, order, nows, e.tid);
      case _ =>
    }
  }

  lemma AddedIsWaiting(s: Sched, step: Step, e: FdEntry)
    requires Core(s) && Enabled(s, step) && Orderly(s, step) && Adds(s, step, e)
    ensures WaitsOn(Apply(s, step), e)
  {
    ParkedOk(s);
    FreeTimeVacant(Parked(s), e.tid, step.now + step.timeout);
  }

  lemma RunningHasNoEntry(s: Sched, ev: EventType)
    requires Core(s) && EntriesCurrent(s, ev)
    ensures forall e | e in s.list.fds && e.ev == ev :: s.running != Some(e.tid)
  {
    forall e | e in s.list.fds && e.ev == ev
      ensures s.running != Some(e.tid)
    {
      assert WaitsOn(s, e) && TaskOk(s, e.tid);
    }
  }

  lemma StepKeepsEntries(s: Sched, step: Step, ev: EventType)
    requires Core(s) && Enabled(s, step) && Orderly(s, step) && WaitsIndexed(s) && EntriesCurrent(s, ev)
    requires !Diverts(s, step, ev) && (ev == Write ==> !WriteTimeout(s, step))
    ensures EntriesCurrent(Apply(s, step), ev)
  {
    var s1 := Apply(s, step);
    StepFds(s, step);
    RunningHasNoEntry(s, ev);
    forall e | e in s1.list.fds && e.ev == ev
      ensures WaitsOn(s1, e)
    {
      if Adds(s, step, e) {
        AddedIsWaiting(s, step, e);
      } else {
        assert WaitsOn(s, e);
        EntryStays(s, step, e);
      }
    }
  }

  lemma DivertedIsStale(s: Sched, step: Step, e: FdEntry)
    requires Core(s) && Enabled(s, step) && Orderly(s, step) && WaitsIndexed(s)
    requires e in s.list.fds && e.tid in s.tasks && Reaches(s, step, e.tid) && !Drops(s, step, e)
    ensures e in Apply(s, step).list.fds && !WaitsOn(Apply(s, step), e)
  {
    StepFds(s, step);
    ReachedIsAnswered(s, step, e.tid);
  }

  lemma WriteTimeoutIsStale(s: Sched, now: Time)
    requires Core(s) && WaitsIndexed(s) && CanDispatch(s, now) && WriteTimeout(s, DoDispatch(now)) && s.clock <= now
    ensures var t, fd := Head(s).tid, Head(s).handler.fd;
      && t in s.tasks && Core(Dispatch(s, now)) && Dispatch(s, now).running == Some(t)
      && FdEntry(fd, Write, t) in Dispatch(s, now).list.fds && !WaitsOn(Dispatch(s, now), FdEntry(fd, Write, t))
  {
    DispatchTakesOut(s, now);
    DispatchOk(s, now);
    StepFds(s, DoDispatch(now));
    assert HandlerIndexed(s, Nearest(s.list));
  }

  // ----- main results -----

  /**
    The entries of one type stay in agreement with the list exactly when no event or error reaches a
    waiting task by another entry, and, for the entries for writing, no such wait times out.
   */
  lemma EntriesCurrentIff(s: Sched, step: Step, ev: EventType)
    requires Core(s) && Enabled(s, step) && Orderly(s, step) && WaitsIndexed(s) && EntriesCurrent(s, ev)
    ensures EntriesCurrent(Apply(s, step), ev) <==> !Diverts(s, step, ev) && !(ev == Write && WriteTimeout(s, step))
  {
    if Diverts(s, step, ev) {
      var e :| e in s.list.fds && e.ev == ev && Reaches(s, step, e.tid) && !Drops(s, step, e);
      assert WaitsOn(s, e);
      DivertedIsStale(s, step, e);
    } else if ev == Write && WriteTimeout(s, step) {
      WriteTimeoutIsStale(s, step.now);
    } else {
      StepKeepsEntries(s, step, ev);
    }
  }

  /** Where the entries of both types are current a task has one entry, and nothing is diverted. */
  lemma OneEntryPerTask(s: Sched)
    requires EntriesCurrent(s, Read) && EntriesCurrent(s, Write)
    ensures forall e, f | e in s.list.fds && f in s.list.fds && e.tid == f.tid :: e == f
  {
    forall e, f | e in s.list.fds && f in s.list.fds && e.tid == f.tid
      ensures e == f
    {
      assert (e.ev == Read || e.ev == Write) && (f.ev == Read || f.ev == Write);
      assert WaitsOn(s, e) && WaitsOn(s, f);
    }
  }

  lemma CleanIsNotDiverted(s: Sched, step: Step, ev: EventType)
    requires Inv(s) && Enabled(s, step)
    ensures !Diverts(s, step, ev) && !MeetsTwice(s, step)
  {
    OneEntryPerTask(s);
    if step.DoEvent? {
      SearchOk(s.list.fds, step.fd, step.ev);
      assert forall e | e in s.list.fds && Reaches(s, step, e.tid) :: e == FdEntry(step.fd, step.ev, e.tid);
      assert forall e | e in s.list.fds :: (e.ev == Read || e.ev == Write) && WaitsOn(s, e);
    } else if step.DoError? {
      NamedBy(s.list.fds, step.fd);
      NamedOnce(s.list.fds, step.fd);
    }
  }

  lemma NamedOnce(fds: seq<FdEntry>, fd: int)
    requires Once(fds, Read) && Once(fds, Write)
    requires forall e, f | e in fds && f in fds && e.tid == f.tid :: e == f
    ensures NoDup(SearchAll(fds, fd))
  {
    var a, b := Search(fds, fd, Read), Search(fds, fd, Write);
    SearchOk(fds, fd, Read);
    SearchOk(fds, fd, Write);
    forall i, j | 0 <= i < j < |a + b|
      ensures (a + b)[i] != (a + b)[j]
    {
      if i < |a| <= j {
        assert (a + b)[i] in a && (a + b)[j] in b;
      }
    }
  }

  /** The whole invariant survives a timely step exactly when it is not the timeout of a wait for writing. */
  lemma StepKeepsInvIff(s: Sched, step: Step)
    requires Inv(s) && Enabled(s, step) && Timely(s, step)
    ensures Inv(Apply(s, step)) <==> !WriteTimeout(s, step)
  {
    CleanIsNotDiverted(s, step, Read);
    CleanIsNotDiverted(s, step, Write);
    StepKeepsCore(s, step);
    StepKeepsWaits(s, step);
    EntriesCurrentIff(s, step, Read);
    EntriesCurrentIff(s, step, Write);
  }

  /** No event or error reaches a task that waits for reading by another entry than that of its wait. */
  ghost predicate Undiverted(s: Sched, steps: seq<Step>)
    requires EnabledRun(s, steps)
    decreases |steps|
  {
    steps != [] ==> !Diverts(s, steps[0], Read) && Undiverted(Apply(s, steps[0]), steps[1..])
  }

  lemma {:induction false} RunKeepsReads(s: Sched, steps: seq<Step>)
    requires Core(s) && WaitsIndexed(s) && EntriesCurrent(s, Read)
    requires EnabledRun(s, steps) && OrderlyRun(s, steps) && Undiverted(s, steps)
    ensures Core(Run(s, steps)) && WaitsIndexed(Run(s, steps)) && EntriesCurrent(Run(s, steps), Read)
    decreases |steps|
  {
    if steps != [] {
      StepKeepsCore(s, steps[0]);
      StepKeepsWaits(s, steps[0]);
      EntriesCurrentIff(s, steps[0], Read);
      RunKeepsReads(Apply(s, steps[0]), steps[1..]);
    }
  }

  /**
    In every reachable state a task has an entry for reading on a descriptor if and only if it is listed
    with the timeout handler of that very wait; it has at most one, and none while it runs.
   */
  lemma ReadIndexAgrees(steps: seq<Step>, t: Tid)
    requires EnabledRun(EMPTY, steps) && OrderlyRun(EMPTY, steps) && Undiverted(EMPTY, steps)
    ensures var s := Run(EMPTY, steps);
      && (forall fd | fd != NO_FD ::
            FdEntry(fd, Read, t) in s.list.fds <==> Listed(s, t) && HandlerOf(s, t) == OnTimeout(t, fd, Read))
      && (forall i, j | 0 <= i < |s.list.fds| && 0 <= j < |s.list.fds| && s.list.fds[i].ev == s.list.fds[j].ev == Read
            && s.list.fds[i].tid == s.list.fds[j].tid == t :: i == j)
      && (s.running == Some(t) ==> forall e | e in s.list.fds && e.ev == Read :: e.tid != t)
  {
    assert Core(EMPTY) && WaitsIndexed(EMPTY) && EntriesCurrent(EMPTY, Read);
    RunKeepsReads(EMPTY, steps);
    var s := Run(EMPTY, steps);
    AgreesAt(s, t, Read);
    RunningHasNoEntry(s, Read);
  }

  lemma AgreesAt(s: Sched, t: Tid, ev: EventType)
    requires Core(s) && WaitsIndexed(s) && EntriesCurrent(s, ev)
    ensures forall fd | fd != NO_FD ::
      FdEntry(fd, ev, t) in s.list.fds <==> Listed(s, t) && HandlerOf(s, t) == OnTimeout(t, fd, ev)
    ensures forall i, j | 0 <= i < |s.list.fds| && 0 <= j < |s.list.fds| && s.list.fds[i].ev == s.list.fds[j].ev == ev
              && s.list.fds[i].tid == s.list.fds[j].tid == t :: i == j
  {
    if Listed(s, t) {
      assert HandlerIndexed(s, s.tasks[t].fire);
    }
    forall i, j | 0 <= i < |s.list.fds| && 0 <= j < |s.list.fds| && s.list.fds[i].ev == s.list.fds[j].ev == ev
        && s.list.fds[i].tid == s.list.fds[j].tid == t
      ensures i == j
    {
      assert WaitsOn(s, s.list.fds[i]) && WaitsOn(s, s.list.fds[j]);
    }
  }

  /** No wait for writing times out. */
  ghost predicate NoWriteTimeout(s: Sched, steps: seq<Step>)
    requires EnabledRun(s, steps)
    decreases |steps|
  {
    steps != [] ==> !WriteTimeout(s, steps[0]) && NoWriteTimeout(Apply(s, steps[0]), steps[1..])
  }

  ghost predicate TimelyRun(s: Sched, steps: seq<Step>)
    requires EnabledRun(s, steps)
    decreases |steps|
  {
    steps != [] ==> Timely(s, steps[0]) && TimelyRun(Apply(s, steps[0]), steps[1..])
  }

  /** Without such timeouts the index agrees for both types, and no run is diverted. */
  lemma {:induction false} RunKeepsInv(s: Sched, steps: seq<Step>)
    requires Inv(s) && EnabledRun(s, steps) && TimelyRun(s, steps) && NoWriteTimeout(s, steps)
    ensures Inv(Run(s, steps)) && OrderlyRun(s, steps) && Undiverted(s, steps)
    decreases |steps|
  {
    if steps != [] {
      CleanIsNotDiverted(s, steps[0], Read);
      StepKeepsInvIff(s, steps[0]);
      RunKeepsInv(Apply(s, steps[0]), steps[1..]);
    }
  }
}
