/**
  What a step leaves alone, what an event or an error does to the tasks it finds in the index, and what
  a step does to the index itself. Waits for writing may time out.
 */
module SchedulerRuns {
  import opened Scheduler
  import opened SchedulerInvariant

  // ----- what a step leaves alone -----

  ghost predicate SameTask(s: Sched, s1: Sched, t: Tid) {
    && t in s.tasks && t in s1.tasks && s.tasks[t] == s1.tasks[t]
    && (s.running == Some(t)) == (s1.running == Some(t))
    && Listed(s, t) == Listed(s1, t)
    && (Listed(s, t) ==> s.list.timed[s.tasks[t].fire] == s1.list.timed[s.tasks[t].fire])
  }

  /** The tasks whose context or entry the step may change. */
  ghost predicate Touches(s: Sched, step: Step, t: Tid)
    requires Enabled(s, step)
  {
    match step
    case DoSpawn(tid, repeat, interval, now) => t == tid
    case DoDispatch(now) => t == Head(s).tid
    case DoYield(now) => t == s.running.value
    case DoHold(now) => t == s.running.value
    case DoHoldFor(timeout, now) => t == s.running.value
    case DoWait(fd, ev, timeout, now) => t == s.running.value
    case DoWakeup(tid, signal, now) => t == tid && s.running != Some(t)
    case DoCancel(tid, now) => t == tid
    case DoExit(now) => false
    case DoSetInterval(tid, interval, now) => t == tid
    case DoFinish(now) => t == s.running.value
    case DoEvent(fd, ev, nows) => t in Search(s.list.fds, fd, ev)
    case DoError(fd, nows) => t in SearchAll(s.list.fds, fd)
    case DoSweep(order, nows) => true
  }

  /** The turn of one waiter leaves every other task alone. */
  lemma EventTurnFrame(s: Sched, fd: int, ev: EventType, u: Tid, now: Time, t: Tid)
    requires Core(s) && t in s.tasks && t != u && (u in s.tasks ==> FreeTime(s, u, now))
    ensures SameTask(s, EventTurn(s, fd, ev, u, now), t)
  {
  }

  lemma {:induction false} EventLoopFrame(s: Sched, fd: int, ev: EventType, ids: seq<Tid>, nows: seq<Time>, t: Tid)
    requires Core(s) && s.running == None && |nows| == |ids| && NowsFrom(s.clock, nows)
    requires EventTimely(s, fd, ev, ids, nows) && t in s.tasks && t !in ids
    ensures SameTask(s, EventLoop(s, fd, ev, ids, nows), t)
    decreases |ids|
  {
    if ids != [] {
      EventTurnKeepsCore(s, fd, ev, ids[0], nows[0]);
      EventTurnFrame(s, fd, ev, ids[0], nows[0], t);
      LaterNows(s.clock, nows);
      EventLoopFrame(EventTurn(s, fd, ev, ids[0], nows[0]), fd, ev, ids[1..], nows[1..], t);
    }
  }

  lemma {:induction false} ErrorLoopFrame(s: Sched, ids: seq<Tid>, nows: seq<Time>, t: Tid)
    requires |nows| == |ids| && ErrorTimely(s, ids, nows) && t in s.tasks && t !in ids
    ensures SameTask(s, ErrorLoop(s, ids, nows), t)
    decreases |ids|
  {
    if ids != [] {
      ErrorLoopFrame(ErrorTurn(s, ids[0], nows[0]), ids[1..], nows[1..], t);
    }
  }

  lemma EraseFdFrame(s: Sched, fd: int, t: Tid)
    requires Core(s) && t in s.tasks && t !in SearchAll(s.list.fds, fd)
    ensures SameTask(s, s.(list := EraseFd(s.list, s.tasks, fd)), t)
  {
    NamedBy(s.list.fds, fd);
    UnlistOk(s.list.timed, s.list.fds, s.tasks, fd);
    assert forall e | e in s.list.fds && e.fd == fd && e.tid in s.tasks :: s.tasks[e.tid].fire != s.tasks[t].fire;
  }

  /** The steps of the running task, and of whoever wakes or cancels another. */
  lemma CallFrame(s: Sched, step: Step, t: Tid)
    requires Core(s) && Enabled(s, step) && Timely(s, step) && t in s.tasks && !Touches(s, step, t)
    requires !step.DoDispatch? && !step.DoEvent? && !step.DoError?
    ensures SameTask(s, Apply(s, step), t)
  {
  }

  lemma DispatchFrame(s: Sched, now: Time, t: Tid)
    requires Core(s) && CanDispatch(s, now) && Head(s).tid in s.tasks && t in s.tasks && t != Head(s).tid
    ensures SameTask(s, Dispatch(s, now), t)
  {
    DispatchTakesOut(s, now);
  }

  /** Only the tasks a step is about are changed by it. */
  lemma StepFrame(s: Sched, step: Step, t: Tid)
    requires Core(s) && Enabled(s, step) && Timely(s, step)
    requires t in s.tasks && !Touches(s, step, t)
    ensures SameTask(s, Apply(s, step), t)
  {
    match step
    case DoDispatch(now) => DispatchFrame(s, now, t);
    case DoEvent(fd, ev, nows) => EventLoopFrame(s, fd, ev, Search(s.list.fds, fd, ev), nows, t);
    case DoError(fd, nows) =>
      EraseFdFrame(s, fd, t);
      ErrorLoopFrame(s.(list := EraseFd(s.list, s.tasks, fd)), SearchAll(s.list.fds, fd), nows, t);
    case _ => CallFrame(s, step, t);
  }

  // ----- what an event or an error does to the tasks it finds -----

  function HandlerOf(s: Sched, t: Tid): Handler
    requires Listed(s, t)
  {
    s.list.timed[s.tasks[t].fire].handler
  }

  /** Listed for immediate resumption, waiting for nothing, with this signal. */
  predicate IsAnswered(s: Sched, t: Tid, signal: Signal) {
    Listed(s, t) && HandlerOf(s, t) == NoHandler && s.tasks[t].signal == signal && s.running != Some(t)
  }

  lemma {:induction false} EventLoopAnswers(s: Sched, fd: int, ev: EventType, ids: seq<Tid>, nows: seq<Time>, t: Tid)
    requires Core(s) && s.running == None && |nows| == |ids| && NowsFrom(s.clock, nows)
    requires EventTimely(s, fd, ev, ids, nows) && t in s.tasks && t in ids
    ensures IsAnswered(EventLoop(s, fd, ev, ids, nows), t, Received)
    decreases |ids|
  {
    var s1 := EventTurn(s, fd, ev, ids[0], nows[0]);
    EventTurnKeepsCore(s, fd, ev, ids[0], nows[0]);
    LaterNows(s.clock, nows);
    if t in ids[1..] {
      EventLoopAnswers(s1, fd, ev, ids[1..], nows[1..], t);
    } else {
      assert t == ids[0];
      FreeTimeVacant(s, t, nows[0]);
      EventLoopFrame(s1, fd, ev, ids[1..], nows[1..], t);
    }
  }

  lemma {:induction false} ErrorLoopAnswers(s: Sched, todo: set<Tid>, ids: seq<Tid>, nows: seq<Time>, t: Tid)
    requires CoreExcept(s, todo) && s.running == None && |nows| == |ids| && NowsFrom(s.clock, nows)
    requires todo == (set u | u in ids && u in s.tasks) && !Twice(s, ids)
    requires ErrorTimely(s, ids, nows) && t in s.tasks && t in ids
    ensures IsAnswered(ErrorLoop(s, ids, nows), t, Broken)
    decreases |ids|
  {
    var s1 := ErrorTurn(s, ids[0], nows[0]);
    OnceInRest(s, ids);
    if t == ids[0] {
      FreeTimeVacant(s, t, nows[0]);
      ErrorLoopFrame(s1, ids[1..], nows[1..], t);
    } else {
      LaterNows(s.clock, nows);
      ErrorTurnOk(s, todo, ids, nows);
      ErrorLoopAnswers(s1, todo - {ids[0]}, ids[1..], nows[1..], t);
    }
  }

  /** A step that finds a task in the index lists it with the signal of an event, or of an error. */
  lemma ReachedIsAnswered(s: Sched, step: Step, t: Tid)
    requires Core(s) && Enabled(s, step) && Orderly(s, step) && Reaches(s, step, t) && t in s.tasks
    ensures IsAnswered(Apply(s, step), t, if step.DoEvent? then Received else Broken)
  {
    match step
    case DoEvent(fd, ev, nows) => EventLoopAnswers(s, fd, ev, Search(s.list.fds, fd, ev), nows, t);
    case DoError(fd, nows) =>
      var ids, s1 := SearchAll(s.list.fds, fd), s.(list := EraseFd(s.list, s.tasks, fd));
      EraseFdKeepsCore(s, fd);
      assert !Twice(s1, ids);
      var todo := set u | u in ids && u in s.tasks;
      ErrorLoopAnswers(s1, todo, ids, nows, t);
  }

  lemma {:induction false} SweepKeepsEntries(s: Sched, order: seq<Tid>, nows: seq<Time>, t: Tid)
    requires Core(s) && s.running == None && |nows| == |order| && NowsFrom(s.clock, nows)
    requires SweepTimely(s, order, nows) && Listed(s, t)
    ensures var s1 := Sweep(s, order, nows);
      && Listed(s1, t) && HandlerOf(s1, t) == HandlerOf(s, t) && s1.running == None
      && s1.tasks[t].signal == s.tasks[t].signal
    decreases |order|
  {
    if order != [] {
      CancelOk(s, order[0], nows[0]);
      var s1 := Cancel(s, order[0], nows[0]);
      if order[0] in s.tasks {
        ListedIsOccupied(s, order[0]);
      }
      SweepKeepsEntries(s1, order[1..], nows[1..], t);
    }
  }

  /** Waiters are found in the order in which they began to wait. */
  lemma {:induction false} SearchInOrder(fds: seq<FdEntry>, more: seq<FdEntry>, fd: int, ev: EventType)
    ensures Search(fds + more, fd, ev) == Search(fds, fd, ev) + Search(more, fd, ev)
    ensures forall t :: Search([FdEntry(fd, ev, t)], fd, ev) == [t]
    decreases |more|
  {
    forall t
      ensures Search([FdEntry(fd, ev, t)], fd, ev) == [t]
    {
      var e := FdEntry(fd, ev, t);
      assert [e][..0] == [] && Search([], fd, ev) == [];
      assert Search([e], fd, ev) == [] + [t];
    }
    if more == [] {
      assert fds + more == fds;
    } else {
      var front := more[..|more| - 1];
      assert (fds + more)[..|fds + more| - 1] == fds + front;
      SearchInOrder(fds, front, fd, ev);
    }
  }

  /** An event lists its waiters in that order, each under its own clock reading. */
  lemma {:induction false} AnsweredInOrder(s: Sched, fd: int, ev: EventType, ids: seq<Tid>, nows: seq<Time>, k: nat)
    requires Core(s) && s.running == None && |nows| == |ids| && NowsFrom(s.clock, nows)
    requires EventTimely(s, fd, ev, ids, nows) && NoDup(ids) && k < |ids| && ids[k] in s.tasks
    ensures var s1 := EventLoop(s, fd, ev, ids, nows);
      ids[k] in s1.tasks && Listed(s1, ids[k]) && s1.tasks[ids[k]].fire == nows[k]
    decreases |ids|
  {
    var s1 := EventTurn(s, fd, ev, ids[0], nows[0]);
    EventTurnKeepsCore(s, fd, ev, ids[0], nows[0]);
    LaterNows(s.clock, nows);
    forall j | 0 <= j < |ids[1..]|
      ensures ids[1..][j] != ids[0]
    {
      assert ids[1..][j] == ids[j + 1];
    }
    if k == 0 {
      FreeTimeVacant(s, ids[0], nows[0]);
      EventLoopFrame(s1, fd, ev, ids[1..], nows[1..], ids[0]);
    } else {
      assert ids[1..][k - 1] == ids[k] && nows[1..][k - 1] == nows[k];
      AnsweredInOrder(s1, fd, ev, ids[1..], nows[1..], k - 1);
    }
  }

  // ----- what a step does to the index -----

  lemma {:induction false} EventFds(s: Sched, fd: int, ev: EventType, ids: seq<Tid>, nows: seq<Time>)
    requires |nows| == |ids| && fd != NO_FD
    ensures var fds := EventLoop(s, fd, ev, ids, nows).list.fds;
      && (forall e :: e in fds <==> e in s.list.fds && !(e.fd == fd && e.ev == ev && e.tid in ids && e.tid in s.tasks))
      && (forall v | Once(s.list.fds, v) :: Once(fds, v))
    decreases |ids|
  {
    if ids != [] {
      WithoutKeyOk(s.list.fds, FdEntry(fd, ev, ids[0]));
      assert ids == [ids[0]] + ids[1..];
      EventFds(EventTurn(s, fd, ev, ids[0], nows[0]), fd, ev, ids[1..], nows[1..]);
    }
  }

  lemma {:induction false} ErrorFds(s: Sched, ids: seq<Tid>, nows: seq<Time>)
    requires |nows| == |ids|
    ensures ErrorLoop(s, ids, nows).list.fds == s.list.fds
    decreases |ids|
  {
    if ids != [] {
      ErrorFds(ErrorTurn(s, ids[0], nows[0]), ids[1..], nows[1..]);
    }
  }

  lemma {:induction false} SweepFds(s: Sched, order: seq<Tid>, nows: seq<Time>)
    requires |nows| == |order|
    ensures Sweep(s, order, nows).list.fds == s.list.fds
    decreases |order|
  {
    if order != [] {
      SweepFds(Cancel(s, order[0], nows[0]), order[1..], nows[1..]);
    }
  }

  /** The entries the step takes out of the index. A timeout takes out the one for reading. */
  predicate Drops(s: Sched, step: Step, e: FdEntry) {
    || (step.DoEvent? && e.fd == step.fd && e.ev == step.ev && e.tid in s.tasks)
    || (step.DoError? && e.fd == step.fd)
    || (step.DoDispatch? && s.list.timed != map[] && Head(s).handler.OnTimeout?
        && e == FdEntry(Head(s).handler.fd, Read, Head(s).tid))
  }

  predicate Adds(s: Sched, step: Step, e: FdEntry) {
    && step.DoWait? && step.fd != NO_FD && HasRunning(s) && !Me(s).cancelled
    && e == FdEntry(step.fd, step.ev, s.running.value)
  }

  lemma StepFds(s: Sched, step: Step)
    requires Core(s) && Enabled(s, step) && (forall e | e in s.list.fds :: e.fd != NO_FD)
    ensures forall e :: e in Apply(s, step).list.fds <==> (e in s.list.fds && !Drops(s, step, e)) || Adds(s, step, e)
    ensures forall v | Once(s.list.fds, v) && (forall e | Adds(s, step, e) && e.ev == v :: e !in s.list.fds) ::
      Once(Apply(s, step).list.fds, v)
  {
    match step
    case DoDispatch(now) =>
      DispatchTakesOut(s, now);
      WithoutKeyOk(s.list.fds, FdEntry(if Head(s).handler.OnTimeout? then Head(s).handler.fd else NO_FD, Read, Head(s).tid));
    case DoWait(fd, ev, timeout, now) =>
      assert Adds(s, step, FdEntry(fd, ev, s.running.value)) <==> fd != NO_FD && !Me(s).cancelled;
    case DoEvent(fd, ev, nows) =>
      SearchOk(s.list.fds, fd, ev);
      EventFds(s, fd, ev, Search(s.list.fds, fd, ev), nows);
      assert forall e | e in s.list.fds && e.fd == fd && e.ev == ev :: e == FdEntry(fd, ev, e.tid);
    case DoError(fd, nows) =>
      WithoutFdOk(s.list.fds, fd);
      ErrorFds(s.(list := EraseFd(s.list, s.tasks, fd)), SearchAll(s.list.fds, fd), nows);
    case DoSweep(order, nows) => SweepFds(s, order, nows);
    case _ =>
  }
}
