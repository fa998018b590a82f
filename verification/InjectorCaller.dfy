/**
  A task that injects a closure into a loop and waits for its answer: the injector and the scheduler of
  the caller's loop together. The call of a task returns true when its wait ended with Received,
  whatever the reason. As long as the index names the task for no other wait when it calls, and nobody
  wakes it by hand, the reason is an answer in its own pipe: such a task is never roused by anything
  else (Injector.Roused). Any other entry that names it does rouse it.
 */
module InjectorCaller {
  import opened Scheduler
  import opened SchedulerInvariant
  import opened SchedulerRuns
  import opened SchedulerLife
  import opened SchedulerWaits
  import I = Injector

  /** What a task inside a call is doing: it has not waited yet, or it has and looks at its signal next. */
  datatype Asking = Asking(id: I.Id, waited: bool)

  datatype Both = Both(sch: Sched, inj: I.State, asking: map<Tid, Asking>)

  datatype Step =
    | OfLoop(step: Scheduler.Step)
    | OfInjector(move: I.Step)
    | TaskCalls(id: I.Id, fd: I.Fd, deadline: I.Option<I.Time>)
    | TaskWaits(timeout: int, now: Time)
    | TaskReturnsTrue
    | TaskReturnsFalse(move: I.Step)

  predicate Asks(b: Both) {
    HasRunning(b.sch) && b.sch.running.value in b.asking
  }

  function MyCall(b: Both): I.Id
    requires Asks(b)
  {
    b.asking[b.sch.running.value].id
  }

  predicate WaitsIn(b: Both, t: Tid) {
    t in b.asking && I.WaitsOf(b.inj, b.asking[t].id) && b.asking[t].id in b.inj.byTask
  }

  predicate IsTasksCall(b: Both, id: I.Id) {
    exists t :: t in b.asking && b.asking[t].id == id
  }

  /** A descriptor of an answer pipe is readable only when an answer is in it. */
  predicate Readable(b: Both, step: Scheduler.Step) {
    step.DoEvent? && step.ev == Read && step.fd >= 0 && step.fd in b.inj.open ==> step.fd in b.inj.signalled
  }

  ghost predicate Enabled(b: Both, x: Step) {
    match x
    case OfLoop(step) =>
      && Scheduler.Enabled(b.sch, step) && Orderly(b.sch, step) && Readable(b, step)
      && (IsOwnCall(step) ==> !Asks(b)) && (step.DoSpawn? ==> step.tid !in b.asking)
    case OfInjector(move) =>
      && I.Enabled(b.inj, move) && (move.CallInject? ==> move.caller == I.Thread)
      && (I.IsReturn(move) ==> !IsTasksCall(b, move.id))
    case TaskCalls(id, fd, deadline) =>
      HasRunning(b.sch) && !Asks(b) && I.Enabled(b.inj, I.CallInject(id, fd, deadline, I.Task))
    case TaskWaits(timeout, now) =>
      && Asks(b) && WaitsIn(b, b.sch.running.value)
      && Scheduler.Enabled(b.sch, WaitOf(b, timeout, now)) && Timely(b.sch, WaitOf(b, timeout, now))
    case TaskReturnsTrue =>
      && Asks(b) && WaitsIn(b, b.sch.running.value) && b.asking[b.sch.running.value].waited
      && Me(b.sch).signal == Received
    case TaskReturnsFalse(move) =>
      Asks(b) && (move.GiveUp? || move.Abandon?) && move.id == MyCall(b) && I.Enabled(b.inj, move)
  }

  /** The wait of the source is on the call's own pipe, for reading. */
  function WaitOf(b: Both, timeout: int, now: Time): Scheduler.Step
    requires Asks(b) && WaitsIn(b, b.sch.running.value)
  {
    DoWait(b.inj.calls[MyCall(b)].fd, Read, timeout, now)
  }

  ghost function Apply(b: Both, x: Step): Both
    requires Enabled(b, x)
  {
    match x
    case OfLoop(step) => b.(sch := Scheduler.Apply(b.sch, step))
    case OfInjector(move) => b.(inj := I.Apply(b.inj, move))
    case TaskCalls(id, fd, deadline) =>
      b.(inj := I.Apply(b.inj, I.CallInject(id, fd, deadline, I.Task)),
         asking := b.asking[b.sch.running.value := Asking(id, false)])
    case TaskWaits(timeout, now) =>
      b.(sch := Scheduler.Apply(b.sch, WaitOf(b, timeout, now)),
         asking := b.asking[b.sch.running.value := Asking(MyCall(b), true)])
    case TaskReturnsTrue =>
      b.(inj := I.Apply(b.inj, I.Roused(MyCall(b))), asking := b.asking - {b.sch.running.value})
    case TaskReturnsFalse(move) =>
      b.(inj := I.Apply(b.inj, move), asking := b.asking - {b.sch.running.value})
  }

  // ----- what a caller can check -----

  /** A task calls only when the index names it for no other wait, and nobody wakes it by hand while it waits. */
  ghost predicate Careful(b: Both, x: Step)
    requires Enabled(b, x)
  {
    && (x.TaskCalls? ==> OnlyNamedBy(b.sch, b.sch.running.value, x.fd, Read))
    && (x.OfLoop? && x.step.DoWakeup? && x.step.signal == Received ==> x.step.tid !in b.asking)
  }

  /** The task's signal is Received only if its pipe holds an answer; nothing else names it. */
  ghost predicate CallerOk(b: Both, t: Tid)
    requires WaitsIn(b, t)
  {
    var fd := b.inj.calls[b.asking[t].id].fd;
    && t in b.sch.tasks && OnlyNamedBy(b.sch, t, fd, Read)
    && (b.asking[t].waited ==>
          fd in b.inj.signalled ||
          (if b.sch.running == Some(t) then b.sch.tasks[t].signal != Received else Unanswered(b.sch, t, fd, Read)))
    && (!b.asking[t].waited ==> b.sch.running == Some(t))
  }

  ghost predicate Inv(b: Both) {
    && Core(b.sch) && I.PipesOwned(b.inj)
    && (forall e | e in b.sch.list.fds :: e.fd != NO_FD)
    && (forall t, u | t in b.asking && u in b.asking && t != u :: b.asking[t].id != b.asking[u].id)
    && (forall t | t in b.asking :: WaitsIn(b, t) && CallerOk(b, t))
  }

  // ----- steps keep it -----

  lemma MoveKeepsPipes(s: I.State, move: I.Step)
    requires I.PipesOwned(s) && I.Enabled(s, move)
    ensures I.PipesOwned(I.Apply(s, move))
  {
    if move.AsyncInject? || move.CallInject? {
      I.CallKeepsPipes(s, move);
    } else if I.IsReturn(move) {
      I.ReturnKeepsPipes(s, move);
    }
  }

  /** A move that does not end the call leaves it waiting, on the same pipe, with its answer if it has one. */
  lemma OthersCall(s: I.State, move: I.Step, id: I.Id)
    requires I.PipesOwned(s) && I.Enabled(s, move) && I.WaitsOf(s, id)
    requires I.IsReturn(move) ==> move.id != id
    ensures var s1 := I.Apply(s, move);
      && I.WaitsOf(s1, id) && s1.calls[id] == s.calls[id]
      && (s.calls[id].fd in s.signalled ==> s.calls[id].fd in s1.signalled)
      && (id in s.byTask ==> id in s1.byTask)
  {
  }

  lemma SameCaller(b: Both, b1: Both, t: Tid)
    requires WaitsIn(b, t) && WaitsIn(b1, t) && CallerOk(b, t) && b1.sch == b.sch && b1.asking[t] == b.asking[t]
    requires b1.inj.calls[b.asking[t].id] == b.inj.calls[b.asking[t].id]
    requires b.inj.calls[b.asking[t].id].fd in b.inj.signalled ==> b.inj.calls[b.asking[t].id].fd in b1.inj.signalled
    ensures CallerOk(b1, t)
  {
  }

  lemma NoEntryAdded(s: Sched, step: Scheduler.Step, t: Tid, fd: int)
    requires Core(s) && Scheduler.Enabled(s, step) && (forall e | e in s.list.fds :: e.fd != NO_FD)
    requires OnlyNamedBy(s, t, fd, Read) && (step.DoWait? ==> s.running != Some(t) || (step.fd == fd && step.ev == Read))
    ensures OnlyNamedBy(Scheduler.Apply(s, step), t, fd, Read)
    ensures forall e | e in Scheduler.Apply(s, step).list.fds :: e.fd != NO_FD
  {
    StepFds(s, step);
  }

  /** While the caller is running its signal does not change but by its own calls. */
  lemma RunningCaller(s: Sched, step: Scheduler.Step, t: Tid)
    requires Core(s) && Scheduler.Enabled(s, step) && Timely(s, step) && s.running == Some(t) && !IsOwnCall(step)
    requires step.DoSpawn? ==> step.tid != t
    ensures var s1 := Scheduler.Apply(s, step);
      s1.running == Some(t) && t in s1.tasks && s1.tasks[t].signal == s.tasks[t].signal
  {
    if !Touches(s, step, t) {
      StepFrame(s, step, t);
    }
  }

  /** The dispatch of a caller that is not answered gives it no Received. */
  lemma DispatchedCaller(s: Sched, now: Time, t: Tid, fd: int)
    requires Core(s) && CanDispatch(s, now) && Head(s).tid == t && Unanswered(s, t, fd, Read)
    ensures var s1 := Dispatch(s, now); s1.running == Some(t) && t in s1.tasks && s1.tasks[t].signal != Received
  {
    DispatchTakesOut(s, now);
  }

  lemma CallerStays(s: Sched, step: Scheduler.Step, t: Tid)
    requires Scheduler.Enabled(s, step) && t in s.tasks && (step.DoSpawn? ==> step.tid != t)
    requires step.DoFinish? ==> s.running != Some(t)
    ensures t in Scheduler.Apply(s, step).tasks
  {
    StepLife(s, step, t);
  }

  lemma LoopKeepsCaller(b: Both, step: Scheduler.Step, t: Tid)
    requires Inv(b) && Enabled(b, OfLoop(step)) && Careful(b, OfLoop(step)) && t in b.asking
    ensures WaitsIn(Apply(b, OfLoop(step)), t) && CallerOk(Apply(b, OfLoop(step)), t)
  {
    var s, fd := b.sch, b.inj.calls[b.asking[t].id].fd;
    assert WaitsIn(b, t) && CallerOk(b, t);
    NoEntryAdded(s, step, t, fd);
    CallerStays(s, step, t);
    if s.running == Some(t) {
      RunningCaller(s, step, t);
    } else if fd !in b.inj.signalled {
      assert !Answers(step, t, fd, Read);
      if step.DoDispatch? && Head(s).tid == t {
        DispatchedCaller(s, step.now, t, fd);
      } else {
        UnansweredStep(s, step, t, fd, Read);
      }
    }
  }

  lemma LoopKeepsInv(b: Both, step: Scheduler.Step)
    requires Inv(b) && Enabled(b, OfLoop(step)) && Careful(b, OfLoop(step))
    ensures Inv(Apply(b, OfLoop(step)))
  {
    StepKeepsCore(b.sch, step);
    StepFds(b.sch, step);
    forall t | t in b.asking
      ensures WaitsIn(Apply(b, OfLoop(step)), t) && CallerOk(Apply(b, OfLoop(step)), t)
    {
      LoopKeepsCaller(b, step, t);
    }
  }

  /** A move of the injector, with or without a call that ends: all other calls go on as before. */
  lemma MoveKeepsInv(b: Both, move: I.Step, b1: Both)
    requires Inv(b) && I.Enabled(b.inj, move) && b1.sch == b.sch && b1.inj == I.Apply(b.inj, move)
    requires b1.asking.Keys <= b.asking.Keys && forall t | t in b1.asking :: b1.asking[t] == b.asking[t]
    requires I.IsReturn(move) ==> forall t | t in b1.asking :: b.asking[t].id != move.id
    ensures Inv(b1)
  {
    MoveKeepsPipes(b.inj, move);
    forall t | t in b1.asking
      ensures WaitsIn(b1, t) && CallerOk(b1, t)
    {
      assert t in b.asking && WaitsIn(b, t) && CallerOk(b, t);
      OthersCall(b.inj, move, b.asking[t].id);
      SameCaller(b, b1, t);
    }
  }

  lemma ReturnKeepsInv(b: Both, move: I.Step, b1: Both)
    requires Inv(b) && Asks(b) && I.Enabled(b.inj, move) && I.IsReturn(move) && move.id == MyCall(b)
    requires b1 == b.(inj := I.Apply(b.inj, move), asking := b.asking - {b.sch.running.value})
    ensures Inv(b1)
  {
    var t := b.sch.running.value;
    forall u | u in b1.asking
      ensures b.asking[u].id != move.id
    {
      assert u in b.asking && u != t && b.asking[t].id == move.id;
    }
    MoveKeepsInv(b, move, b1);
  }

  lemma CallKeepsInv(b: Both, x: Step)
    requires Inv(b) && Enabled(b, x) && Careful(b, x) && x.TaskCalls?
    ensures Inv(Apply(b, x))
  {
    var t, b1 := b.sch.running.value, Apply(b, x);
    var move := I.CallInject(x.id, x.fd, x.deadline, I.Task);
    var b0 := b.(inj := b1.inj);
    MoveKeepsInv(b, move, b0);
    forall u | u in b1.asking
      ensures WaitsIn(b1, u) && CallerOk(b1, u)
      ensures u != t ==> b1.asking[u].id != x.id
    {
      if u != t {
        assert WaitsIn(b, u) && WaitsIn(b0, u) && CallerOk(b0, u);
        SameCaller(b0, b1, u);
      }
    }
  }

  lemma WaitingCaller(s: Sched, fd: int, timeout: int, now: Time)
    requires Core(s) && HasRunning(s) && s.clock <= now && (Me(s).cancelled || FreeTime(s, s.running.value, now + timeout))
    requires OnlyNamedBy(s, s.running.value, fd, Read) && forall e | e in s.list.fds :: e.fd != NO_FD
    ensures var s1, t := Wait(s, fd, Read, timeout, now), s.running.value;
      && t in s1.tasks
      && if s1.running == Some(t) then s1.tasks[t].signal != Received else Unanswered(s1, t, fd, Read)
  {
    if !Me(s).cancelled {
      WaitIsUnanswered(s, fd, Read, timeout, now);
    }
  }

  lemma WaitKeepsInv(b: Both, x: Step)
    requires Inv(b) && Enabled(b, x) && x.TaskWaits?
    ensures Inv(Apply(b, x))
  {
    var t, b1, step := b.sch.running.value, Apply(b, x), WaitOf(b, x.timeout, x.now);
    StepKeepsCore(b.sch, step);
    assert CallerOk(b, t);
    WaitingCaller(b.sch, step.fd, x.timeout, x.now);
    NoEntryAdded(b.sch, step, t, step.fd);
    forall u | u in b1.asking && u != t
      ensures WaitsIn(b1, u) && CallerOk(b1, u)
    {
      assert WaitsIn(b, u) && CallerOk(b, u);
      var fd := b.inj.calls[b.asking[u].id].fd;
      NoEntryAdded(b.sch, step, u, fd);
      CallerStays(b.sch, step, u);
      if fd !in b.inj.signalled {
        UnansweredStep(b.sch, step, u, fd, Read);
      }
    }
  }

  lemma StepKeepsInv(b: Both, x: Step)
    requires Inv(b) && Enabled(b, x) && Careful(b, x)
    ensures Inv(Apply(b, x))
  {
    match x
    case OfLoop(step) => LoopKeepsInv(b, step);
    case OfInjector(move) => MoveKeepsInv(b, move, Apply(b, x));
    case TaskCalls(_, _, _) => CallKeepsInv(b, x);
    case TaskWaits(_, _) => WaitKeepsInv(b, x);
    case TaskReturnsTrue => ReturnKeepsInv(b, I.Roused(MyCall(b)), Apply(b, x));
    case TaskReturnsFalse(move) => ReturnKeepsInv(b, move, Apply(b, x));
  }

  // ----- main results -----

  ghost predicate EnabledRun(b: Both, xs: seq<Step>)
    decreases |xs|
  {
    xs != [] ==> Enabled(b, xs[0]) && EnabledRun(Apply(b, xs[0]), xs[1..])
  }

  ghost function Run(b: Both, xs: seq<Step>): Both
    requires EnabledRun(b, xs)
    decreases |xs|
  {
    if xs == [] then b else Run(Apply(b, xs[0]), xs[1..])
  }

  ghost predicate CarefulRun(b: Both, xs: seq<Step>)
    requires EnabledRun(b, xs)
    decreases |xs|
  {
    xs != [] ==> Careful(b, xs[0]) && CarefulRun(Apply(b, xs[0]), xs[1..])
  }

  lemma {:induction false} RunKeepsInv(b: Both, xs: seq<Step>)
    requires Inv(b) && EnabledRun(b, xs) && CarefulRun(b, xs)
    ensures Inv(Run(b, xs))
    decreases |xs|
  {
    if xs != [] {
      StepKeepsInv(b, xs[0]);
      RunKeepsInv(Apply(b, xs[0]), xs[1..]);
    }
  }

  /** No call is under way. */
  function Start(sch: Sched): Both {
    Both(sch, I.INITIAL, map[])
  }

  /**
    Whenever a task's call returns true there is an answer in its own pipe: a task that is careful is
    never roused by anything else. It may be any task, and any stale entries may name other tasks.
   */
  lemma TrueMeansAnswered(sch: Sched, xs: seq<Step>)
    requires Core(sch) && (forall e | e in sch.list.fds :: e.fd != NO_FD)
    requires EnabledRun(Start(sch), xs) && CarefulRun(Start(sch), xs)
    ensures var b := Run(Start(sch), xs);
      Enabled(b, TaskReturnsTrue) ==> I.Enabled(b.inj, I.ReturnTrue(MyCall(b)))
  {
    StartOk(sch);
    RunKeepsInv(Start(sch), xs);
    AnsweredIfTrue(Run(Start(sch), xs));
  }

  lemma AnsweredIfTrue(b: Both)
    requires Inv(b)
    ensures Enabled(b, TaskReturnsTrue) ==> I.Enabled(b.inj, I.ReturnTrue(MyCall(b)))
  {
    if Enabled(b, TaskReturnsTrue) {
      assert CallerOk(b, b.sch.running.value);
    }
  }

  /** The injector's moves outside of TaskReturnsTrue leave no answer behind. */
  ghost predicate LeavesNone(b: Both, x: Step)
    requires Enabled(b, x)
  {
    (x.OfInjector? || x.TaskReturnsFalse?) ==> I.Legal(b.inj, x.move)
  }

  ghost predicate LeavesNoneRun(b: Both, xs: seq<Step>)
    requires EnabledRun(b, xs)
    decreases |xs|
  {
    xs != [] ==> LeavesNone(b, xs[0]) && LeavesNoneRun(Apply(b, xs[0]), xs[1..])
  }

  lemma {:induction false} RunKeepsBoth(b: Both, xs: seq<Step>)
    requires Inv(b) && I.Inv(b.inj) && EnabledRun(b, xs) && CarefulRun(b, xs) && LeavesNoneRun(b, xs)
    ensures Inv(Run(b, xs)) && I.Inv(Run(b, xs).inj)
    decreases |xs|
  {
    if xs != [] {
      StepKeepsInv(b, xs[0]);
      StepKeepsInjector(b, xs[0]);
      RunKeepsBoth(Apply(b, xs[0]), xs[1..]);
    }
  }

  lemma AnsweredReturn(s: I.State, id: I.Id)
    requires I.Inv(s) && I.Enabled(s, I.ReturnTrue(id)) && id in s.byTask
    ensures I.Inv(I.Apply(s, I.Roused(id)))
  {
    I.StepKeepsInv(s, I.ReturnTrue(id));
    assert I.Apply(s, I.Roused(id)) == I.Apply(s, I.ReturnTrue(id));
  }

  lemma CallKeepsInjector(s: I.State, id: I.Id, fd: I.Fd, deadline: I.Option<I.Time>)
    requires I.Inv(s) && I.Enabled(s, I.CallInject(id, fd, deadline, I.Task))
    ensures I.Inv(I.Apply(s, I.CallInject(id, fd, deadline, I.Task)))
  {
    I.StepKeepsInv(s, I.CallInject(id, fd, deadline, I.Task));
  }

  lemma StepKeepsInjector(b: Both, x: Step)
    requires Inv(b) && I.Inv(b.inj) && Enabled(b, x) && LeavesNone(b, x)
    ensures I.Inv(Apply(b, x).inj)
  {
    match x
    case OfLoop(_) =>
    case TaskWaits(_, _) =>
    case TaskCalls(id, fd, deadline) => CallKeepsInjector(b.inj, id, fd, deadline);
    case TaskReturnsTrue =>
      AnsweredIfTrue(b);
      AnsweredReturn(b.inj, MyCall(b));
    case OfInjector(move) => I.StepKeepsInv(b.inj, move);
    case TaskReturnsFalse(move) => I.StepKeepsInv(b.inj, move);
  }

  /**
    So where tasks are careful and no call leaves an answer behind, a call returns true only after its
    own closure has ended, whether its caller is a thread or a task.
   */
  lemma TrueMeansOwnClosureEnded(sch: Sched, xs: seq<Step>)
    requires Core(sch) && (forall e | e in sch.list.fds :: e.fd != NO_FD)
    requires EnabledRun(Start(sch), xs) && CarefulRun(Start(sch), xs) && LeavesNoneRun(Start(sch), xs)
    ensures !I.WrongTrue(Run(Start(sch), xs).inj)
  {
    StartOk(sch);
    RunKeepsBoth(Start(sch), xs);
    NoWrongTrue(Run(Start(sch), xs).inj);
  }

  lemma NoWrongTrue(s: I.State)
    requires I.Inv(s)
    ensures !I.WrongTrue(s)
  {
  }

  lemma StartOk(sch: Sched)
    requires Core(sch) && forall e | e in sch.list.fds :: e.fd != NO_FD
    ensures Inv(Start(sch)) && I.Inv(Start(sch).inj)
  {
    I.InitialOk();
  }

  // ----- a task that is not careful -----

  lemma AnsweredReturnsTrue(b: Both, t: Tid, now: Time)
    requires Core(b.sch) && WaitsIn(b, t) && b.asking[t].waited && IsAnswered(b.sch, t, Received)
    requires Enabled(b, OfLoop(DoDispatch(now))) && Head(b.sch).tid == t
    ensures var b1 := Apply(b, OfLoop(DoDispatch(now)));
      Enabled(b1, TaskReturnsTrue) && MyCall(b1) == b.asking[t].id && b1.inj == b.inj
  {
    DispatchTakesOut(b.sch, now);
  }

  lemma UnendedIsWrong(b: Both)
    requires Enabled(b, TaskReturnsTrue)
    ensures MyCall(b) !in b.inj.finished ==> I.WrongTrue(Apply(b, TaskReturnsTrue).inj)
  {
    assert Apply(b, TaskReturnsTrue).inj.calls[MyCall(b)] == I.ReturnedTrue;
  }

  /** After the event the wait is over, with Received. */
  lemma OtherEntryEndsWait(b: Both, wait: Step, e: FdEntry, event: Scheduler.Step)
    requires Core(b.sch) && wait.TaskWaits? && Enabled(b, wait) && !Me(b.sch).cancelled
    requires e in b.sch.list.fds && e.tid == b.sch.running.value
    requires e.fd != b.inj.calls[MyCall(b)].fd || e.ev != Read
    requires event.DoEvent? && event.fd == e.fd && event.ev == e.ev
    requires Enabled(Apply(b, wait), OfLoop(event))
    ensures var b1 := Apply(Apply(b, wait), OfLoop(event));
      && Core(b1.sch) && IsAnswered(b1.sch, e.tid, Received) && b1.inj == b.inj
      && WaitsIn(b1, e.tid) && b1.asking[e.tid] == Asking(MyCall(b), true)
  {
    var step := WaitOf(b, wait.timeout, wait.now);
    OtherEntryAnswers(b.sch, step, e, event);
    StepKeepsCore(b.sch, step);
    StepKeepsCore(Apply(b, wait).sch, event);
  }

  /**
    An entry of an earlier wait, on another descriptor or of the other type, names the task that waits
    for its answer. An event on it, and the call returns true, whatever the closure does.
   */
  lemma OtherEntryRouses(b: Both, wait: Step, e: FdEntry, event: Scheduler.Step, now: Time)
    requires Core(b.sch) && wait.TaskWaits? && Enabled(b, wait) && !Me(b.sch).cancelled
    requires e in b.sch.list.fds && e.tid == b.sch.running.value
    requires e.fd != b.inj.calls[MyCall(b)].fd || e.ev != Read
    requires event.DoEvent? && event.fd == e.fd && event.ev == e.ev
    requires Enabled(Apply(b, wait), OfLoop(event))
    requires var b1 := Apply(Apply(b, wait), OfLoop(event)); Enabled(b1, OfLoop(DoDispatch(now))) && Head(b1.sch).tid == e.tid
    ensures var b2 := Apply(Apply(Apply(b, wait), OfLoop(event)), OfLoop(DoDispatch(now)));
      && Enabled(b2, TaskReturnsTrue) && MyCall(b2) == MyCall(b) && b2.inj == b.inj
      && (MyCall(b) !in b.inj.finished ==> I.WrongTrue(Apply(b2, TaskReturnsTrue).inj))
  {
    var b1 := Apply(Apply(b, wait), OfLoop(event));
    OtherEntryEndsWait(b, wait, e, event);
    AnsweredReturnsTrue(b1, e.tid, now);
    UnendedIsWrong(Apply(b1, OfLoop(DoDispatch(now))));
  }

  /** So does a wakeup by hand with the signal it has by default. */
  lemma HandWakeupRouses(b: Both, t: Tid, wake: Time, now: Time)
    requires Core(b.sch) && WaitsIn(b, t) && b.asking[t].waited && b.sch.running != Some(t)
    requires t in b.sch.tasks && Enabled(b, OfLoop(DoWakeup(t, Received, wake)))
    requires var b1 := Apply(b, OfLoop(DoWakeup(t, Received, wake)));
      Enabled(b1, OfLoop(DoDispatch(now))) && Head(b1.sch).tid == t
    ensures var b2 := Apply(Apply(b, OfLoop(DoWakeup(t, Received, wake))), OfLoop(DoDispatch(now)));
      && b2.sch.running == Some(t) && b2.inj == b.inj
      && (!b.sch.tasks[t].cancelled ==>
            && Enabled(b2, TaskReturnsTrue) && MyCall(b2) == b.asking[t].id
            && (b.asking[t].id !in b.inj.finished ==> I.WrongTrue(Apply(b2, TaskReturnsTrue).inj)))
  {
    var b1 := Apply(b, OfLoop(DoWakeup(t, Received, wake)));
    ListedIsOccupied(b.sch, t);
    StepKeepsCore(b.sch, DoWakeup(t, Received, wake));
    DispatchTakesOut(b1.sch, now);
    var b2 := Apply(b1, OfLoop(DoDispatch(now)));
    if !b.sch.tasks[t].cancelled {
      UnendedIsWrong(b2);
    }
  }
}
