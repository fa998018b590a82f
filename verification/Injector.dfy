// Handing closures from other threads to a loop (src/task/shared/injector.cpp).
//
// A state is what lies in the pipe of the injector, what its reader task is doing, which closures
// wait for their first dispatch, run, or have ended, and what the calls that wait for an answer
// are doing. Every caller opens a pipe of its own for the answer; descriptor numbers are used again
// once they are closed. A caller that is a thread looks at its pipe. A caller that is a task looks at
// the signal its wait ended with, and something else than its pipe can have set that to Received (see
// InjectorCaller for when nothing else can). A step is one move of one thread. The check whether a call still waits and
// the write of the answer are two steps, because a caller in another thread can move in between.
//
// As in the loop, a task runs when its fire time is the nearest, and two readings of the clock in
// one turn of the reader differ. Readings may be arbitrarily close, so they are real numbers.
module Injector {
  type Id = nat
  type Fd = nat
  type Time = real

  datatype Option<+T> = None | Some(value: T)

  /** What is written to the pipe: the answer pipe is absent for async_inject, the deadline for sync_inject. */
  datatype Job = Job(id: Id, ioOut: Option<Fd>, deadline: Option<Time>)

  datatype Reader = Waiting | Reading | Yielded(at: Time)

  datatype Caller = Thread | Task

  datatype Call =
    | Waits(fd: Fd, deadline: Option<Time>)
    | ReturnedTrue
    | ReturnedFalse(deadline: Option<Time>)
    | Abandoned(deadline: Option<Time>)

  datatype State = State(
    clock: Time,
    pipe: seq<Job>,
    reader: Reader,
    spawned: seq<(Job, Time)>,  // tasks in the timed list, with their fire times
    running: map<Id, Job>,      // started and not ended
    writing: map<Id, Fd>,       // ended and found to be still waited for
    open: map<Fd, Id>,          // answer pipes and whose they are
    signalled: set<Fd>,         // answer pipes with an answer in them
    calls: map<Id, Call>,
    byTask: set<Id>,            // the calls whose caller is a task
    injected: seq<Id>,          // in the order of the writes to the pipe
    started: seq<Id>,
    finished: set<Id>)

  datatype Step =
    | AsyncInject(id: Id)
    | CallInject(id: Id, fd: Fd, deadline: Option<Time>, caller: Caller)
    | Wake
    | Read(added: Time, yielded: Time)
    | ReadNothing
    | Resume
    | Start(i: nat)
    | End(id: Id, now: Time)
    | Write(id: Id)
    | ReturnTrue(id: Id)
    | Roused(id: Id)
    | GiveUp(id: Id, now: Time)
    | Abandon(id: Id)

  const INITIAL := State(0.0, [], Waiting, [], map[], map[], map[], {}, map[], {}, [], [], {})

  // ---------------------------------------------------------------------------------------
  // Steps
  // ---------------------------------------------------------------------------------------

  predicate WaitsOf(s: State, id: Id) {
    id in s.calls && s.calls[id].Waits?
  }

  /** The task is the next that the loop dispatches, among the closures and the reader. */
  predicate IsNearest(s: State, at: Time) {
    (forall j :: 0 <= j < |s.spawned| ==> at <= s.spawned[j].1) && (s.reader.Yielded? ==> at <= s.reader.at)
  }

  predicate Enabled(s: State, step: Step) {
    match step
    case AsyncInject(id) => id !in s.injected
    case CallInject(id, fd, _, _) => id !in s.injected && fd !in s.open
    case Wake => s.reader.Waiting? && s.pipe != []
    case Read(added, yielded) => s.reader.Reading? && s.pipe != [] && s.clock < added < yielded
    case ReadNothing => s.reader.Reading? && s.pipe == []
    case Resume => s.reader.Yielded? && IsNearest(s, s.reader.at)
    case Start(i) => i < |s.spawned| && IsNearest(s, s.spawned[i].1)
    case End(id, now) => id in s.running && s.clock <= now
    case Write(id) => id in s.writing
    case ReturnTrue(id) => WaitsOf(s, id) && s.calls[id].fd in s.signalled
    case Roused(id) => WaitsOf(s, id) && id in s.byTask
    case GiveUp(id, now) =>
      WaitsOf(s, id) && s.calls[id].deadline.Some? && s.calls[id].deadline.value <= now
      && s.clock <= now
    case Abandon(id) => WaitsOf(s, id)
  }

  /** The call returns and its answer pipe is closed. */
  function Return(s: State, id: Id, outcome: Call): State
    requires WaitsOf(s, id)
  {
    var fd := s.calls[id].fd;
    s.(calls := s.calls[id := outcome], open := s.open - {fd}, signalled := s.signalled - {fd})
  }

  /** The answer is written only when somebody may still wait for it. */
  predicate StillWaited(job: Job, now: Time) {
    job.ioOut.Some? && (job.deadline.None? || now < job.deadline.value)
  }

  function Apply(s: State, step: Step): State
    requires Enabled(s, step)
  {
    match step
    case AsyncInject(id) =>
      s.(pipe := s.pipe + [Job(id, None, None)], injected := s.injected + [id])
    case CallInject(id, fd, deadline, caller) =>
      s.(pipe := s.pipe + [Job(id, Some(fd), deadline)], injected := s.injected + [id],
         open := s.open[fd := id], calls := s.calls[id := Waits(fd, deadline)],
         byTask := if caller == Task then s.byTask + {id} else s.byTask)
    case Wake => s.(reader := Reading)
    case Read(added, yielded) =>
      s.(pipe := s.pipe[1..], spawned := s.spawned + [(s.pipe[0], added)], reader := Yielded(yielded), clock := yielded)
    case ReadNothing => s.(reader := Waiting)
    case Resume => s.(reader := Reading)
    case Start(i) =>
      var job := s.spawned[i].0;
      s.(spawned := s.spawned[..i] + s.spawned[i + 1..], running := s.running[job.id := job], started := s.started + [job.id])
    case End(id, now) =>
      var job := s.running[id];
      s.(running := s.running - {id}, finished := s.finished + {id}, clock := now,
         writing := if StillWaited(job, now) then s.writing[id := job.ioOut.value] else s.writing)
    case Write(id) =>
      var fd := s.writing[id];
      s.(writing := s.writing - {id}, signalled := if fd in s.open then s.signalled + {fd} else s.signalled)
    case ReturnTrue(id) => Return(s, id, ReturnedTrue)
    case Roused(id) => Return(s, id, ReturnedTrue)
    case GiveUp(id, now) => Return(s, id, ReturnedFalse(s.calls[id].deadline)).(clock := now)
    case Abandon(id) => Return(s, id, Abandoned(s.calls[id].deadline))
  }

  /**
   * A task's call returns true, because something else than its pipe ended its wait with Received,
   * although its closure has not ended.
   */
  predicate ReturnsEarly(s: State, step: Step) {
    step.Roused? && step.id !in s.finished
  }

  /**
   * The call returns while an answer to it is on its way, or may still be written: its deadline passed
   * between the check that it waits and the write; or it stopped waiting before its deadline and before
   * its closure had ended. The latter is a caller that was cancelled, or a task whose last signal is
   * Broken from whatever it did before (it returns false without waiting at all), or that was woken
   * with another signal than Received; or a caller that was roused.
   */
  predicate LeavesAnswer(s: State, step: Step)
    requires Enabled(s, step)
  {
    || ((step.GiveUp? || step.Abandon? || step.Roused?) && step.id in s.writing)
    || ((step.Abandon? || step.Roused?) && step.id !in s.finished
        && (s.calls[step.id].deadline.None? || s.clock < s.calls[step.id].deadline.value))
  }

  predicate Legal(s: State, step: Step) {
    Enabled(s, step) && !ReturnsEarly(s, step) && !LeavesAnswer(s, step)
  }

  predicate LegalRun(s: State, steps: seq<Step>)
    decreases steps
  {
    steps != [] ==> Legal(s, steps[0]) && LegalRun(Apply(s, steps[0]), steps[1..])
  }

  predicate EnabledRun(s: State, steps: seq<Step>)
    decreases steps
  {
    steps != [] ==> Enabled(s, steps[0]) && EnabledRun(Apply(s, steps[0]), steps[1..])
  }

  function After(s: State, steps: seq<Step>): State
    requires EnabledRun(s, steps)
    decreases steps
  {
    if steps == [] then s else After(Apply(s, steps[0]), steps[1..])
  }

  // ---------------------------------------------------------------------------------------
  // The invariant
  // ---------------------------------------------------------------------------------------

  function Ids(jobs: seq<Job>): (ids: seq<Id>)
    ensures |ids| == |jobs| && forall i :: 0 <= i < |jobs| ==> ids[i] == jobs[i].id
  {
    seq(|jobs|, i requires 0 <= i < |jobs| => jobs[i].id)
  }

  ghost predicate Distinct(ids: seq<Id>) {
    forall i, j :: 0 <= i < j < |ids| ==> ids[i] != ids[j]
  }

  /** At most one closure waits for its first dispatch, and it fires before the reader goes on. */
  ghost predicate OneAtATime(s: State) {
    && |s.spawned| <= 1
    && (s.spawned != [] ==> s.reader.Yielded? && s.spawned[0].1 < s.reader.at)
  }

  function Spawned(s: State): seq<Job> {
    if s.spawned == [] then [] else [s.spawned[0].0]
  }

  /** Everything injected has started, is about to, or lies in the pipe, in this order. */
  ghost predicate InOrder(s: State) {
    Distinct(s.injected) && s.injected == s.started + Ids(Spawned(s)) + Ids(s.pipe)
  }

  ghost predicate StartedOnce(s: State) {
    && (forall id :: id in s.started <==> id in s.running || id in s.finished)
    && (forall id :: id in s.running ==> id !in s.finished && s.running[id].id == id)
  }

  /** A job that has not ended answers the call that waits for it, or one that gave up in time. */
  ghost predicate Answers(s: State, job: Job) {
    if job.ioOut.None? then job.id !in s.calls else
      && job.id in s.calls
      && (s.calls[job.id] == Waits(job.ioOut.value, job.deadline) ||
          ((s.calls[job.id] == ReturnedFalse(job.deadline) || s.calls[job.id] == Abandoned(job.deadline))
           && job.deadline.Some? && job.deadline.value <= s.clock))
  }

  ghost predicate JobsAnswer(s: State) {
    && (forall i :: 0 <= i < |s.pipe| ==> Answers(s, s.pipe[i]))
    && (forall i :: 0 <= i < |s.spawned| ==> Answers(s, s.spawned[i].0))
    && (forall id :: id in s.running ==> Answers(s, s.running[id]))
  }

  /** An open answer pipe belongs to the one call that waits on it. */
  ghost predicate PipesOwned(s: State) {
    && (forall id :: WaitsOf(s, id) ==> s.calls[id].fd in s.open && s.open[s.calls[id].fd] == id)
    && (forall fd :: fd in s.open ==> WaitsOf(s, s.open[fd]) && s.calls[s.open[fd]].fd == fd)
    && (forall id :: id in s.calls ==> id in s.injected)
  }

  ghost predicate AnswersEarned(s: State) {
    && (forall id :: id in s.writing ==> id in s.finished && WaitsOf(s, id) && s.calls[id].fd == s.writing[id])
    && (forall fd :: fd in s.signalled ==> fd in s.open && s.open[fd] in s.finished && s.open[fd] !in s.writing)
    && (forall id :: id in s.calls && s.calls[id].ReturnedTrue? ==> id in s.finished)
    && (forall id :: id in s.calls && s.calls[id].ReturnedFalse? ==>
          s.calls[id].deadline.Some? && s.calls[id].deadline.value <= s.clock)
  }

  ghost predicate Inv(s: State) {
    OneAtATime(s) && InOrder(s) && StartedOnce(s) && JobsAnswer(s) && PipesOwned(s) && AnswersEarned(s)
  }

  lemma IdsOfSum(a: seq<Job>, b: seq<Job>)
    ensures Ids(a + b) == Ids(a) + Ids(b)
  {
  }

  /** What lies in the pipe or waits for its dispatch has not started, so it has not ended. */
  lemma PendingIsNotStarted(s: State)
    requires InOrder(s)
    ensures forall i :: 0 <= i < |s.pipe| ==> s.pipe[i].id in s.injected && s.pipe[i].id !in s.started
    ensures s.spawned != [] ==> s.spawned[0].0.id in s.injected && s.spawned[0].0.id !in s.started
    ensures forall id :: id in s.started ==> id in s.injected
  {
    var mid, tail := Ids(Spawned(s)), Ids(s.pipe);
    assert forall k :: 0 <= k < |s.started| ==> s.injected[k] == s.started[k];
    forall i | 0 <= i < |s.pipe| ensures s.pipe[i].id in s.injected && s.pipe[i].id !in s.started {
      assert s.injected[|s.started| + |mid| + i] == tail[i];
    }
    if s.spawned != [] {
      assert s.injected[|s.started|] == mid[0];
    }
    forall id | id in s.started ensures id in s.injected {
      var k :| 0 <= k < |s.started| && s.started[k] == id;
      assert s.injected[k] == id;
    }
  }

  lemma AppendedIsDistinct(ids: seq<Id>, id: Id)
    requires Distinct(ids) && id !in ids
    ensures Distinct(ids + [id])
  {
  }

  lemma InjectKeepsOrder(s: State, step: Step)
    requires InOrder(s) && Enabled(s, step) && (step.AsyncInject? || step.CallInject?)
    ensures InOrder(Apply(s, step))
  {
    AppendedIsDistinct(s.injected, step.id);
    var job := if step.AsyncInject? then Job(step.id, None, None) else Job(step.id, Some(step.fd), step.deadline);
    IdsOfSum(s.pipe, [job]);
    assert s.injected + [step.id] == s.started + Ids(Spawned(s)) + (Ids(s.pipe) + [step.id]);
  }

  lemma ReadKeepsOrder(s: State, step: Step)
    requires OneAtATime(s) && InOrder(s) && Enabled(s, step) && step.Read?
    ensures OneAtATime(Apply(s, step)) && InOrder(Apply(s, step))
  {
    IdsOfSum([s.pipe[0]], s.pipe[1..]);
    assert s.pipe == [s.pipe[0]] + s.pipe[1..];
    assert s.started + [] + Ids(s.pipe) == s.started + Ids([s.pipe[0]]) + Ids(s.pipe[1..]);
  }

  lemma StartKeepsOrder(s: State, step: Step)
    requires OneAtATime(s) && InOrder(s) && Enabled(s, step) && step.Start?
    ensures OneAtATime(Apply(s, step)) && InOrder(Apply(s, step))
  {
    var job := s.spawned[0].0;
    assert s.started + [job.id] + Ids(s.pipe) == s.started + Ids([job]) + Ids(s.pipe);
  }

  lemma StartsOnce(s: State, step: Step)
    requires OneAtATime(s) && InOrder(s) && StartedOnce(s) && Enabled(s, step) && step.Start?
    ensures StartedOnce(Apply(s, step))
  {
    PendingIsNotStarted(s);
  }

  lemma StepKeepsOrder(s: State, step: Step)
    requires OneAtATime(s) && InOrder(s) && StartedOnce(s) && Enabled(s, step)
    ensures OneAtATime(Apply(s, step)) && InOrder(Apply(s, step)) && StartedOnce(Apply(s, step))
  {
    match step
    case AsyncInject(_) => InjectKeepsOrder(s, step);
    case CallInject(_, _, _, _) => InjectKeepsOrder(s, step);
    case Read(_, _) => ReadKeepsOrder(s, step);
    case Start(_) =>
      StartKeepsOrder(s, step);
      StartsOnce(s, step);
    case Resume => assert s.spawned == [];
    case Wake =>
    case ReadNothing =>
    case End(_, _) =>
    case Write(_) =>
    case ReturnTrue(_) =>
    case Roused(_) =>
    case GiveUp(_, _) =>
    case Abandon(_) =>
  }

  // ---------------------------------------------------------------------------------------
  // Answers
  // ---------------------------------------------------------------------------------------

  lemma CallKeepsJobs(s: State, step: Step)
    requires Inv(s) && Enabled(s, step) && (step.AsyncInject? || step.CallInject?)
    ensures JobsAnswer(Apply(s, step))
  {
    PendingIsNotStarted(s);
    var t := Apply(s, step);
    assert forall job :: Answers(s, job) && job.id != step.id ==> Answers(t, job);
    assert forall id :: id in s.running ==> s.running[id].id == id && id in s.started;
    assert Answers(t, t.pipe[|s.pipe|]);
  }

  lemma CallKeepsPipes(s: State, step: Step)
    requires PipesOwned(s) && Enabled(s, step) && (step.AsyncInject? || step.CallInject?)
    ensures PipesOwned(Apply(s, step))
  {
    var t := Apply(s, step);
    assert step.id !in s.calls;
    assert forall id :: WaitsOf(t, id) ==> WaitsOf(s, id) || id == step.id;
  }

  lemma CallKeepsEarned(s: State, step: Step)
    requires PipesOwned(s) && AnswersEarned(s) && Enabled(s, step) && (step.AsyncInject? || step.CallInject?)
    ensures AnswersEarned(Apply(s, step))
  {
    assert step.id !in s.calls;
  }

  lemma CallKeepsAnswers(s: State, step: Step)
    requires Inv(s) && Enabled(s, step) && (step.AsyncInject? || step.CallInject?)
    ensures var t := Apply(s, step); JobsAnswer(t) && PipesOwned(t) && AnswersEarned(t)
  {
    CallKeepsJobs(s, step);
    CallKeepsPipes(s, step);
    CallKeepsEarned(s, step);
  }

  predicate IsReturn(step: Step) {
    step.ReturnTrue? || step.Roused? || step.GiveUp? || step.Abandon?
  }

  lemma ReturnKeepsJob(s: State, step: Step, job: Job)
    requires Legal(s, step) && IsReturn(step) && Answers(s, job)
    requires job.id != step.id || step.GiveUp? || (step.Abandon? && step.id !in s.finished)
    ensures Answers(Apply(s, step), job)
  {
  }

  lemma ReturnKeepsJobs(s: State, step: Step)
    requires Inv(s) && Legal(s, step) && IsReturn(step)
    ensures JobsAnswer(Apply(s, step))
  {
    PendingIsNotStarted(s);
    var id, t := step.id, Apply(s, step);
    assert s.open[s.calls[id].fd] == id;
    assert step.ReturnTrue? || step.Roused? ==> id in s.finished && id in s.started && id !in s.running;
    forall i | 0 <= i < |s.pipe| ensures Answers(t, s.pipe[i]) {
      ReturnKeepsJob(s, step, s.pipe[i]);
    }
    forall i | 0 <= i < |s.spawned| ensures Answers(t, s.spawned[i].0) {
      ReturnKeepsJob(s, step, s.spawned[i].0);
    }
    forall other | other in s.running ensures Answers(t, s.running[other]) {
      ReturnKeepsJob(s, step, s.running[other]);
    }
  }

  lemma ReturnKeepsPipes(s: State, step: Step)
    requires PipesOwned(s) && Enabled(s, step) && IsReturn(step)
    ensures PipesOwned(Apply(s, step))
  {
    var id, t := step.id, Apply(s, step);
    var fd := s.calls[id].fd;
    assert forall other :: WaitsOf(t, other) ==> WaitsOf(s, other) && other != id;
    assert forall other :: WaitsOf(s, other) && other != id ==> s.calls[other].fd != fd;
  }

  lemma ReturnKeepsEarned(s: State, step: Step)
    requires PipesOwned(s) && AnswersEarned(s) && Legal(s, step) && IsReturn(step)
    ensures AnswersEarned(Apply(s, step))
  {
    var id := step.id;
    assert s.open[s.calls[id].fd] == id;
    assert step.ReturnTrue? || step.Roused? ==> id in s.finished && id !in s.writing;
  }

  /** The answers of jobs that come from the jobs of an earlier state. */
  lemma JobsCarry(s: State, t: State)
    requires JobsAnswer(s) && forall job :: Answers(s, job) ==> Answers(t, job)
    requires forall job :: job in t.pipe ==> job in s.pipe
    requires forall x :: x in t.spawned ==> x in s.spawned || x.0 in s.pipe
    requires forall id :: id in t.running ==>
      (id in s.running && t.running[id] == s.running[id]) || (exists x :: x in s.spawned && x.0 == t.running[id])
    ensures JobsAnswer(t)
  {
    assert forall job :: job in s.pipe ==> Answers(s, job);
    assert forall x :: x in s.spawned ==> Answers(s, x.0);
    forall i | 0 <= i < |t.spawned| ensures Answers(t, t.spawned[i].0) {
      assert t.spawned[i] in t.spawned;
    }
    forall i | 0 <= i < |t.pipe| ensures Answers(t, t.pipe[i]) {
      assert t.pipe[i] in t.pipe;
    }
  }

  lemma SameCallsOk(s: State, t: State)
    requires PipesOwned(s) && AnswersEarned(s) && s.clock <= t.clock
    requires t.calls == s.calls && t.open == s.open && t.injected == s.injected && t.writing == s.writing
    requires t.signalled == s.signalled && t.finished == s.finished
    ensures PipesOwned(t) && AnswersEarned(t)
    ensures forall job :: Answers(s, job) ==> Answers(t, job)
  {
  }

  lemma MoveKeepsAnswers(s: State, step: Step)
    requires Inv(s) && Enabled(s, step)
    requires step.Wake? || step.Read? || step.ReadNothing? || step.Resume? || step.Start?
    ensures var t := Apply(s, step); JobsAnswer(t) && PipesOwned(t) && AnswersEarned(t)
  {
    var t := Apply(s, step);
    SameCallsOk(s, t);
    if step.Start? {
      assert s.spawned[step.i] in s.spawned;
    }
    JobsCarry(s, t);
  }

  lemma EndKeepsAnswers(s: State, step: Step)
    requires Inv(s) && Enabled(s, step) && step.End?
    ensures var t := Apply(s, step); JobsAnswer(t) && PipesOwned(t) && AnswersEarned(t)
  {
    var t := Apply(s, step);
    assert Answers(s, s.running[step.id]);
    assert forall job :: Answers(s, job) ==> Answers(t, job);
  }

  lemma WriteKeepsAnswers(s: State, step: Step)
    requires Inv(s) && Enabled(s, step) && step.Write?
    ensures var t := Apply(s, step); JobsAnswer(t) && PipesOwned(t) && AnswersEarned(t)
  {
    var t := Apply(s, step);
    assert forall job :: Answers(s, job) ==> Answers(t, job);
  }

  lemma StepKeepsInv(s: State, step: Step)
    requires Inv(s) && Legal(s, step)
    ensures Inv(Apply(s, step))
  {
    StepKeepsOrder(s, step);
    if step.AsyncInject? || step.CallInject? {
      CallKeepsAnswers(s, step);
    } else if IsReturn(step) {
      ReturnKeepsJobs(s, step);
      ReturnKeepsPipes(s, step);
      ReturnKeepsEarned(s, step);
    } else if step.End? {
      EndKeepsAnswers(s, step);
    } else if step.Write? {
      WriteKeepsAnswers(s, step);
    } else {
      MoveKeepsAnswers(s, step);
    }
  }

  // ---------------------------------------------------------------------------------------
  // Runs
  // ---------------------------------------------------------------------------------------

  lemma {:induction false} LegalIsEnabled(s: State, steps: seq<Step>)
    requires LegalRun(s, steps)
    ensures EnabledRun(s, steps)
    decreases steps
  {
    if steps != [] {
      LegalIsEnabled(Apply(s, steps[0]), steps[1..]);
    }
  }

  lemma {:induction false} RunKeepsInv(s: State, steps: seq<Step>)
    requires Inv(s) && LegalRun(s, steps)
    ensures EnabledRun(s, steps) && Inv(After(s, steps))
    decreases steps
  {
    LegalIsEnabled(s, steps);
    if steps != [] {
      StepKeepsInv(s, steps[0]);
      RunKeepsInv(Apply(s, steps[0]), steps[1..]);
    }
  }

  lemma StartedIsPrefix(s: State)
    requires InOrder(s)
    ensures Distinct(s.started) && s.started <= s.injected
  {
    forall i, j | 0 <= i < j < |s.started| ensures s.started[i] != s.started[j] {
      assert s.injected[i] == s.started[i] && s.injected[j] == s.started[j];
    }
  }

  lemma InitialOrderOk()
    ensures OneAtATime(INITIAL) && InOrder(INITIAL) && StartedOnce(INITIAL)
  {
    assert INITIAL.injected == [] && Ids([]) == [] && INITIAL.started == [];
  }

  lemma InitialOk()
    ensures Inv(INITIAL)
  {
    InitialOrderOk();
  }

  lemma RunFromInitial(steps: seq<Step>) returns (s: State)
    requires LegalRun(INITIAL, steps)
    ensures EnabledRun(INITIAL, steps) && s == After(INITIAL, steps) && Inv(s)
  {
    InitialOk();
    RunKeepsInv(INITIAL, steps);
    s := After(INITIAL, steps);
  }

  lemma {:induction false} RunKeepsOrder(s: State, steps: seq<Step>)
    requires OneAtATime(s) && InOrder(s) && StartedOnce(s) && EnabledRun(s, steps)
    ensures var t := After(s, steps); OneAtATime(t) && InOrder(t) && StartedOnce(t)
    decreases steps
  {
    if steps != [] {
      StepKeepsOrder(s, steps[0]);
      RunKeepsOrder(Apply(s, steps[0]), steps[1..]);
    }
  }

  /**
   * In every interleaving closures start in pipe order, each at most once: what has started is a prefix
   * of what was injected, and all of it when the reader waits again at an empty pipe.
   */
  lemma StartsInPipeOrder(steps: seq<Step>)
    requires EnabledRun(INITIAL, steps)
    ensures StartedInOrder(After(INITIAL, steps))
  {
    InitialOrderOk();
    RunKeepsOrder(INITIAL, steps);
    OrderMeans(After(INITIAL, steps));
  }

  ghost predicate StartedInOrder(s: State) {
    && Distinct(s.started) && s.started <= s.injected
    && (s.reader.Waiting? && s.pipe == [] ==> s.started == s.injected)
  }

  lemma OrderMeans(s: State)
    requires OneAtATime(s) && InOrder(s)
    ensures StartedInOrder(s)
  {
    StartedIsPrefix(s);
    NothingIsLost(s);
  }

  /** When the reader waits again and the pipe is empty, every closure has started. */
  lemma NothingIsLost(s: State)
    requires OneAtATime(s) && InOrder(s)
    ensures s.reader.Waiting? && s.pipe == [] ==> s.started == s.injected
  {
    if s.reader.Waiting? && s.pipe == [] {
      assert Ids(s.pipe) == [] && Ids(Spawned(s)) == [];
    }
  }

  /** A call returns true only after its own closure has ended; one that returns false had its time. */
  lemma TrueMeansOwnClosureEnded(steps: seq<Step>)
    requires LegalRun(INITIAL, steps)
    ensures EnabledRun(INITIAL, steps)
    ensures var s := After(INITIAL, steps); forall id :: id in s.calls ==>
      && (s.calls[id].ReturnedTrue? ==> id in s.finished)
      && (s.calls[id].ReturnedFalse? ==> s.calls[id].deadline.Some? && s.calls[id].deadline.value <= s.clock)
  {
    var s := RunFromInitial(steps);
  }

  /** A call that waits and whose closure has ended is being answered, unless its deadline has passed. */
  ghost predicate AnswersCome(s: State) {
    forall id :: WaitsOf(s, id) && id in s.finished && id !in s.writing && s.calls[id].fd !in s.signalled ==>
      s.calls[id].deadline.Some? && s.calls[id].deadline.value <= s.clock
  }

  lemma EndAnswers(s: State, step: Step)
    requires Inv(s) && Enabled(s, step) && AnswersCome(s) && step.End?
    ensures AnswersCome(Apply(s, step))
  {
    assert Answers(s, s.running[step.id]);
  }

  lemma CallAnswers(s: State, step: Step)
    requires Inv(s) && Enabled(s, step) && AnswersCome(s) && (step.AsyncInject? || step.CallInject?)
    ensures AnswersCome(Apply(s, step))
  {
    PendingIsNotStarted(s);
  }

  lemma ReturnAnswers(s: State, step: Step)
    requires Inv(s) && Enabled(s, step) && AnswersCome(s) && IsReturn(step)
    ensures AnswersCome(Apply(s, step))
  {
    var fd := s.calls[step.id].fd;
    assert forall other :: WaitsOf(s, other) && other != step.id ==> s.calls[other].fd != fd;
  }

  lemma StepAnswers(s: State, step: Step)
    requires Inv(s) && Legal(s, step) && AnswersCome(s)
    ensures AnswersCome(Apply(s, step))
  {
    if step.End? {
      EndAnswers(s, step);
    } else if step.AsyncInject? || step.CallInject? {
      CallAnswers(s, step);
    } else if IsReturn(step) {
      ReturnAnswers(s, step);
    }
  }

  lemma {:induction false} RunAnswers(s: State, steps: seq<Step>)
    requires Inv(s) && LegalRun(s, steps) && AnswersCome(s)
    ensures EnabledRun(s, steps) && AnswersCome(After(s, steps))
    decreases steps
  {
    LegalIsEnabled(s, steps);
    if steps != [] {
      StepAnswers(s, steps[0]);
      StepKeepsInv(s, steps[0]);
      RunAnswers(Apply(s, steps[0]), steps[1..]);
    }
  }

  /** The call that waits can return true, or the write of its answer comes next, before its deadline. */
  ghost predicate IsAnswered(s: State, id: Id) {
    WaitsOf(s, id) && id in s.finished && (s.calls[id].deadline.None? || s.clock < s.calls[id].deadline.value) ==>
      Enabled(s, Write(id)) || Enabled(s, ReturnTrue(id))
  }

  lemma InitialAnswers()
    ensures Inv(INITIAL) && AnswersCome(INITIAL)
  {
    InitialOk();
  }

  /**
   * The answer comes: in every legal run, when a closure has ended and the write of its answer is not
   * still to come, its caller can return true, unless the deadline has passed.
   */
  lemma CallerIsAnswered(steps: seq<Step>, id: Id)
    requires LegalRun(INITIAL, steps)
    ensures EnabledRun(INITIAL, steps)
    ensures IsAnswered(After(INITIAL, steps), id)
  {
    InitialAnswers();
    RunAnswers(INITIAL, steps);
    AnswersMean(After(INITIAL, steps), id);
  }

  lemma AnswersMean(s: State, id: Id)
    requires AnswersCome(s)
    ensures IsAnswered(s, id)
  {
  }

  /** A call returns true before its closure has ended only when it is a task's that was roused. */
  lemma NoEarlyTrue(s: State, step: Step, id: Id)
    requires Inv(s) && Enabled(s, step) && WaitsOf(s, id) && id !in s.finished
    ensures id in Apply(s, step).calls && Apply(s, step).calls[id].ReturnedTrue? <==> step == Roused(id)
  {
  }

  // ---------------------------------------------------------------------------------------
  // The condition is exact
  // ---------------------------------------------------------------------------------------

  /** Some call has returned true although its closure has not ended. */
  ghost predicate WrongTrue(s: State) {
    exists id :: id in s.calls && s.calls[id].ReturnedTrue? && id !in s.finished
  }

  /** Steps that are all legal can still lead to a wrong answer. */
  ghost predicate CanGoWrong(s: State) {
    exists steps :: LegalRun(s, steps) && EnabledRun(s, steps) && WrongTrue(After(s, steps))
  }

  lemma Prepend(s: State, step: Step)
    requires Legal(s, step) && CanGoWrong(Apply(s, step))
    ensures CanGoWrong(s)
  {
    var t := Apply(s, step);
    var steps :| LegalRun(t, steps) && EnabledRun(t, steps) && WrongTrue(After(t, steps));
    var all := [step] + steps;
    assert all[0] == step && all[1..] == steps;
    assert LegalRun(s, all) && EnabledRun(s, all) && After(s, all) == After(t, steps);
  }

  lemma LegalIsSafe(s: State)
    requires Inv(s)
    ensures !CanGoWrong(s)
  {
    forall steps | LegalRun(s, steps) && EnabledRun(s, steps)
      ensures !WrongTrue(After(s, steps))
    {
      RunKeepsInv(s, steps);
    }
  }

  /** The call of `other` waits on `fd`, where the answer to another closure is going to be written. */
  ghost predicate Misled(s: State, fd: Fd, other: Id) {
    && OneAtATime(s) && InOrder(s) && StartedOnce(s)
    && fd in s.open && s.open[fd] == other && other !in s.finished
    && other in s.calls && s.calls[other] == Waits(fd, None)
  }

  predicate WillAnswer(s: State, job: Job, fd: Fd) {
    job.ioOut == Some(fd) && StillWaited(job, s.clock)
  }

  lemma WrittenGoesWrong(s: State, fd: Fd, other: Id, id: Id)
    requires Misled(s, fd, other) && id in s.writing && s.writing[id] == fd
    ensures CanGoWrong(s)
  {
    var t := Apply(s, Write(id));
    var u := Apply(t, ReturnTrue(other));
    assert u.calls[other] == ReturnedTrue && WrongTrue(u);
    assert LegalRun(u, []) && EnabledRun(u, []) && After(u, []) == u;
    Prepend(t, ReturnTrue(other));
    Prepend(s, Write(id));
  }

  lemma RunningGoesWrong(s: State, fd: Fd, other: Id, id: Id)
    requires Misled(s, fd, other) && id in s.running && id != other && WillAnswer(s, s.running[id], fd)
    ensures CanGoWrong(s)
  {
    StepKeepsOrder(s, End(id, s.clock));
    WrittenGoesWrong(Apply(s, End(id, s.clock)), fd, other, id);
    Prepend(s, End(id, s.clock));
  }

  lemma SpawnedGoesWrong(s: State, fd: Fd, other: Id)
    requires Misled(s, fd, other) && s.spawned != [] && s.spawned[0].0.id != other && WillAnswer(s, s.spawned[0].0, fd)
    ensures CanGoWrong(s)
  {
    StepKeepsOrder(s, Start(0));
    RunningGoesWrong(Apply(s, Start(0)), fd, other, s.spawned[0].0.id);
    Prepend(s, Start(0));
  }

  /** A short while in which a job still is waited for. */
  lemma SoonEnough(s: State, job: Job, fd: Fd) returns (added: Time, yielded: Time)
    requires WillAnswer(s, job, fd)
    ensures s.clock < added < yielded && StillWaited(job, yielded)
  {
    var late := if job.deadline.Some? then job.deadline.value else s.clock + 3.0;
    added := s.clock + (late - s.clock) / 3.0;
    yielded := added + (late - s.clock) / 3.0;
  }

  /** How many steps it takes until the reader can read the next record. */
  function ToRead(s: State): nat {
    if s.reader.Reading? then 0 else if s.spawned == [] then 1 else 2
  }

  /** The reader comes to the record at position `i` before the deadline, if it is quick. */
  lemma {:induction false} PipedGoesWrong(s: State, fd: Fd, other: Id, i: nat)
    requires Misled(s, fd, other) && i < |s.pipe| && s.pipe[i].id != other && WillAnswer(s, s.pipe[i], fd)
    ensures CanGoWrong(s)
    decreases i, ToRead(s)
  {
    if s.reader.Reading? {
      var added, yielded := SoonEnough(s, s.pipe[i], fd);
      var t := Apply(s, Read(added, yielded));
      StepKeepsOrder(s, Read(added, yielded));
      if i == 0 {
        assert t.spawned == [(s.pipe[0], added)];
        SpawnedGoesWrong(t, fd, other);
      } else {
        assert t.pipe[i - 1] == s.pipe[i];
        PipedGoesWrong(t, fd, other, i - 1);
      }
      Prepend(s, Read(added, yielded));
    } else {
      var step := if s.spawned != [] then Start(0) else if s.reader.Waiting? then Wake else Resume;
      StepKeepsOrder(s, step);
      PipedGoesWrong(Apply(s, step), fd, other, i);
      Prepend(s, step);
    }
  }

  lemma {:induction false} FreshId(ids: seq<Id>) returns (id: Id)
    ensures forall k :: 0 <= k < |ids| ==> ids[k] < id
  {
    if ids == [] {
      id := 0;
    } else {
      id := FreshId(ids[..|ids| - 1]);
      id := if id <= ids[|ids| - 1] then ids[|ids| - 1] + 1 else id;
    }
  }

  lemma InSum(a: seq<Id>, b: seq<Id>, c: seq<Id>, id: Id)
    requires id in a + b + c
    ensures id in a || id in b || id in c
  {
  }

  lemma IdIsOfJob(jobs: seq<Job>, id: Id)
    requires id in Ids(jobs)
    ensures exists i :: 0 <= i < |jobs| && jobs[i].id == id
  {
    var i :| 0 <= i < |Ids(jobs)| && Ids(jobs)[i] == id;
    assert jobs[i].id == id;
  }

  /** Where the job of a call that waits for an answer is, as long as it has not ended. */
  lemma JobOf(s: State, id: Id)
    requires Inv(s) && WaitsOf(s, id) && id !in s.finished
    ensures id in s.running
      || (s.spawned != [] && s.spawned[0].0.id == id) || (exists i :: 0 <= i < |s.pipe| && s.pipe[i].id == id)
  {
    InSum(s.started, Ids(Spawned(s)), Ids(s.pipe), id);
    if id in Ids(Spawned(s)) {
      IdIsOfJob(Spawned(s), id);
    } else if id in Ids(s.pipe) {
      IdIsOfJob(s.pipe, id);
    }
  }

  /** The next caller gets the descriptor of a call that left its answer behind. */
  lemma NextCallerIsMisled(s: State, step: Step, other: Id)
    requires Inv(s) && Enabled(s, step) && (step.GiveUp? || step.Abandon? || step.Roused?) && other !in s.injected
    ensures var t, fd := Apply(s, step), s.calls[step.id].fd;
      Enabled(t, CallInject(other, fd, None, Thread)) && Misled(Apply(t, CallInject(other, fd, None, Thread)), fd, other)
  {
    var t, fd := Apply(s, step), s.calls[step.id].fd;
    StepKeepsOrder(s, step);
    PendingIsNotStarted(s);
    StepKeepsOrder(t, CallInject(other, fd, None, Thread));
  }

  /** An abandoned job that has not ended is answered on the descriptor that the next caller has now. */
  lemma AbandonedGoesWrong(s: State, u: State, fd: Fd, other: Id, id: Id)
    requires Inv(s) && WaitsOf(s, id) && id !in s.finished && id != other && Misled(u, fd, other)
    requires s.calls[id].fd == fd && (s.calls[id].deadline.None? || s.clock < s.calls[id].deadline.value)
    requires u.clock == s.clock && u.running == s.running && u.spawned == s.spawned
    requires |s.pipe| <= |u.pipe| && forall i :: 0 <= i < |s.pipe| ==> u.pipe[i] == s.pipe[i]
    ensures CanGoWrong(u)
  {
    JobOf(s, id);
    if id in s.running {
      assert Answers(s, s.running[id]);
      RunningGoesWrong(u, fd, other, id);
    } else if s.spawned != [] && s.spawned[0].0.id == id {
      assert Answers(s, s.spawned[0].0);
      SpawnedGoesWrong(u, fd, other);
    } else {
      var i :| 0 <= i < |s.pipe| && s.pipe[i].id == id;
      assert Answers(s, s.pipe[i]) && u.pipe[i] == s.pipe[i];
      PipedGoesWrong(u, fd, other, i);
    }
  }

  lemma LeftAnswerGoesWrong(s: State, step: Step)
    requires Inv(s) && Enabled(s, step) && LeavesAnswer(s, step)
    ensures CanGoWrong(Apply(s, step))
  {
    var id, fd, t := step.id, s.calls[step.id].fd, Apply(s, step);
    var other := FreshId(s.injected);
    assert other !in s.injected && id in s.injected;
    NextCallerIsMisled(s, step, other);
    var u := Apply(t, CallInject(other, fd, None, Thread));
    if id in s.writing {
      WrittenGoesWrong(u, fd, other, id);
    } else {
      AbandonedGoesWrong(s, u, fd, other, id);
    }
    Prepend(t, CallInject(other, fd, None, Thread));
  }

  lemma EarlyIsWrong(s: State, step: Step)
    requires Enabled(s, step) && ReturnsEarly(s, step)
    ensures CanGoWrong(Apply(s, step))
  {
    var t := Apply(s, step);
    assert t.calls[step.id] == ReturnedTrue && WrongTrue(t);
    assert LegalRun(t, []) && EnabledRun(t, []) && After(t, []) == t;
  }

  /**
   * A step is safe if and only if it is legal: after any other, at once or by legal steps, a caller is
   * told that its closure has ended although it has not.
   */
  lemma SafeIffLegal(s: State, step: Step)
    requires Inv(s) && Enabled(s, step)
    ensures CanGoWrong(Apply(s, step)) <==> ReturnsEarly(s, step) || LeavesAnswer(s, step)
  {
    if ReturnsEarly(s, step) {
      EarlyIsWrong(s, step);
    } else if LeavesAnswer(s, step) {
      LeftAnswerGoesWrong(s, step);
    } else {
      StepKeepsInv(s, step);
      LegalIsSafe(Apply(s, step));
    }
  }

  /** A closure has ended and its call was found to wait still, one tick before its deadline. */
  const LATE := INITIAL.(
    clock := 5.0, injected := [1], started := [1], finished := {1}, writing := map[1 := 7],
    open := map[7 := 1], calls := map[1 := Waits(7, Some(6.0))])

  /** It is reached, one legal step after the other. */
  const TO_LATE: seq<Step> :=
    [CallInject(1, 7, Some(6.0), Thread), Wake, Read(1.0, 2.0), Start(0), End(1, 5.0), Resume, ReadNothing]

  const JOB := Job(1, Some(7), Some(6.0))

  const CALLED := INITIAL.(
    pipe := [JOB], injected := [1], open := map[7 := 1], calls := map[1 := Waits(7, Some(6.0))])

  const READ := CALLED.(pipe := [], spawned := [(JOB, 1.0)], reader := Yielded(2.0), clock := 2.0)

  const STARTED := READ.(spawned := [], running := map[1 := JOB], started := [1])

  const ENDED := STARTED.(running := map[], finished := {1}, writing := map[1 := 7], clock := 5.0)

  /** The steps lead from one state to the other, and all are legal. */
  ghost predicate Leads(s: State, steps: seq<Step>, t: State) {
    LegalRun(s, steps) && EnabledRun(s, steps) && After(s, steps) == t
  }

  lemma LeadsOn(s: State, step: Step, u: State, rest: seq<Step>, t: State)
    requires Legal(s, step) && Apply(s, step) == u && Leads(u, rest, t)
    ensures Leads(s, [step] + rest, t)
  {
    assert ([step] + rest)[0] == step && ([step] + rest)[1..] == rest;
  }

  lemma CalledIsRead()
    ensures Legal(INITIAL, TO_LATE[0]) && Apply(INITIAL, TO_LATE[0]) == CALLED
    ensures Legal(CALLED, Wake) && Legal(CALLED.(reader := Reading), Read(1.0, 2.0))
    ensures Apply(CALLED.(reader := Reading), Read(1.0, 2.0)) == READ
  {
    assert [] + [Job(1, Some(7), Some(6.0))] == [JOB];
    assert [JOB][1..] == [] && [] + [(JOB, 1.0)] == [(JOB, 1.0)];
  }

  lemma StartedEnds()
    ensures Legal(READ, Start(0)) && Apply(READ, Start(0)) == STARTED
    ensures Legal(STARTED, End(1, 5.0)) && Apply(STARTED, End(1, 5.0)) == ENDED
    ensures Legal(ENDED, Resume) && Legal(ENDED.(reader := Reading), ReadNothing)
    ensures ENDED.(reader := Waiting) == LATE
  {
    assert READ.spawned[..0] + READ.spawned[1..] == [];
    assert map[1 := JOB] - {1} == map[];
  }

  lemma LeadsTwice(s: State, a: Step, u: State, b: Step, v: State, rest: seq<Step>, t: State)
    requires Legal(s, a) && Apply(s, a) == u && Legal(u, b) && Apply(u, b) == v && Leads(v, rest, t)
    ensures Leads(s, [a, b] + rest, t)
  {
    LeadsOn(u, b, v, rest, t);
    LeadsOn(s, a, u, [b] + rest, t);
    assert [a] + ([b] + rest) == [a, b] + rest;
  }

  lemma EndedLeads()
    ensures Leads(STARTED, [End(1, 5.0)] + [Resume, ReadNothing], LATE)
  {
    StartedEnds();
    assert Leads(LATE, [], LATE);
    LeadsTwice(ENDED, Resume, ENDED.(reader := Reading), ReadNothing, LATE, [], LATE);
    assert [Resume, ReadNothing] + [] == [Resume, ReadNothing];
    LeadsOn(STARTED, End(1, 5.0), ENDED, [Resume, ReadNothing], LATE);
  }

  lemma ReadLeads()
    ensures Leads(READ, [Start(0)] + ([End(1, 5.0)] + [Resume, ReadNothing]), LATE)
  {
    StartedEnds();
    EndedLeads();
    LeadsOn(READ, Start(0), STARTED, [End(1, 5.0)] + [Resume, ReadNothing], LATE);
  }

  lemma CalledLeads(rest: seq<Step>)
    requires Leads(READ, rest, LATE)
    ensures Leads(INITIAL, [TO_LATE[0]] + ([Wake, Read(1.0, 2.0)] + rest), LATE)
  {
    CalledIsRead();
    LeadsTwice(CALLED, Wake, CALLED.(reader := Reading), Read(1.0, 2.0), READ, rest, LATE);
    LeadsOn(INITIAL, TO_LATE[0], CALLED, [Wake, Read(1.0, 2.0)] + rest, LATE);
  }

  lemma LateIsReached()
    ensures Leads(INITIAL, TO_LATE, LATE)
    ensures Enabled(LATE, GiveUp(1, 6.0)) && LeavesAnswer(LATE, GiveUp(1, 6.0))
  {
    ReadLeads();
    var rest := [Start(0)] + ([End(1, 5.0)] + [Resume, ReadNothing]);
    CalledLeads(rest);
    assert TO_LATE == [TO_LATE[0]] + ([Wake, Read(1.0, 2.0)] + rest);
  }
}
