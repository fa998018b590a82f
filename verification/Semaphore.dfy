/**
  The counting semaphore on top of the scheduler. Its state machine is a scheduler run in which the
  running task may also call fetch, fetch_until, give and cancel; a task suspended inside fetch
  finishes that call when it is next dispatched.
 */
module Semaphore {
  import opened Scheduler
  import opened SchedulerInvariant
  import opened SchedulerRuns

  const WIDTH: nat := 0x1_0000_0000 // count_ is a uint32_t

  /**
    `count` and `waiters` are the semaphore's fields. The rest records the run: the tasks inside a
    fetch that suspended, those of them a give has woken, and how often each thing happened.
   */
  datatype Sem = Sem(
    sch: Sched, count: nat, waiters: seq<Tid>,
    inFetch: set<Tid>, granted: set<Tid>, init: nat, gives: nat, fetched: nat, wraps: nat)

  function NewSem(sch: Sched, init: nat): Sem {
    Sem(sch, init, [], {}, {}, init, 0, 0, 0)
  }

  function RemoveFirst(s: seq<Tid>, t: Tid): seq<Tid> {
    if s == [] then [] else if s[0] == t then s[1..] else [s[0]] + RemoveFirst(s[1..], t)
  }

  predicate CanCall(m: Sem) {
    HasRunning(m.sch) && m.sch.running.value !in m.inFetch
  }

  /** fetch, or fetch_until with Some(timeout). */
  function Fetch(m: Sem, timeout: Option<int>, now: Time): Sem
    requires CanCall(m)
  {
    if m.count > 0 then
      m.(count := m.count - 1, fetched := m.fetched + 1, sch := m.sch.(clock := now))
    else
      var t := m.sch.running.value;
      var m1 := m.(sch := if timeout.None? then Hold(m.sch, now) else HoldFor(m.sch, timeout.value, now));
      if Me(m.sch).cancelled then m1.(waiters := RemoveFirst(m.waiters + [t], t))
      else m1.(waiters := m.waiters + [t], inFetch := m.inFetch + {t})
  }

  predicate Fetched(m: Sem)
    requires HasRunning(m.sch)
  {
    Me(m.sch).signal == Received
  }

  /** The rest of a fetch that suspended, run when its task is dispatched. */
  function FetchReturn(m: Sem, now: Time): Sem
    requires HasRunning(m.sch)
  {
    var t := m.sch.running.value;
    m.(waiters := RemoveFirst(m.waiters, t), inFetch := m.inFetch - {t}, granted := m.granted - {t},
       fetched := if Fetched(m) then m.fetched + 1 else m.fetched, sch := m.sch.(clock := now))
  }

  /** Wakes the first live waiter; counts the permit when there is none. */
  function GiveLoop(m: Sem, now: Time): Sem
    decreases |m.waiters|
  {
    if m.waiters == [] then
      m.(count := (m.count + 1) % WIDTH, wraps := if m.count + 1 == WIDTH then m.wraps + 1 else m.wraps,
         sch := m.sch.(clock := now))
    else
      var t, m1 := m.waiters[0], m.(waiters := m.waiters[1..]);
      if t !in m.sch.tasks then GiveLoop(m1, now)
      else m1.(sch := Scheduler.Wakeup(m.sch, t, Received, now), granted := m.granted + {t})
  }

  function Give(m: Sem, now: Time): Sem {
    GiveLoop(m.(gives := m.gives + 1), now)
  }

  function WakeAll(s: Sched, ids: seq<Tid>, nows: seq<Time>): Sched
    requires |nows| == |ids|
    decreases |ids|
  {
    if ids == [] then s else WakeAll(Scheduler.Wakeup(s, ids[0], Nothing, nows[0]), ids[1..], nows[1..])
  }

  function CancelAll(m: Sem, nows: seq<Time>): Sem
    requires |nows| == |m.waiters|
  {
    m.(sch := WakeAll(m.sch, m.waiters, nows), waiters := [])
  }

  // ----- runs -----

  datatype SemStep =
    | Other(step: Step)
    | DoFetch(timeout: Option<int>, now: Time)
    | DoFetchReturn(now: Time)
    | DoGive(now: Time)
    | DoCancelAll(nows: seq<Time>)

  ghost predicate WakeAllTimely(s: Sched, ids: seq<Tid>, nows: seq<Time>)
    requires |nows| == |ids|
    decreases |ids|
  {
    ids != [] ==>
      && s.clock <= nows[0] && Timely(s, DoWakeup(ids[0], Nothing, nows[0]))
      && WakeAllTimely(Scheduler.Wakeup(s, ids[0], Nothing, nows[0]), ids[1..], nows[1..])
  }

  /**
    The step lets an event answer a fetch that has no permit, or an error take one away: the index still
    names the task for a wait for writing that timed out before.
   */
  ghost predicate Disturbs(m: Sem, step: Step) {
    exists t :: t in m.inFetch && Reaches(m.sch, step, t) && (step.DoEvent? <==> t !in m.granted)
  }

  /**
    The running task takes no step of its own before its fetch has returned, and nobody but the
    semaphore wakes a task by hand while it is inside fetch.
   */
  ghost predicate SemEnabled(m: Sem, x: SemStep) {
    match x
    case Other(step) =>
      && Enabled(m.sch, step) && Orderly(m.sch, step)
      && (IsOwnCall(step) ==> CanCall(m))
      && (step.DoWakeup? ==> step.tid !in m.inFetch)
    case DoFetch(timeout, now) =>
      && CanCall(m) && m.sch.clock <= now
      && (timeout.Some? && m.count == 0 ==> Timely(m.sch, DoHoldFor(timeout.value, now)))
    case DoFetchReturn(now) => HasRunning(m.sch) && m.sch.running.value in m.inFetch && m.sch.clock <= now
    case DoGive(now) =>
      && (m.sch.running.Some? ==> CanCall(m)) && m.sch.clock <= now
      && (m.waiters != [] ==> Timely(m.sch, DoWakeup(m.waiters[0], Received, now)))
    case DoCancelAll(nows) =>
      && (m.sch.running.Some? ==> CanCall(m)) && |nows| == |m.waiters| && WakeAllTimely(m.sch, m.waiters, nows)
  }

  ghost function SemApply(m: Sem, x: SemStep): Sem
    requires SemEnabled(m, x)
  {
    match x
    case Other(step) => m.(sch := Apply(m.sch, step))
    case DoFetch(timeout, now) => Fetch(m, timeout, now)
    case DoFetchReturn(now) => FetchReturn(m, now)
    case DoGive(now) => Give(m, now)
    case DoCancelAll(nows) => CancelAll(m, nows)
  }

  // ----- the invariant -----

  /** A task inside fetch waits on no descriptor, and its signal is Received iff it was granted a permit. */
  ghost predicate InFetchOk(s: Sched, t: Tid, granted: bool) {
    && t in s.tasks
    && (Listed(s, t) ==> HandlerOf(s, t) == NoHandler)
    && (s.tasks[t].signal == Received <==> granted)
    && (granted ==> !Held(s, t))
  }

  ghost predicate WaitersOk(m: Sem) {
    && NoDup(m.waiters)
    && (forall t | t in m.waiters :: t in m.inFetch && t !in m.granted)
    && m.granted <= m.inFetch
    && (m.count > 0 ==> m.waiters == [])
  }

  predicate Conserved(m: Sem) {
    m.count < WIDTH && m.init + m.gives == m.fetched + m.count + |m.granted| + WIDTH * m.wraps
  }

  ghost predicate SemInv(m: Sem) {
    && Core(m.sch) && WaitersOk(m) && Conserved(m)
    && (forall t | t in m.inFetch :: InFetchOk(m.sch, t, t in m.granted))
  }

  // ----- scheduler steps -----

  lemma {:induction false} SweepInFetch(s: Sched, order: seq<Tid>, nows: seq<Time>, t: Tid, g: bool)
    requires Core(s) && s.running == None && |nows| == |order| && NowsFrom(s.clock, nows)
    requires SweepTimely(s, order, nows) && InFetchOk(s, t, g)
    ensures InFetchOk(Sweep(s, order, nows), t, g)
    decreases |order|
  {
    if order != [] {
      CancelOk(s, order[0], nows[0]);
      if order[0] in s.tasks {
        ListedIsOccupied(s, order[0]);
      }
      var s1 := Cancel(s, order[0], nows[0]);
      assert s1.running == None;
      assert InFetchOk(s1, t, g);
      SweepInFetch(s1, order[1..], nows[1..], t, g);
    }
  }

  lemma StepInFetch(s: Sched, step: Step, t: Tid, g: bool)
    requires Core(s) && Enabled(s, step) && Orderly(s, step) && InFetchOk(s, t, g)
    requires Reaches(s, step, t) ==> step.DoEvent? == g
    requires IsOwnCall(step) ==> s.running != Some(t)
    requires step.DoWakeup? ==> step.tid != t
    ensures InFetchOk(Apply(s, step), t, g)
  {
    if !Touches(s, step, t) {
      StepFrame(s, step, t);
    } else if Reaches(s, step, t) {
      ReachedIsAnswered(s, step, t);
    } else {
      match step
      case DoDispatch(now) => DispatchTakesOut(s, now);
      case DoCancel(tid, now) => ListedIsOccupied(s, t);
      case DoSweep(order, nows) => SweepInFetch(s, order, nows, t, g);
      case _ =>
    }
  }

  lemma OtherOk(m: Sem, step: Step)
    requires SemInv(m) && SemEnabled(m, Other(step)) && !Disturbs(m, step)
    ensures SemInv(m.(sch := Apply(m.sch, step)))
  {
    StepKeepsCore(m.sch, step);
    forall t | t in m.inFetch
      ensures InFetchOk(Apply(m.sch, step), t, t in m.granted)
    {
      StepInFetch(m.sch, step, t, t in m.granted);
    }
  }

  /** While the entries of the index are current it names no task inside fetch. */
  lemma CleanIsUndisturbed(m: Sem, step: Step)
    requires SemInv(m) && Inv(m.sch) && Enabled(m.sch, step)
    ensures !Disturbs(m, step)
  {
    assert forall e | e in m.sch.list.fds :: (e.ev == Read || e.ev == Write) && WaitsOn(m.sch, e);
    if step.DoEvent? {
      SearchOk(m.sch.list.fds, step.fd, step.ev);
    } else if step.DoError? {
      NamedBy(m.sch.list.fds, step.fd);
    }
    assert forall t | t in m.inFetch :: InFetchOk(m.sch, t, t in m.granted);
  }

  /** An event that reaches a fetch without a permit makes it return true; an error loses a granted one. */
  lemma DisturbedFetch(m: Sem, step: Step, t: Tid)
    requires SemInv(m) && SemEnabled(m, Other(step)) && t in m.inFetch && Reaches(m.sch, step, t)
    requires step.DoEvent? <==> t !in m.granted
    ensures var s1 := Apply(m.sch, step);
      t in s1.tasks && Listed(s1, t) && (s1.tasks[t].signal == Received <==> t !in m.granted)
  {
    assert InFetchOk(m.sch, t, t in m.granted);
    ReachedIsAnswered(m.sch, step, t);
  }

  // ----- fetch -----

  lemma {:induction false} RemoveFirstOk(s: seq<Tid>, t: Tid)
    requires NoDup(s)
    ensures NoDup(RemoveFirst(s, t)) && (forall u :: u in RemoveFirst(s, t) <==> u in s && u != t)
  {
    if s != [] && s[0] != t {
      assert NoDup(s[1..]) && s[0] !in s[1..];
      RemoveFirstOk(s[1..], t);
      assert s[0] !in RemoveFirst(s[1..], t) && s == [s[0]] + s[1..];
    } else if s != [] {
      assert s == [t] + s[1..];
    }
  }

  lemma {:induction false} RemoveLast(s: seq<Tid>, t: Tid)
    requires t !in s
    ensures RemoveFirst(s + [t], t) == s
  {
    if s != [] {
      assert (s + [t])[1..] == s[1..] + [t];
      RemoveLast(s[1..], t);
    }
  }

  lemma ClockInFetch(m: Sem, now: Time)
    requires SemInv(m) && m.sch.clock <= now
    ensures SemInv(m.(sch := m.sch.(clock := now)))
  {
    var s1 := m.sch.(clock := now);
    ClockOk(m.sch, now);
    forall t | t in m.inFetch
      ensures InFetchOk(s1, t, t in m.granted)
    {
      assert InFetchOk(m.sch, t, t in m.granted);
    }
  }

  lemma FetchSuspends(m: Sem, timeout: Option<int>, now: Time)
    requires SemInv(m) && SemEnabled(m, DoFetch(timeout, now)) && m.count == 0
    ensures SemInv(Fetch(m, timeout, now))
  {
    var t := m.sch.running.value;
    var step := if timeout.None? then DoHold(now) else DoHoldFor(timeout.value, now);
    OtherOk(m, step);
    var m1 := m.(sch := Apply(m.sch, step));
    assert t !in m.waiters;
    if Me(m.sch).cancelled {
      RemoveLast(m.waiters, t);
    } else {
      ParkedOk(m.sch);
      if timeout.Some? {
        FreeTimeVacant(Parked(m.sch), t, now + timeout.value);
      }
      assert InFetchOk(m1.sch, t, false);
      assert NoDup(m.waiters + [t]);
    }
  }

  lemma FetchOk(m: Sem, timeout: Option<int>, now: Time)
    requires SemInv(m) && SemEnabled(m, DoFetch(timeout, now))
    ensures SemInv(Fetch(m, timeout, now))
  {
    if m.count > 0 {
      ClockInFetch(m, now);
    } else {
      FetchSuspends(m, timeout, now);
    }
  }

  /** A suspended fetch returns true exactly when a give granted its permit. */
  lemma FetchReturnOk(m: Sem, now: Time)
    requires SemInv(m) && SemEnabled(m, DoFetchReturn(now))
    ensures Fetched(m) <==> m.sch.running.value in m.granted
    ensures SemInv(FetchReturn(m, now))
  {
    var t := m.sch.running.value;
    assert InFetchOk(m.sch, t, t in m.granted);
    ClockInFetch(m, now);
    RemoveFirstOk(m.waiters, t);
    var m1 := FetchReturn(m, now);
    forall u | u in m1.inFetch
      ensures InFetchOk(m1.sch, u, u in m1.granted)
    {
      assert InFetchOk(m.sch.(clock := now), u, u in m.granted);
    }
    if t in m.granted {
      assert |m.granted - {t}| == |m.granted| - 1;
    } else {
      assert m.granted - {t} == m.granted;
    }
    assert |m1.granted| == |m.granted| - (if Fetched(m) then 1 else 0);
  }

  // ----- give and cancel -----

  /** A wakeup by the semaphore leaves what it says about every other task inside fetch. */
  lemma WakeupOthers(m: Sem, t: Tid, now: Time)
    requires SemInv(m) && t in m.sch.tasks && m.sch.clock <= now && Timely(m.sch, DoWakeup(t, Received, now))
    ensures forall u | u in m.inFetch && u != t ::
      InFetchOk(Scheduler.Wakeup(m.sch, t, Received, now), u, u in m.granted)
  {
    forall u | u in m.inFetch && u != t
      ensures InFetchOk(Scheduler.Wakeup(m.sch, t, Received, now), u, u in m.granted)
    {
      assert InFetchOk(m.sch, u, u in m.granted);
      StepFrame(m.sch, DoWakeup(t, Received, now), u);
    }
  }

  /** Grants are first-in first-out: the oldest waiter gets the permit and leaves the list. */
  lemma GiveWakesTheFirst(m: Sem, now: Time)
    requires SemInv(m) && SemEnabled(m, DoGive(now)) && m.waiters != []
    ensures var m1, t := Give(m, now), m.waiters[0];
      && m1.waiters == m.waiters[1..] && m1.granted == m.granted + {t} && m1.count == m.count == 0
      && t in m1.sch.tasks && m1.sch.tasks[t].signal == Received && !Held(m1.sch, t)
      && m1.sch == Scheduler.Wakeup(m.sch, t, Received, now)
    ensures SemInv(Give(m, now))
  {
    var t := m.waiters[0];
    assert t in m.waiters && t in m.inFetch && InFetchOk(m.sch, t, t in m.granted);
    var m1 := Give(m, now);
    assert m1 == m.(gives := m.gives + 1, waiters := m.waiters[1..], granted := m.granted + {t},
                    sch := Scheduler.Wakeup(m.sch, t, Received, now));
    WakeupOk(m.sch, t, Received, now);
    ListedIsOccupied(m.sch, t);
    WakeupOthers(m, t, now);
    assert InFetchOk(m1.sch, t, true);
    assert |m.granted + {t}| == |m.granted| + 1;
    assert WaitersOk(m1) by {
      assert m.waiters == [t] + m.waiters[1..];
    }
  }

  lemma GiveOk(m: Sem, now: Time)
    requires SemInv(m) && SemEnabled(m, DoGive(now))
    ensures SemInv(Give(m, now))
  {
    if m.waiters == [] {
      ClockInFetch(m, now);
      assert m.count + 1 == WIDTH ==> (m.count + 1) % WIDTH == 0;
    } else {
      GiveWakesTheFirst(m, now);
    }
  }

  lemma {:induction false} WakeAllOk(s: Sched, ids: seq<Tid>, nows: seq<Time>)
    requires Core(s) && |nows| == |ids| && WakeAllTimely(s, ids, nows)
    ensures Core(WakeAll(s, ids, nows))
    decreases |ids|
  {
    if ids != [] {
      WakeupOk(s, ids[0], Nothing, nows[0]);
      WakeAllOk(Scheduler.Wakeup(s, ids[0], Nothing, nows[0]), ids[1..], nows[1..]);
    }
  }

  lemma {:induction false} WakeAllInFetch(s: Sched, ids: seq<Tid>, nows: seq<Time>, t: Tid, g: bool)
    requires Core(s) && |nows| == |ids| && WakeAllTimely(s, ids, nows)
    requires InFetchOk(s, t, g) && (t in ids ==> !g)
    ensures InFetchOk(WakeAll(s, ids, nows), t, g)
    decreases |ids|
  {
    if ids != [] {
      var s1 := Scheduler.Wakeup(s, ids[0], Nothing, nows[0]);
      WakeupOk(s, ids[0], Nothing, nows[0]);
      if ids[0] == t {
        ListedIsOccupied(s, t);
      } else {
        StepFrame(s, DoWakeup(ids[0], Nothing, nows[0]), t);
      }
      WakeAllInFetch(s1, ids[1..], nows[1..], t, g);
    }
  }

  lemma CancelAllOk(m: Sem, nows: seq<Time>)
    requires SemInv(m) && SemEnabled(m, DoCancelAll(nows))
    ensures SemInv(CancelAll(m, nows))
  {
    WakeAllOk(m.sch, m.waiters, nows);
    forall t | t in m.inFetch
      ensures InFetchOk(CancelAll(m, nows).sch, t, t in m.granted)
    {
      assert InFetchOk(m.sch, t, t in m.granted);
      WakeAllInFetch(m.sch, m.waiters, nows, t, t in m.granted);
    }
  }

  // ----- main results -----

  ghost predicate Undisturbed(m: Sem, x: SemStep) {
    x.Other? ==> !Disturbs(m, x.step)
  }

  /**
    The account of permits survives a step exactly when no stale index entry lets an event answer a
    fetch that has no permit, or an error take a granted one away.
   */
  lemma SemStepIff(m: Sem, x: SemStep)
    requires SemInv(m) && SemEnabled(m, x)
    ensures SemInv(SemApply(m, x)) <==> Undisturbed(m, x)
  {
    match x
    case Other(step) =>
      if Disturbs(m, step) {
        var t :| t in m.inFetch && Reaches(m.sch, step, t) && (step.DoEvent? <==> t !in m.granted);
        DisturbedFetch(m, step, t);
      } else {
        OtherOk(m, step);
      }
    case DoFetch(timeout, now) => FetchOk(m, timeout, now);
    case DoFetchReturn(now) => FetchReturnOk(m, now);
    case DoGive(now) => GiveOk(m, now);
    case DoCancelAll(nows) => CancelAllOk(m, nows);
  }

  /** The dispatch of a task inside fetch that a descriptor answered: its signal stays what it is. */
  lemma DisturbedResumes(m: Sem, step: Step, t: Tid, now: Time)
    requires SemInv(m) && SemEnabled(m, Other(step)) && t in m.inFetch && Reaches(m.sch, step, t)
    requires step.DoEvent? <==> t !in m.granted
    requires var m1 := SemApply(m, Other(step)); SemEnabled(m1, Other(DoDispatch(now))) && Head(m1.sch).tid == t
    ensures var m2 := SemApply(SemApply(m, Other(step)), Other(DoDispatch(now)));
      && m2 == m.(sch := m2.sch) && m2.sch.running == Some(t) && HasRunning(m2.sch) && m2.sch.clock == now
      && (Fetched(m2) <==> t !in m.granted)
  {
    var m1 := SemApply(m, Other(step));
    assert InFetchOk(m.sch, t, t in m.granted);
    ReachedIsAnswered(m.sch, step, t);
    StepKeepsCore(m.sch, step);
    DispatchTakesOut(m1.sch, now);
  }

  /**
    What is wrong then: the disturbed task resumes and its fetch returns true without a permit, or false
    although it had one; and the account of permits no longer adds up.
   */
  lemma DisturbedReturnBreaksAccount(m: Sem, step: Step, t: Tid, now: Time, end: Time)
    requires SemInv(m) && SemEnabled(m, Other(step)) && t in m.inFetch && Reaches(m.sch, step, t)
    requires step.DoEvent? <==> t !in m.granted
    requires var m1 := SemApply(m, Other(step)); SemEnabled(m1, Other(DoDispatch(now))) && Head(m1.sch).tid == t
    requires now <= end
    ensures var m2 := SemApply(SemApply(m, Other(step)), Other(DoDispatch(now)));
      && SemEnabled(m2, DoFetchReturn(end)) && (Fetched(m2) <==> t !in m.granted)
      && !Conserved(SemApply(m2, DoFetchReturn(end)))
  {
    DisturbedResumes(m, step, t, now);
    var m2 := SemApply(SemApply(m, Other(step)), Other(DoDispatch(now)));
    var m3 := SemApply(m2, DoFetchReturn(end));
    if t in m.granted {
      assert |m.granted - {t}| == |m.granted| - 1;
    } else {
      assert m.granted - {t} == m.granted;
    }
    assert m3.granted == m.granted - {t};
  }

  ghost predicate SemLegal(m: Sem, xs: seq<SemStep>)
    decreases |xs|
  {
    xs != [] ==> SemEnabled(m, xs[0]) && Undisturbed(m, xs[0]) && SemLegal(SemApply(m, xs[0]), xs[1..])
  }

  ghost function SemRun(m: Sem, xs: seq<SemStep>): Sem
    requires SemLegal(m, xs)
    decreases |xs|
  {
    if xs == [] then m else SemRun(SemApply(m, xs[0]), xs[1..])
  }

  lemma {:induction false} SemRunOk(m: Sem, xs: seq<SemStep>)
    requires SemInv(m) && SemLegal(m, xs)
    ensures SemInv(SemRun(m, xs))
    decreases |xs|
  {
    if xs != [] {
      SemStepIff(m, xs[0]);
      SemRunOk(SemApply(m, xs[0]), xs[1..]);
    }
  }

  /**
    Permits are conserved over every run in which no descriptor answers a fetch, under any mix of
    timeouts, also of waits for writing, and cancellations: the initial
    count plus the gives equals the successful fetches plus the count plus the grants whose task has
    not resumed yet, modulo the width of the counter, and exactly when it did not wrap around. A
    positive count means no waiters; the waiters are distinct live tasks; no granted task is stuck.
   */
  lemma PermitsConserved(sch: Sched, init: nat, xs: seq<SemStep>)
    requires Core(sch) && init < 0x1_0000_0000 && SemLegal(NewSem(sch, init), xs)
    ensures var m := SemRun(NewSem(sch, init), xs);
      && m.init + m.gives == m.fetched + m.count + |m.granted| + 0x1_0000_0000 * m.wraps && m.count < 0x1_0000_0000
      && (m.count > 0 ==> m.waiters == [])
      && NoDup(m.waiters) && (forall t | t in m.waiters :: t in m.sch.tasks)
      && (forall t | t in m.granted :: t in m.sch.tasks && !Held(m.sch, t) && m.sch.tasks[t].signal == Received)
  {
    SemRunOk(NewSem(sch, init), xs);
    var m := SemRun(NewSem(sch, init), xs);
    assert forall t | t in m.waiters :: InFetchOk(m.sch, t, t in m.granted);
    assert forall t | t in m.granted :: InFetchOk(m.sch, t, t in m.granted);
  }
}
