/**
  A run from the start after which a descriptor answers a fetch: a wait for writing times out, its task
  fetches at count 0 and is suspended, and the descriptor still names it.
 */
module SemaphoreDisturbed {
  import opened Scheduler
  import opened SchedulerInvariant
  import opened SchedulerStale
  import opened Semaphore

  function BeforeEvent(t: Tid, fd: int): seq<SemStep> {
    [Other(DoSpawn(t, 1, 0, 0))] + ([Other(DoDispatch(0))] + ([Other(DoWait(fd, Write, 1, 1))] +
    ([Other(DoDispatch(2))] + [DoFetch(None, 3)])))
  }

  /** The steps lead from one state to the other, and nothing is disturbed on the way. */
  ghost predicate Leads(m: Sem, xs: seq<SemStep>, m1: Sem) {
    SemLegal(m, xs) && SemRun(m, xs) == m1
  }

  lemma LeadsOn(m: Sem, x: SemStep, m1: Sem, xs: seq<SemStep>, m2: Sem)
    requires SemEnabled(m, x) && Undisturbed(m, x) && SemApply(m, x) == m1 && Leads(m1, xs, m2)
    ensures Leads(m, [x] + xs, m2)
  {
    assert ([x] + xs)[0] == x && ([x] + xs)[1..] == xs;
  }

  lemma LeadsOnce(m: Sem, x: SemStep, m1: Sem)
    requires SemEnabled(m, x) && Undisturbed(m, x) && SemApply(m, x) == m1
    ensures Leads(m, [x], m1)
  {
    assert [x][1..] == [] && Leads(m1, [], m1);
  }

  /** A step that is no event and no error disturbs nothing. */
  lemma OtherLeads(s: Sched, step: Step, s1: Sched, xs: seq<SemStep>, m2: Sem)
    requires Enabled(s, step) && Timely(s, step) && !step.DoEvent? && !step.DoError? && Apply(s, step) == s1
    requires Leads(NewSem(s1, 0), xs, m2)
    ensures Leads(NewSem(s, 0), [Other(step)] + xs, m2)
  {
    LeadsOn(NewSem(s, 0), Other(step), NewSem(s1, 0), xs, m2);
  }

  lemma FetchSuspendsIt(t: Tid, fd: int)
    requires t != INVALID_TID && fd != NO_FD
    ensures CanDispatch(FirstWait(t, fd), 2) && Head(FirstWait(t, fd)).tid in FirstWait(t, fd).tasks
    ensures var m := NewSem(Dispatch(FirstWait(t, fd), 2), 0); var m1 := Fetch(m, None, 3);
      && CanCall(m) && Leads(m, [DoFetch(None, 3)], m1)
      && m1.inFetch == {t} && m1.granted == {} && m1.sch.running == None && m1.sch.active && m1.sch.clock == 3
      && m1.sch.list.fds == [FdEntry(fd, Write, t)] && m1.sch.tasks.Keys == {t} && Core(m1.sch)
  {
    FirstTimeoutIs(t, fd);
    var m := NewSem(Dispatch(FirstWait(t, fd), 2), 0);
    HoldOk(m.sch, 3);
    LeadsOnce(m, DoFetch(None, 3), Fetch(m, None, 3));
  }

  lemma FirstStepsLead(t: Tid, fd: int, xs: seq<SemStep>, m: Sem)
    requires t != INVALID_TID && fd != NO_FD && Leads(NewSem(FirstWait(t, fd), 0), xs, m)
    ensures Leads(NewSem(EMPTY, 0),
                  [Other(DoSpawn(t, 1, 0, 0))] + ([Other(DoDispatch(0))] + ([Other(DoWait(fd, Write, 1, 1))] + xs)), m)
  {
    var s1 := Spawn(EMPTY, t, 1, 0, 0);
    OnlyTime(s1.list.timed, 0);
    var s2 := Dispatch(s1, 0);
    OtherLeads(s2, DoWait(fd, Write, 1, 1), FirstWait(t, fd), xs, m);
    OtherLeads(s1, DoDispatch(0), s2, [Other(DoWait(fd, Write, 1, 1))] + xs, m);
    OtherLeads(EMPTY, DoSpawn(t, 1, 0, 0), s1, [Other(DoDispatch(0))] + ([Other(DoWait(fd, Write, 1, 1))] + xs), m);
  }

  lemma EventDisturbs(m: Sem, t: Tid, fd: int)
    requires m.inFetch == {t} && m.granted == {} && m.sch.running == None && m.sch.active && m.sch.clock == 3
    requires m.sch.list.fds == [FdEntry(fd, Write, t)] && m.sch.tasks.Keys == {t} && fd != NO_FD
    ensures SemEnabled(m, Other(DoEvent(fd, Write, [4]))) && Disturbs(m, DoEvent(fd, Write, [4]))
  {
    var e := FdEntry(fd, Write, t);
    assert [e][..0] == [] && Search([], fd, Write) == [];
    assert Search([e], fd, Write) == [] + [t];
    assert [] + [t] == [t] && [t][1..] == [] && [4][1..] == [];
    assert Search(m.sch.list.fds, fd, Write) == [t];
    assert NowsFrom(4, []) && NowsFrom(3, [4]);
    assert FreeTime(m.sch, t, 4);
    var s1 := EventTurn(m.sch, fd, Write, t, 4);
    assert EventTimely(s1, fd, Write, [], []);
    assert EventTimely(m.sch, fd, Write, [t], [4]);
    assert Reaches(m.sch, DoEvent(fd, Write, [4]), t);
  }

  /** The run is undisturbed, and the event that comes next lets the fetch return without a permit. */
  lemma DisturbedIsReached(t: Tid, fd: int)
    requires t != INVALID_TID && fd != NO_FD
    ensures var xs := BeforeEvent(t, fd);
      && Core(EMPTY) && SemLegal(NewSem(EMPTY, 0), xs)
      && var m := SemRun(NewSem(EMPTY, 0), xs);
         SemEnabled(m, Other(DoEvent(fd, Write, [4]))) && Disturbs(m, DoEvent(fd, Write, [4]))
  {
    FetchSuspendsIt(t, fd);
    FirstWaitIs(t, fd);
    var s := FirstWait(t, fd);
    var m := Fetch(NewSem(Dispatch(s, 2), 0), None, 3);
    OtherLeads(s, DoDispatch(2), Dispatch(s, 2), [DoFetch(None, 3)], m);
    FirstStepsLead(t, fd, [Other(DoDispatch(2))] + [DoFetch(None, 3)], m);
    EventDisturbs(m, t, fd);
  }
}
