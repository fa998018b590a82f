/**
  Every scheduler step keeps registry and list sound (Scheduler.Core), whatever the descriptor index
  holds, as long as the clock readings used as fire times are not shared by two live tasks and no error
  meets a task that the index names twice. Why both are needed is shown in SchedulerTies and
  SchedulerStale; what holds of the index itself is in SchedulerIndex.
 */
module SchedulerInvariant {
  import opened Scheduler

  // ----- the descriptor index -----

  ghost predicate NoDup<T>(s: seq<T>) {
    forall i, j | 0 <= i < j < |s| :: s[i] != s[j]
  }

  lemma OnceInFront(fds: seq<FdEntry>)
    requires fds != []
    ensures forall ev | Once(fds, ev) :: Once(fds[..|fds| - 1], ev)
    ensures forall ev | Once(fds, ev) && fds[|fds| - 1].ev == ev :: fds[|fds| - 1] !in fds[..|fds| - 1]
  {
    forall ev | Once(fds, ev) && fds[|fds| - 1].ev == ev
      ensures fds[|fds| - 1] !in fds[..|fds| - 1]
    {
      assert forall i | 0 <= i < |fds| - 1 && fds[i].ev == ev :: fds[i] != fds[|fds| - 1];
    }
  }

  lemma {:induction false} WithoutKeyOk(fds: seq<FdEntry>, key: FdEntry)
    ensures forall e :: e in WithoutKey(fds, key) <==> e in fds && e != key
    ensures forall ev :: Once(fds, ev) ==> Once(WithoutKey(fds, key), ev)
  {
    if fds != [] {
      var last := fds[|fds| - 1];
      assert fds == fds[..|fds| - 1] + [last];
      WithoutKeyOk(fds[..|fds| - 1], key);
      OnceInFront(fds);
    }
  }

  lemma {:induction false} WithoutFdOk(fds: seq<FdEntry>, fd: int)
    ensures forall e :: e in WithoutFd(fds, fd) <==> e in fds && e.fd != fd
    ensures forall ev :: Once(fds, ev) ==> Once(WithoutFd(fds, fd), ev)
  {
    if fds != [] {
      var last := fds[|fds| - 1];
      assert fds == fds[..|fds| - 1] + [last];
      WithoutFdOk(fds[..|fds| - 1], fd);
      OnceInFront(fds);
    }
  }

  lemma {:induction false} UnlistOk(timed: map<Time, Entry>, fds: seq<FdEntry>, tasks: map<Tid, Ctx>, fd: int)
    ensures var left := Unlist(timed, fds, tasks, fd);
      && (forall T :: T in left <==>
            T in timed && forall e | e in fds && e.fd == fd && e.tid in tasks :: tasks[e.tid].fire != T)
      && (forall T | T in left :: left[T] == timed[T])
  {
    if fds != [] {
      UnlistOk(timed, fds[..|fds| - 1], tasks, fd);
      assert fds == fds[..|fds| - 1] + [fds[|fds| - 1]];
    }
  }

  lemma {:induction false} SearchOk(fds: seq<FdEntry>, fd: int, ev: EventType)
    ensures forall t :: t in Search(fds, fd, ev) <==> FdEntry(fd, ev, t) in fds
    ensures Once(fds, ev) ==> NoDup(Search(fds, fd, ev))
  {
    if fds != [] {
      var last := fds[|fds| - 1];
      assert fds == fds[..|fds| - 1] + [last];
      SearchOk(fds[..|fds| - 1], fd, ev);
      OnceInFront(fds);
    }
  }

  lemma FreeTimeVacant(s: Sched, t: Tid, time: Time)
    requires EntriesOk(s) && t in s.tasks && FreeTime(s, t, time)
    ensures time in s.list.timed ==> s.list.timed[time].tid == t && s.tasks[t].fire == time
  {
    if time in s.list.timed {
      assert s.tasks[s.list.timed[time].tid].fire == time;
    }
  }

  // ----- taking a task out of the list and putting it back -----

  function TakenOut(s: Sched, t: Tid): Sched
    requires Listed(s, t)
  {
    s.(list := s.list.(timed := Remove(s.list.timed, s.tasks[t].fire)))
  }

  lemma TakeOutOk(s: Sched, todo: set<Tid>, t: Tid)
    requires CoreExcept(s, todo) && Listed(s, t)
    ensures CoreExcept(TakenOut(s, t), todo + {t})
  {
    var s1 := TakenOut(s, t);
    assert t !in todo && TaskOk(s, t);
    forall u | u in s1.tasks && u != t
      ensures Listed(s1, u) == Listed(s, u)
    {
    }
    forall u | u in s1.tasks && u !in todo + {t}
      ensures TaskOk(s1, u)
    {
      assert TaskOk(s, u);
    }
  }

  /** A task out of the list is put back with context `c`, handler `h` and the matching index entry. */
  function PutBack(s: Sched, t: Tid, c: Ctx, h: Handler, fd: int, ev: EventType, clock: Time): Sched {
    s.(tasks := s.tasks[t := c], list := Insert(s.list, t, c.fire, h, fd, ev), clock := clock)
  }

  lemma PutBackOk(s: Sched, todo: set<Tid>, t: Tid, c: Ctx, h: Handler, fd: int, ev: EventType, clock: Time)
    requires CoreExcept(s, todo) && t in todo && t in s.tasks && s.clock <= clock
    requires FreeTime(s, t, c.fire)
    requires c.status == Pending || c.status == Paused
    requires c.cancelled ==> c.fire <= clock
    requires HandlerOwned(Entry(t, h))
    ensures CoreExcept(PutBack(s, t, c, h, fd, ev, clock), todo - {t})
  {
    var s1 := PutBack(s, t, c, h, fd, ev, clock);
    ListedIsOccupied(s, t);
    FreeTimeVacant(s, t, c.fire);
    assert c.fire !in s.list.timed;
    assert s1.list.timed[c.fire] == Entry(t, h);
    forall u | u in s1.tasks && u != t
      ensures Listed(s1, u) == Listed(s, u)
    {
    }
    forall u | u in s1.tasks && u !in todo - {t}
      ensures TaskOk(s1, u)
    {
      if u != t {
        assert TaskOk(s, u);
      }
    }
  }

  /** A listed task moves to a new time and keeps its handler. */
  lemma RetimeOk(s: Sched, t: Tid, c: Ctx, now: Time)
    requires Core(s) && Listed(s, t) && s.clock <= now && FreeTime(s, t, now)
    requires c.fire == now && c.status == s.tasks[t].status
    ensures var s1 := s.(tasks := s.tasks[t := c], list := Retime(s.list, t, s.tasks[t].fire, now), clock := now);
      Core(s1)
  {
    var s1 := s.(tasks := s.tasks[t := c], list := Retime(s.list, t, s.tasks[t].fire, now), clock := now);
    var h := s.list.timed[s.tasks[t].fire].handler;
    assert TaskOk(s, t);
    FreeTimeVacant(s, t, now);
    assert now !in Remove(s.list.timed, s.tasks[t].fire);
    assert s1.list.timed[now] == Entry(t, h) && HandlerOwned(s.list.timed[s.tasks[t].fire]);
    forall u | u in s1.tasks && u != t
      ensures Listed(s1, u) == Listed(s, u)
    {
    }
    forall u | u in s1.tasks
      ensures TaskOk(s1, u)
    {
      assert TaskOk(s, u);
    }
  }

  // ----- the steps of the running task -----

  /** The running task seen as taken out of the list. */
  function Parked(s: Sched): Sched
    requires HasRunning(s)
  {
    SetMe(s, Me(s).(status := Paused)).(running := None)
  }

  lemma ParkedOk(s: Sched)
    requires Core(s) && HasRunning(s)
    ensures CoreExcept(Parked(s), {s.running.value})
  {
    var t, s1 := s.running.value, Parked(s);
    assert TaskOk(s, t);
    SameListOk(s, {}, s1, {t});
  }

  /** The invariant carries over to a state with the same list whose tasks changed harmlessly. */
  lemma SameListOk(s: Sched, todo: set<Tid>, s1: Sched, todo1: set<Tid>)
    requires CoreExcept(s, todo) && s1.list.timed == s.list.timed && s1.tasks.Keys == s.tasks.Keys
    requires forall t | t in s.tasks :: s1.tasks[t].fire == s.tasks[t].fire
    requires s1.running.Some? ==> s1.running.value in s1.tasks
    requires forall t | t in s1.tasks && t !in todo1 ::
      (Listed(s1, t) == Listed(s, t)) ==> TaskOk(s1, t)
    requires forall t | t in s1.tasks && t in todo1 ::
      !Listed(s, t) && s1.running != Some(t) && (s1.tasks[t].status == Pending || s1.tasks[t].status == Paused)
    ensures CoreExcept(s1, todo1)
  {
    forall t | t in s1.tasks
      ensures Listed(s1, t) == Listed(s, t)
    {
    }
  }

  lemma ClockOk(s: Sched, now: Time)
    requires Core(s) && s.clock <= now
    ensures Core(s.(clock := now))
  {
    var s1 := s.(clock := now);
    forall t | t in s.tasks
      ensures TaskOk(s1, t)
    {
      assert TaskOk(s, t);
    }
    SameListOk(s, {}, s1, {});
  }

  lemma SuspendOk(s: Sched, c: Ctx, h: Handler, fd: int, ev: EventType, now: Time)
    requires Core(s) && HasRunning(s) && s.clock <= now && FreeTime(s, s.running.value, c.fire)
    requires c.cancelled ==> c.fire <= now
    requires HandlerOwned(Entry(s.running.value, h))
    ensures Core(Suspend(s, c, h, fd, ev).(clock := now))
  {
    var t := s.running.value;
    ParkedOk(s);
    PutBackOk(Parked(s), {t}, t, c.(status := Paused), h, fd, ev, now);
    assert {t} - {t} == {};
    assert PutBack(Parked(s), t, c.(status := Paused), h, fd, ev, now) == Suspend(s, c, h, fd, ev).(clock := now);
  }

  lemma RefuseOk(s: Sched, now: Time)
    requires Core(s) && HasRunning(s) && s.clock <= now
    ensures Core(Refuse(s).(clock := now))
  {
    ClockOk(s, now);
    var s1 := Refuse(s).(clock := now);
    forall t | t in s1.tasks && (Listed(s1, t) == Listed(s, t))
      ensures TaskOk(s1, t)
    {
      assert TaskOk(s.(clock := now), t);
    }
    SameListOk(s, {}, s1, {});
  }

  lemma HoldOk(s: Sched, now: Time)
    requires Core(s) && HasRunning(s) && s.clock <= now
    ensures Core(Hold(s, now))
  {
    if Me(s).cancelled {
      RefuseOk(s, now);
    } else {
      var s1 := Hold(s, now);
      forall t | t in s1.tasks && (Listed(s1, t) == Listed(s, t))
        ensures TaskOk(s1, t)
      {
        assert TaskOk(s, t);
      }
      SameListOk(s, {}, s1, {});
    }
  }

  lemma HoldForOk(s: Sched, timeout: int, now: Time)
    requires Core(s) && HasRunning(s) && s.clock <= now
    requires Me(s).cancelled || FreeTime(s, s.running.value, now + timeout)
    ensures Core(HoldFor(s, timeout, now))
  {
    if Me(s).cancelled {
      RefuseOk(s, now);
    } else {
      SuspendOk(s, Me(s).(signal := Nothing, fire := now + timeout), NoHandler, NO_FD, Read, now);
    }
  }

  lemma WaitOk(s: Sched, fd: int, ev: EventType, timeout: int, now: Time)
    requires Core(s) && HasRunning(s) && s.clock <= now
    requires Me(s).cancelled || FreeTime(s, s.running.value, now + timeout)
    ensures Core(Wait(s, fd, ev, timeout, now))
  {
    if Me(s).cancelled {
      RefuseOk(s, now);
    } else {
      SuspendOk(s, Me(s).(signal := Nothing, fire := now + timeout), OnTimeout(s.running.value, fd, ev), fd, ev, now);
    }
  }

  lemma FinishOk(s: Sched, now: Time)
    requires Core(s) && HasRunning(s) && s.clock <= now
    requires LastRun(Me(s)) || FreeTime(s, s.running.value, Me(s).fire + Me(s).interval)
    ensures Core(Finish(s, now))
  {
    var t, s1 := s.running.value, Finish(s, now);
    if LastRun(Me(s)) {
      assert TaskOk(s, t);
      forall u | u in s1.tasks
        ensures Listed(s1, u) == Listed(s, u) && TaskOk(s1, u)
      {
        assert TaskOk(s, u);
      }
      assert forall T | T in s.list.timed :: s.list.timed[T].tid != t;
    } else {
      var c := Me(s).(status := Pending, repeat := Decrement(Me(s).repeat), fire := Me(s).fire + Me(s).interval);
      ParkedOk(s);
      PutBackOk(Parked(s), {t}, t, c, NoHandler, NO_FD, Read, now);
      assert {t} - {t} == {};
      assert PutBack(Parked(s), t, c, NoHandler, NO_FD, Read, now) == s1;
    }
  }

  // ----- spawning, waking and cancelling -----

  lemma SpawnOk(s: Sched, tid: Tid, repeat: nat, interval: int, now: Time)
    requires Core(s) && tid !in s.tasks && tid != INVALID_TID && s.clock <= now && FreeTime(s, tid, now + interval)
    ensures Core(Spawn(s, tid, repeat, interval, now))
  {
    var c := Fresh(repeat, now + interval, interval);
    var s0 := s.(tasks := s.tasks[tid := c]);
    FreshNotListed(s, tid, now + interval);
    forall t | t in s.tasks
      ensures Listed(s0, t) == Listed(s, t) && TaskOk(s0, t)
    {
      assert TaskOk(s, t);
    }
    assert CoreExcept(s0, {tid});
    PutBackOk(s0, {tid}, tid, c, NoHandler, NO_FD, Read, now);
    assert {tid} - {tid} == {};
    assert PutBack(s0, tid, c, NoHandler, NO_FD, Read, now) == Spawn(s, tid, repeat, interval, now);
  }

  lemma FreshNotListed(s: Sched, tid: Tid, time: Time)
    requires Core(s) && tid !in s.tasks && FreeTime(s, tid, time)
    ensures time !in s.list.timed
  {
    assert forall T | T in s.list.timed :: s.list.timed[T].tid in s.tasks && s.list.timed[T].tid != tid;
  }

  lemma WakeCtxOk(s: Sched, tid: Tid, signal: Signal, now: Time, cancelled: bool)
    requires Core(s) && tid in s.tasks && s.running != Some(tid) && s.clock <= now
    requires s.tasks[tid].fire in s.list.timed ==> FreeTime(s, tid, now)
    ensures var s0 := s.(tasks := s.tasks[tid := s.tasks[tid].(cancelled := cancelled)]);
      && Core(WakeCtx(s0, tid, signal, now).(clock := now))
  {
    var s0 := s.(tasks := s.tasks[tid := s.tasks[tid].(cancelled := cancelled)]);
    var c := s0.tasks[tid].(signal := signal);
    ListedIsOccupied(s, tid);
    assert TaskOk(s, tid);
    if c.fire in s.list.timed {
      RetimeOk(s, tid, c.(fire := now), now);
      assert s.tasks[tid := c.(fire := now)] == s0.tasks[tid := c.(fire := now)];
    } else {
      SameListOk(s, {}, s, {tid});
      assert FreeTime(s, tid, c.fire);
      PutBackOk(s, {tid}, tid, c, NoHandler, NO_FD, Read, now);
      assert {tid} - {tid} == {};
      assert PutBack(s, tid, c, NoHandler, NO_FD, Read, now) == WakeCtx(s0, tid, signal, now).(clock := now);
    }
  }

  lemma WakeupOk(s: Sched, tid: Tid, signal: Signal, now: Time)
    requires Core(s) && s.clock <= now
    requires s.running != Some(tid) && tid in s.tasks && s.tasks[tid].fire in s.list.timed ==> FreeTime(s, tid, now)
    ensures Core(Wakeup(s, tid, signal, now))
  {
    if s.running == Some(tid) || tid !in s.tasks {
      ClockOk(s, now);
    } else {
      WakeCtxOk(s, tid, signal, now, s.tasks[tid].cancelled);
      assert s.tasks[tid := s.tasks[tid].(cancelled := s.tasks[tid].cancelled)] == s.tasks;
    }
  }

  lemma CancelOk(s: Sched, tid: Tid, now: Time)
    requires Core(s) && s.clock <= now && CancelTimely(s, tid, now)
    ensures Core(Cancel(s, tid, now))
  {
    if tid !in s.tasks || s.tasks[tid].cancelled {
      ClockOk(s, now);
    } else if s.running == Some(tid) {
      ClockOk(s, now);
      var s1 := Cancel(s, tid, now);
      forall t | t in s1.tasks && (Listed(s1, t) == Listed(s, t))
        ensures TaskOk(s1, t)
      {
        assert TaskOk(s.(clock := now), t);
      }
      SameListOk(s, {}, s1, {});
    } else if s.tasks[tid].fire in s.list.timed {
      ListedIsOccupied(s, tid);
      var s1 := s.(tasks := s.tasks[tid := s.tasks[tid].(cancelled := true)]);
      var c := s.tasks[tid].(cancelled := true, fire := now);
      RetimeOk(s, tid, c, now);
      assert s1.tasks[tid := c] == s.tasks[tid := c];
    } else {
      WakeCtxOk(s, tid, Broken, now, true);
    }
  }

  lemma {:induction false} SweepOk(s: Sched, order: seq<Tid>, nows: seq<Time>)
    requires Core(s) && s.running == None && |nows| == |order| && NowsFrom(s.clock, nows)
    requires SweepTimely(s, order, nows)
    ensures Core(Sweep(s, order, nows))
    decreases |order|
  {
    if order != [] {
      CancelOk(s, order[0], nows[0]);
      SweepOk(Cancel(s, order[0], nows[0]), order[1..], nows[1..]);
    }
  }

  // ----- dispatch and descriptor events -----

  /** Dispatch takes the head out of the list, also when its closure erases the wrong index entry. */
  lemma DispatchTakesOut(s: Sched, now: Time)
    requires Core(s) && CanDispatch(s, now)
    ensures Listed(s, Head(s).tid) && s.tasks[Head(s).tid].fire == Nearest(s.list) && HandlerOwned(Head(s))
    ensures var t, s1 := Head(s).tid, Dispatch(s, now);
      && s1.list.timed == TakenOut(s, t).list.timed
      && s1.running == Some(t) && s1.clock == now
      && s1.tasks == s.tasks[t := s1.tasks[t]] && s1.tasks[t].fire == s.tasks[t].fire
      && s1.tasks[t].status == Running && s1.tasks[t].cancelled == s.tasks[t].cancelled
  {
    var e, T := Head(s), Nearest(s.list);
    assert HandlerOwned(e) && s.tasks[e.tid].fire == T;
  }

  lemma DispatchOk(s: Sched, now: Time)
    requires Core(s) && CanDispatch(s, now) && s.clock <= now
    ensures Head(s).tid in s.tasks && Core(Dispatch(s, now))
  {
    DispatchTakesOut(s, now);
    var t, s1 := Head(s).tid, Dispatch(s, now);
    assert TaskOk(s, t);
    TakeOutOk(s, {}, t);
    assert {} + {t} == {t};
    var s0 := TakenOut(s, t);
    forall u | u in s1.tasks && (Listed(s1, u) == Listed(s0, u))
      ensures TaskOk(s1, u)
    {
      if u != t {
        assert TaskOk(s0, u);
      }
    }
    SameListOk(s0, {t}, s1, {});
  }

  /** A turn of the event handler for any task at all, whatever made the index name it. */
  lemma EventTurnKeepsCore(s: Sched, fd: int, ev: EventType, t: Tid, now: Time)
    requires Core(s) && s.running == None && s.clock <= now && (t in s.tasks ==> FreeTime(s, t, now))
    ensures Core(EventTurn(s, fd, ev, t, now))
    ensures EventTurn(s, fd, ev, t, now).running == None
    ensures EventTurn(s, fd, ev, t, now).clock == if t in s.tasks then now else s.clock
  {
    if t in s.tasks {
      var s1 := s.(list := Erase(s.list, t, s.tasks[t].fire, fd, ev));
      assert TaskOk(s, t);
      ListedIsOccupied(s, t);
      ErasedOk(s, fd, ev, t);
      var c := s.tasks[t].(signal := Received, fire := now);
      PutBackOk(s1, {t}, t, c, NoHandler, NO_FD, Read, now);
      assert {t} - {t} == {};
      assert EventTurn(s, fd, ev, t, now) == PutBack(s1, t, c, NoHandler, NO_FD, Read, now);
    }
  }

  lemma ErasedOk(s: Sched, fd: int, ev: EventType, t: Tid)
    requires Core(s) && s.running == None && t in s.tasks
    ensures CoreExcept(s.(list := Erase(s.list, t, s.tasks[t].fire, fd, ev)), {t})
  {
    var s1 := s.(list := Erase(s.list, t, s.tasks[t].fire, fd, ev));
    forall u | u in s.tasks
      ensures Listed(s1, u) == (Listed(s, u) && u != t)
    {
    }
    forall u | u in s.tasks
      ensures u != t ==> TaskOk(s1, u)
      ensures s1.tasks[u].status == Pending || s1.tasks[u].status == Paused
    {
      assert TaskOk(s, u);
    }
  }

  lemma {:induction false} EventLoopKeepsCore(s: Sched, fd: int, ev: EventType, ids: seq<Tid>, nows: seq<Time>)
    requires Core(s) && s.running == None && |nows| == |ids| && NowsFrom(s.clock, nows)
    requires EventTimely(s, fd, ev, ids, nows)
    ensures Core(EventLoop(s, fd, ev, ids, nows))
    decreases |ids|
  {
    if ids != [] {
      EventTurnKeepsCore(s, fd, ev, ids[0], nows[0]);
      LaterNows(s.clock, nows);
      EventLoopKeepsCore(EventTurn(s, fd, ev, ids[0], nows[0]), fd, ev, ids[1..], nows[1..]);
    }
  }

  lemma LaterNows(clock: Time, nows: seq<Time>)
    requires NowsFrom(clock, nows) && nows != []
    ensures NowsFrom(clock, nows[1..]) && NowsFrom(nows[0], nows[1..])
  {
  }

  // ----- errors -----

  lemma OnceInRest(s: Sched, ids: seq<Tid>)
    requires ids != [] && !Twice(s, ids)
    ensures ids[0] in s.tasks ==> ids[0] !in ids[1..]
    ensures forall s1: Sched | s1.tasks.Keys == s.tasks.Keys :: !Twice(s1, ids[1..])
  {
    forall i, j | 0 <= i < j < |ids| && ids[i] in s.tasks
      ensures ids[i] != ids[j]
    {
    }
    forall j | 0 <= j < |ids[1..]|
      ensures ids[0] in s.tasks ==> ids[1..][j] != ids[0]
    {
      assert ids[1..][j] == ids[j + 1];
    }
    forall i, j | 0 <= i < j < |ids[1..]|
      ensures ids[1..][i] in s.tasks ==> ids[1..][i] != ids[1..][j]
    {
      assert ids[1..][i] == ids[i + 1] && ids[1..][j] == ids[j + 1];
    }
  }

  /** The turn of the first of the waiters `ids`, who are the tasks that are out of the list. */
  lemma ErrorTurnOk(s: Sched, todo: set<Tid>, ids: seq<Tid>, nows: seq<Time>)
    requires CoreExcept(s, todo) && ids != [] && |nows| == |ids| && s.clock <= nows[0]
    requires todo == (set t | t in ids && t in s.tasks) && !Twice(s, ids)
    requires ids[0] in s.tasks ==> FreeTime(s, ids[0], nows[0])
    ensures var t, s1 := ids[0], ErrorTurn(s, ids[0], nows[0]);
      && CoreExcept(s1, todo - {t}) && !Twice(s1, ids[1..])
      && todo - {t} == (set u | u in ids[1..] && u in s1.tasks)
      && s1.running == s.running && s1.clock == if t in s.tasks then nows[0] else s.clock
  {
    var t, s1 := ids[0], ErrorTurn(s, ids[0], nows[0]);
    assert ids == [t] + ids[1..];
    OnceInRest(s, ids);
    if t in s.tasks {
      var c := s.tasks[t].(signal := Broken, fire := nows[0]);
      PutBackOk(s, todo, t, c, NoHandler, NO_FD, Read, nows[0]);
      assert s1 == PutBack(s, t, c, NoHandler, NO_FD, Read, nows[0]);
    }
    assert s1.tasks.Keys == s.tasks.Keys;
  }

  lemma {:induction false} ErrorLoopKeepsCore(s: Sched, todo: set<Tid>, ids: seq<Tid>, nows: seq<Time>)
    requires CoreExcept(s, todo) && |nows| == |ids| && NowsFrom(s.clock, nows)
    requires todo == (set t | t in ids && t in s.tasks) && !Twice(s, ids)
    requires ErrorTimely(s, ids, nows)
    ensures Core(ErrorLoop(s, ids, nows))
    decreases |ids|
  {
    if ids == [] {
      assert todo == {};
    } else {
      LaterNows(s.clock, nows);
      ErrorTurnOk(s, todo, ids, nows);
      ErrorLoopKeepsCore(ErrorTurn(s, ids[0], nows[0]), todo - {ids[0]}, ids[1..], nows[1..]);
    }
  }

  lemma EraseFdKeepsCore(s: Sched, fd: int)
    requires Core(s) && s.running == None && fd != NO_FD
    ensures CoreExcept(s.(list := EraseFd(s.list, s.tasks, fd)),
                       set t | t in SearchAll(s.list.fds, fd) && t in s.tasks)
  {
    var ids := SearchAll(s.list.fds, fd);
    var s1 := s.(list := EraseFd(s.list, s.tasks, fd));
    NamedBy(s.list.fds, fd);
    UnlistOk(s.list.timed, s.list.fds, s.tasks, fd);
    forall t | t in s.tasks
      ensures Listed(s1, t) == (Listed(s, t) && t !in ids)
    {
      if t in ids {
        var e :| e in s.list.fds && e.fd == fd && e.tid == t;
        assert s.tasks[t].fire !in s1.list.timed;
      } else if Listed(s, t) {
        assert forall e | e in s.list.fds && e.fd == fd && e.tid in s.tasks :: s.tasks[e.tid].fire != s.tasks[t].fire;
      }
    }
    forall t | t in s.tasks
      ensures t !in ids ==> TaskOk(s1, t)
      ensures s.tasks[t].status == Pending || s.tasks[t].status == Paused
    {
      assert TaskOk(s, t);
    }
  }

  lemma NamedBy(fds: seq<FdEntry>, fd: int)
    ensures forall t :: t in SearchAll(fds, fd) <==> exists e :: e in fds && e.fd == fd && e.tid == t
  {
    SearchOk(fds, fd, Read);
    SearchOk(fds, fd, Write);
    forall e | e in fds && e.fd == fd
      ensures e.tid in SearchAll(fds, fd)
    {
      assert e == FdEntry(fd, e.ev, e.tid) && (e.ev == Read || e.ev == Write);
    }
  }

  lemma FdErrorKeepsCore(s: Sched, fd: int, nows: seq<Time>)
    requires Core(s) && Enabled(s, DoError(fd, nows)) && Orderly(s, DoError(fd, nows))
    ensures Core(FdError(s, fd, nows))
  {
    var ids, s1 := SearchAll(s.list.fds, fd), s.(list := EraseFd(s.list, s.tasks, fd));
    EraseFdKeepsCore(s, fd);
    assert !Twice(s1, ids);
    var todo := set t | t in ids && t in s.tasks;
    ErrorLoopKeepsCore(s1, todo, ids, nows);
  }

  // ----- main results -----

  /** Every step with fire times of its own keeps registry and list sound, stale index entries or not. */
  lemma StepKeepsCore(s: Sched, step: Step)
    requires Core(s) && Enabled(s, step) && Orderly(s, step)
    ensures Core(Apply(s, step))
  {
    match step
    case DoSpawn(tid, repeat, interval, now) => SpawnOk(s, tid, repeat, interval, now);
    case DoDispatch(now) => DispatchOk(s, now);
    case DoYield(now) => SuspendOk(s, Me(s).(fire := now), NoHandler, NO_FD, Read, now);
    case DoHold(now) => HoldOk(s, now);
    case DoHoldFor(timeout, now) => HoldForOk(s, timeout, now);
    case DoWait(fd, ev, timeout, now) => WaitOk(s, fd, ev, timeout, now);
    case DoWakeup(tid, signal, now) => WakeupOk(s, tid, signal, now);
    case DoCancel(tid, now) => CancelOk(s, tid, now);
    case DoExit(now) => ExitOk(s, now);
    case DoSetInterval(tid, interval, now) => SetIntervalOk(s, tid, interval, now);
    case DoFinish(now) => FinishOk(s, now);
    case DoEvent(fd, ev, nows) => EventLoopKeepsCore(s, fd, ev, Search(s.list.fds, fd, ev), nows);
    case DoError(fd, nows) => FdErrorKeepsCore(s, fd, nows);
    case DoSweep(order, nows) => SweepOk(s, order, nows);
  }

  lemma ExitOk(s: Sched, now: Time)
    requires Core(s) && s.clock <= now
    ensures Core(Exit(s, now))
  {
    ClockOk(s, now);
    forall t | t in s.tasks
      ensures TaskOk(Exit(s, now), t)
    {
      assert TaskOk(s.(clock := now), t);
    }
    SameListOk(s, {}, Exit(s, now), {});
  }

  lemma SetIntervalOk(s: Sched, tid: Tid, interval: int, now: Time)
    requires Core(s) && s.clock <= now
    ensures Core(SetInterval(s, tid, interval, now))
  {
    ClockOk(s, now);
    var s1 := SetInterval(s, tid, interval, now);
    forall t | t in s1.tasks && (Listed(s1, t) == Listed(s, t))
      ensures TaskOk(s1, t)
    {
      assert TaskOk(s.(clock := now), t);
    }
    SameListOk(s, {}, s1, {});
  }

  /** Registry and list are sound after every such run, whatever the workers and the descriptors do. */
  lemma {:induction false} RunKeepsCore(s: Sched, steps: seq<Step>)
    requires Core(s) && EnabledRun(s, steps) && OrderlyRun(s, steps)
    ensures Core(Run(s, steps))
    decreases |steps|
  {
    if steps != [] {
      StepKeepsCore(s, steps[0]);
      RunKeepsCore(Apply(s, steps[0]), steps[1..]);
    }
  }

  /** Whenever the loop takes the nearest entry, its task is registered and can be switched to. */
  lemma DispatchFindsItsTask(steps: seq<Step>, now: Time)
    requires EnabledRun(EMPTY, steps) && OrderlyRun(EMPTY, steps)
    ensures Core(EMPTY) && Core(Run(EMPTY, steps))
    ensures var s := Run(EMPTY, steps);
      CanDispatch(s, now) ==> Head(s).tid in s.tasks && s.tasks[Head(s).tid].status in {Pending, Paused}
  {
    RunKeepsCore(EMPTY, steps);
    var s := Run(EMPTY, steps);
    if CanDispatch(s, now) {
      DispatchTakesOut(s, now);
      assert TaskOk(s, Head(s).tid);
    }
  }
}
