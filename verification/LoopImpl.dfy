/**
  The scheduler's classes: a task's context, the time-ordered list, and the loop with its registry.
  Every method is proved to be the step function of Scheduler with the same name. A worker's code
  runs between DispatchNearest and the call that gives control back, so the main loop is its parts.
 */
module LoopImpl {
  import opened Scheduler
  import S = Scheduler

  class BasicTask {
    const tid: Tid
    var status: Status
    var cancelled: bool
    var signal: Signal
    var repeatCount: nat
    var nextFireTime: Time
    var interval: int

    constructor (tid: Tid, repeatCount: nat, interval: int, now: Time)
      ensures this.tid == tid
      ensures Value() == Fresh(repeatCount, now + interval, interval).(status := Pending)
    {
      this.tid := tid;
      this.repeatCount := repeatCount;
      this.interval := interval;
      cancelled, signal, status := false, Nothing, Pending;
      nextFireTime := now + interval;
    }

    function Value(): Ctx
      reads this
    {
      Ctx(status, cancelled, signal, repeatCount, nextFireTime, interval)
    }

    /** The tail of `swap_to_task`, when the worker itself returned. */
    method WorkerReturned()
      requires status == Running
      modifies this
      ensures var c := old(Value());
        Value() == if LastRun(c) then c.(status := Stopped)
                   else c.(status := Pending, repeat := Decrement(c.repeat), fire := c.fire + c.interval)
    {
      if repeatCount == 1 || cancelled {
        status := Stopped;
        return;
      }
      if repeatCount != REPEAT_INFINITE {
        repeatCount := if repeatCount == 0 then REPEAT_INFINITE else repeatCount - 1;
      }
      nextFireTime := nextFireTime + interval;
      status := Pending;
    }
  }

  class TaskList {
    var orderedTimeMap: map<Time, Entry>
    var fdCacheMap: seq<FdEntry>

    constructor ()
      ensures Value() == TList(map[], [])
    {
      orderedTimeMap, fdCacheMap := map[], [];
    }

    function Value(): TList
      reads this
    {
      TList(orderedTimeMap, fdCacheMap)
    }

    method Fetch() returns (e: Entry)
      requires orderedTimeMap != map[]
      modifies this
      ensures e == old(orderedTimeMap[Nearest(Value())])
      ensures Value() == old(Value().(timed := Remove(orderedTimeMap, Nearest(Value()))))
    {
      var begin := Nearest(Value());
      e := orderedTimeMap[begin];
      orderedTimeMap := orderedTimeMap - {begin};
    }

    /** `map[key] = handler`: an equivalent key that is already there stays. */
    method Assign(tid: Tid, time: Time, handler: Handler)
      modifies this`orderedTimeMap
      ensures orderedTimeMap == PutTimed(old(orderedTimeMap), tid, time, handler)
    {
      if time in orderedTimeMap {
        orderedTimeMap := orderedTimeMap[time := orderedTimeMap[time].(handler := handler)];
      } else {
        orderedTimeMap := orderedTimeMap[time := Entry(tid, handler)];
      }
    }

    method Insert(t: BasicTask, handler: Handler, fd: int, ev: EventType)
      modifies this
      ensures Value() == S.Insert(old(Value()), t.tid, t.nextFireTime, handler, fd, ev)
    {
      Assign(t.tid, t.nextFireTime, handler);
      if fd != NO_FD {
        fdCacheMap := fdCacheMap + [FdEntry(fd, ev, t.tid)];
      }
    }

    method ReplaceTime(t: BasicTask, fireTime: Time)
      modifies this, t`nextFireTime
      ensures old(t.nextFireTime !in orderedTimeMap) ==>
        Value() == old(Value()) && t.nextFireTime == old(t.nextFireTime)
      ensures old(t.nextFireTime in orderedTimeMap) ==>
        Value() == Retime(old(Value()), t.tid, old(t.nextFireTime), fireTime) && t.nextFireTime == fireTime
    {
      if t.nextFireTime !in orderedTimeMap {
        return;
      }
      var onTime := orderedTimeMap[t.nextFireTime].handler;
      orderedTimeMap := orderedTimeMap - {t.nextFireTime};
      t.nextFireTime := fireTime;
      Assign(t.tid, fireTime, onTime);
    }

    method Erase(t: BasicTask?, fd: int, ev: EventType)
      modifies this
      ensures t == null ==> Value() == old(Value())
      ensures t != null ==> Value() == S.Erase(old(Value()), t.tid, t.nextFireTime, fd, ev)
    {
      if t == null {
        return;
      }
      orderedTimeMap := orderedTimeMap - {t.nextFireTime};
      if fd != NO_FD {
        var kept: seq<FdEntry> := []; // the entries the iterator steps over
        for i := 0 to |fdCacheMap|
          invariant kept == WithoutKey(fdCacheMap[..i], FdEntry(fd, ev, t.tid))
        {
          assert fdCacheMap[..i + 1][..i] == fdCacheMap[..i];
          if fdCacheMap[i] != FdEntry(fd, ev, t.tid) {
            kept := kept + [fdCacheMap[i]];
          }
        }
        assert fdCacheMap[..|fdCacheMap|] == fdCacheMap;
        fdCacheMap := kept;
      }
    }

    /**
      Erases by descriptor. The key comparison of the multimap ignores the event type, so the first
      of the source's two passes, one per type, already meets every entry.
     */
    method EraseFd(fd: int, registry: map<Tid, BasicTask>, ghost contexts: map<Tid, Ctx>)
      requires contexts.Keys == registry.Keys && forall t | t in registry :: contexts[t] == registry[t].Value()
      modifies this
      ensures Value() == S.EraseFd(old(Value()), contexts, fd)
    {
      if fd == NO_FD {
        return;
      }
      var kept: seq<FdEntry> := [];
      for i := 0 to |fdCacheMap|
        invariant fdCacheMap == old(fdCacheMap) && kept == WithoutFd(fdCacheMap[..i], fd)
        invariant orderedTimeMap == Unlist(old(orderedTimeMap), fdCacheMap[..i], contexts, fd)
      {
        var e := fdCacheMap[i];
        assert fdCacheMap[..i + 1][..i] == fdCacheMap[..i];
        if e.fd == fd {
          if e.tid in registry {
            orderedTimeMap := orderedTimeMap - {registry[e.tid].nextFireTime};
          }
        } else {
          kept := kept + [e];
        }
      }
      assert fdCacheMap[..|fdCacheMap|] == fdCacheMap;
      fdCacheMap := kept;
    }

    method Has(t: BasicTask) returns (found: bool)
      ensures found == (t.nextFireTime in orderedTimeMap)
    {
      found := t.nextFireTime in orderedTimeMap;
    }

    method Search(fd: int, ev: EventType) returns (result: seq<Tid>)
      ensures result == S.Search(fdCacheMap, fd, ev)
    {
      result := [];
      for i := 0 to |fdCacheMap|
        invariant result == S.Search(fdCacheMap[..i], fd, ev)
      {
        assert fdCacheMap[..i + 1][..i] == fdCacheMap[..i];
        if fdCacheMap[i].fd == fd && fdCacheMap[i].ev == ev {
          result := result + [fdCacheMap[i].tid];
        }
      }
      assert fdCacheMap[..|fdCacheMap|] == fdCacheMap;
    }

    method SearchAll(fd: int) returns (result: seq<Tid>)
      ensures result == S.SearchAll(fdCacheMap, fd)
    {
      var readers := Search(fd, Read);
      var writers := Search(fd, Write);
      result := readers + writers;
    }
  }

  class Loop {
    const timedList: TaskList
    var cache: map<Tid, BasicTask>
    var runningTask: BasicTask?
    var running: bool
    ghost var clock: Time // the last reading of the clock

    constructor ()
      ensures Valid() && State() == EMPTY
    {
      timedList := new TaskList();
      cache, runningTask, running, clock := map[], null, true, 0;
    }

    ghost predicate Valid()
      reads this, cache.Values
    {
      && (forall t | t in cache :: cache[t].tid == t)
      && (runningTask != null ==> runningTask.tid in cache && cache[runningTask.tid] == runningTask)
    }

    function Contexts(): map<Tid, Ctx>
      reads this, cache.Values
    {
      map t | t in cache :: cache[t].Value()
    }

    ghost function State(): Sched
      reads this, timedList, cache.Values
    {
      Sched(Contexts(), timedList.Value(),
            if runningTask == null then None else Some(runningTask.tid), running, clock)
    }

    /** One task's context was changed, in place. */
    twostate lemma Updated(t: BasicTask)
      requires cache == old(cache) && (forall u | u in cache :: cache[u].tid == u)
      requires t.tid in cache && cache[t.tid] == t
      requires forall u | u in cache && u != t.tid :: cache[u].Value() == old(cache[u].Value())
      ensures Contexts() == old(Contexts())[t.tid := t.Value()]
    {
    }

    twostate lemma Added(new t: BasicTask)
      requires cache == old(cache)[t.tid := t] && t.tid !in old(cache)
      requires forall u | u in old(cache) :: cache[u].Value() == old(cache[u].Value())
      ensures Contexts() == old(Contexts())[t.tid := t.Value()]
    {
      forall u | u in old(cache)
        ensures u in cache && Contexts()[u] == old(Contexts())[u]
      {
        assert cache[u] == old(cache)[u];
      }
    }

    twostate lemma Removed(t: BasicTask)
      requires t.tid in old(cache) && cache == old(cache) - {t.tid}
      requires forall u | u in cache :: cache[u].Value() == old(cache[u].Value())
      ensures Contexts() == old(Contexts()) - {t.tid}
    {
      forall u | u in cache
        ensures u in old(cache) && Contexts()[u] == old(Contexts())[u]
      {
        assert u in old(cache) && cache[u] == old(cache)[u];
      }
    }

    /** The running task asks for something; the source asserts that it is the one asking. */
    ghost predicate Runs(t: BasicTask)
      reads this, cache.Values
    {
      Valid() && runningTask == t && t.tid in cache
    }

    method SpawnTask(tid: Tid, repeatCount: nat, interval: int, ghost s: Sched, now: Time) returns (t: BasicTask)
      requires Valid() && s == State() && tid !in cache
      modifies this`cache, this`clock, timedList
      ensures Valid() && fresh(t) && cache == old(cache)[tid := t]
      ensures State() == Spawn(s, tid, repeatCount, interval, now)
    {
      t := new BasicTask(tid, repeatCount, interval, now);
      cache := cache[tid := t];
      t.status := Paused;
      timedList.Insert(t, NoHandler, NO_FD, Read);
      clock := now;
      Added(t);
    }

    method YieldTask(t: BasicTask, now: Time)
      requires Runs(t)
      modifies this`runningTask, this`clock, t, timedList
      ensures Valid() && State() == Yield(old(State()), now)
    {
      t.nextFireTime := now;
      t.status := Paused;
      timedList.Insert(t, NoHandler, NO_FD, Read);
      runningTask := null; // swap_to_main
      clock := now;
      Updated(t);
    }

    method HoldTask(t: BasicTask, now: Time)
      requires Runs(t)
      modifies this`runningTask, this`clock, t
      ensures Valid() && State() == Hold(old(State()), now)
    {
      clock := now;
      t.signal := Nothing;
      if t.cancelled {
        t.signal := Broken;
        Updated(t);
        return;
      }
      t.status := Paused;
      runningTask := null;
      Updated(t);
    }

    method HoldTaskFor(t: BasicTask, timeout: int, now: Time)
      requires Runs(t)
      modifies this`runningTask, this`clock, t, timedList
      ensures Valid() && State() == HoldFor(old(State()), timeout, now)
    {
      ghost var s := State();
      clock := now;
      t.signal := Nothing;
      if t.cancelled {
        t.signal := Broken;
        Updated(t);
        return;
      }
      t.nextFireTime := now + timeout;
      t.status := Paused;
      timedList.Insert(t, NoHandler, NO_FD, Read);
      runningTask := null;
      Updated(t);
      assert State() == s.(tasks := s.tasks[t.tid := t.Value()], running := None, clock := now,
                           list := S.Insert(s.list, t.tid, t.nextFireTime, NoHandler, NO_FD, Read));
    }

    method WaitFd(t: BasicTask, fd: int, ev: EventType, timeout: int, now: Time)
      requires Runs(t)
      modifies this`runningTask, this`clock, t, timedList
      ensures Valid() && State() == Wait(old(State()), fd, ev, timeout, now)
    {
      ghost var s := State();
      clock := now;
      if t.cancelled {
        t.signal := Broken;
        Updated(t);
        return;
      }
      t.signal := Nothing;
      t.status := Paused;
      t.nextFireTime := now + timeout;
      timedList.Insert(t, OnTimeout(t.tid, fd, ev), fd, ev);
      runningTask := null;
      Updated(t);
      assert State() == s.(tasks := s.tasks[t.tid := t.Value()], running := None, clock := now,
                           list := S.Insert(s.list, t.tid, t.nextFireTime, OnTimeout(t.tid, fd, ev), fd, ev));
    }

    method MoveToNow(t: BasicTask, now: Time)
      requires Valid() && t.tid in cache && cache[t.tid] == t && t.nextFireTime in timedList.orderedTimeMap
      modifies t`nextFireTime, timedList, this`clock
      ensures Valid()
      ensures State() == old(State().(
        tasks := Contexts()[t.tid := t.Value().(fire := now)],
        list := Retime(timedList.Value(), t.tid, t.nextFireTime, now), clock := now))
    {
      timedList.ReplaceTime(t, now);
      clock := now;
      Updated(t);
    }

    method ListAgain(t: BasicTask, now: Time)
      requires Valid() && t.tid in cache && cache[t.tid] == t
      modifies timedList, this`clock
      ensures Valid()
      ensures State() == old(State().(
        list := S.Insert(timedList.Value(), t.tid, t.nextFireTime, NoHandler, NO_FD, Read), clock := now))
    {
      timedList.Insert(t, NoHandler, NO_FD, Read);
      clock := now;
      assert Contexts() == old(Contexts());
    }

    method SetSignal(t: BasicTask, signal: Signal)
      requires Valid() && t.tid in cache && cache[t.tid] == t
      modifies t`signal
      ensures Valid() && State() == old(State()).(tasks := old(State()).tasks[t.tid := old(State()).tasks[t.tid].(signal := signal)])
    {
      t.signal := signal;
      Updated(t);
    }

    method WakeupTask(t: BasicTask, signal: Signal, now: Time)
      requires Valid() && t.tid in cache && cache[t.tid] == t && runningTask != t
      modifies t, timedList, this`clock
      ensures Valid() && State() == WakeCtx(old(State()), t.tid, signal, now).(clock := now)
    {
      ghost var tasks := State().tasks;
      SetSignal(t, signal);
      var listed := timedList.Has(t);
      if listed {
        MoveToNow(t, now);
        ghost var c := tasks[t.tid].(signal := signal);
        assert tasks[t.tid := c][t.tid := c.(fire := now)] == tasks[t.tid := c.(fire := now)];
      } else {
        ListAgain(t, now);
      }
    }

    /** `task::wakeup`: an id without a task and the running task are left alone. */
    method WakeupId(tid: Tid, signal: Signal, now: Time)
      requires Valid()
      modifies cache.Values, timedList, this`clock
      ensures Valid() && State() == Wakeup(old(State()), tid, signal, now)
    {
      if (runningTask != null && runningTask.tid == tid) || tid !in cache {
        clock := now;
      } else {
        WakeupTask(cache[tid], signal, now);
      }
    }

    method SetCancelled(t: BasicTask)
      requires Valid() && t.tid in cache && cache[t.tid] == t
      modifies t`cancelled
      ensures Valid() && t.cancelled
      ensures State() == old(State()).(tasks := old(State()).tasks[t.tid := old(State()).tasks[t.tid].(cancelled := true)])
    {
      t.cancelled := true;
      Updated(t);
    }

    method CancelTask(t: BasicTask, now: Time)
      requires Valid() && t.tid in cache && cache[t.tid] == t
      modifies t, timedList, this`clock
      ensures Valid() && State() == Cancel(old(State()), t.tid, now)
    {
      if t.cancelled {
        clock := now;
        return;
      }
      SetCancelled(t);
      if runningTask == t {
        clock := now;
        return;
      }
      var listed := timedList.Has(t);
      if !listed {
        WakeupTask(t, Broken, now);
      } else {
        MoveToNow(t, now);
      }
    }

    method ExitLoop(now: Time)
      modifies this`running, this`clock
      ensures State() == Exit(old(State()), now)
      ensures old(Valid()) ==> Valid()
    {
      running := false;
      clock := now;
    }

    /** `update_interval` by id. */
    method UpdateInterval(tid: Tid, interval: int, now: Time)
      requires Valid()
      modifies cache.Values, this`clock
      ensures Valid() && State() == SetInterval(old(State()), tid, interval, now)
    {
      clock := now;
      if tid in cache {
        var t := cache[tid];
        t.interval := interval;
        Updated(t);
      }
    }

    method RunOnTime(h: Handler)
      requires Valid()
      modifies cache.Values, timedList
      ensures Valid() && State() == RunHandler(old(State()), h)
      ensures forall t | t in cache :: cache[t].status == old(cache[t].status)
    {
      if h.OnTimeout? && h.tid in cache {
        ghost var s := State();
        var t := cache[h.tid];
        timedList.Erase(t, h.fd, Read);
        if t.cancelled {
          t.signal := Broken;
          Updated(t);
        } else {
          assert Contexts() == s.tasks;
        }
      }
    }

    /** The body of the dispatch loop up to the switch to the task. */
    method DispatchNearest(now: Time) returns (t: BasicTask)
      requires Valid() && CanDispatch(State(), now) && S.Head(State()).tid in cache
      modifies this`runningTask, this`clock, cache.Values, timedList
      ensures Valid() && State() == Dispatch(old(State()), now) && runningTask == t
    {
      var result := timedList.Fetch();
      RunOnTime(result.handler);
      t := cache[result.tid];
      SwitchTo(t, now);
    }

    method SwitchTo(t: BasicTask, now: Time)
      requires Valid() && t.tid in cache && cache[t.tid] == t
      modifies this`runningTask, this`clock, t`status
      ensures Valid() && runningTask == t
      ensures State() == old(State()).(running := Some(t.tid), clock := now,
        tasks := old(State()).tasks[t.tid := old(State()).tasks[t.tid].(status := Running)])
    {
      runningTask := t;
      t.status := Running;
      clock := now;
      Updated(t);
    }

    /** The worker returned: the rest of the dispatch loop's body. */
    method SwapBack(now: Time)
      requires Valid() && runningTask != null && runningTask.status == Running
      modifies this`runningTask, this`clock, this`cache, cache.Values, timedList
      ensures Valid() && State() == Finish(old(State()), now)
    {
      ghost var s := State();
      var t := runningTask;
      runningTask := null;
      t.WorkerReturned();
      if t.status == Stopped {
        cache := cache - {t.tid};
        clock := now;
        Removed(t);
        assert State() == s.(tasks := s.tasks - {t.tid}, running := None, clock := now);
      } else {
        timedList.Insert(t, NoHandler, NO_FD, Read);
        clock := now;
        Updated(t);
        assert State() == s.(tasks := s.tasks[t.tid := t.Value()], running := None, clock := now,
                             list := S.Insert(s.list, t.tid, t.nextFireTime, NoHandler, NO_FD, Read));
      }
    }

    /** Puts an unlisted task back for immediate resumption. */
    method ResumeTask(t: BasicTask, signal: Signal, now: Time)
      requires Valid() && t.tid in cache && cache[t.tid] == t
      modifies t, timedList, this`clock
      ensures Valid() && State() == Resume(old(State()), t.tid, signal, now)
    {
      t.signal := signal;
      t.nextFireTime := now;
      timedList.Insert(t, NoHandler, NO_FD, Read);
      clock := now;
      Updated(t);
    }

    /** The body of the event handler's loop. */
    method AnswerEvent(tid: Tid, fd: int, ev: EventType, now: Time)
      requires Valid()
      modifies cache.Values, timedList, this`clock
      ensures Valid() && State() == EventTurn(old(State()), fd, ev, tid, now)
    {
      ghost var s := State();
      if tid in cache {
        var t := cache[tid];
        timedList.Erase(t, fd, ev);
        assert State() == s.(list := S.Erase(s.list, tid, s.tasks[tid].fire, fd, ev));
        ResumeTask(t, Received, now);
      } else {
        timedList.Erase(null, fd, ev);
        assert State() == s;
      }
    }

    method OnEvent(fd: int, ev: EventType, nows: seq<Time>)
      requires Valid() && |nows| == |S.Search(timedList.fdCacheMap, fd, ev)|
      modifies cache.Values, timedList, this`clock
      ensures Valid() && State() == Event(old(State()), fd, ev, nows)
    {
      var ids := timedList.Search(fd, ev);
      var i := 0;
      while i < |ids|
        invariant 0 <= i <= |ids| == |nows| && Valid()
        invariant EventLoop(old(State()), fd, ev, ids, nows) == EventLoop(State(), fd, ev, ids[i..], nows[i..])
      {
        FirstTurn(ids, nows, i);
        AnswerEvent(ids[i], fd, ev, nows[i]);
        i := i + 1;
      }
    }

    static lemma FirstTurn(ids: seq<Tid>, nows: seq<Time>, i: nat)
      requires i < |ids| == |nows|
      ensures ids[i..][0] == ids[i] && ids[i..][1..] == ids[i + 1..]
      ensures nows[i..][0] == nows[i] && nows[i..][1..] == nows[i + 1..]
    {
    }

    method OnError(fd: int, nows: seq<Time>)
      requires Valid() && |nows| == |S.SearchAll(timedList.fdCacheMap, fd)|
      modifies cache.Values, timedList, this`clock
      ensures Valid() && State() == FdError(old(State()), fd, nows)
    {
      ghost var s := State();
      var ids := timedList.SearchAll(fd);
      timedList.EraseFd(fd, cache, Contexts());
      assert State() == s.(list := S.EraseFd(s.list, s.tasks, fd));
      BreakAll(ids, nows);
    }

    method BreakAll(ids: seq<Tid>, nows: seq<Time>)
      requires Valid() && |nows| == |ids|
      modifies cache.Values, timedList, this`clock
      ensures Valid() && State() == ErrorLoop(old(State()), ids, nows)
    {
      var i := 0;
      while i < |ids|
        invariant 0 <= i <= |ids| && Valid()
        invariant ErrorLoop(old(State()), ids, nows) == ErrorLoop(State(), ids[i..], nows[i..])
      {
        FirstTurn(ids, nows, i);
        if ids[i] in cache {
          ResumeTask(cache[ids[i]], Broken, nows[i]);
        }
        i := i + 1;
      }
    }

    /** Cancels every registered task, in the order the registry enumerates them. */
    method CancelAll(order: seq<Tid>, nows: seq<Time>)
      requires Valid() && |nows| == |order| && (set t | t in order) == cache.Keys
      modifies cache.Values, timedList, this`clock
      ensures Valid() && State() == Sweep(old(State()), order, nows)
    {
      var i := 0;
      while i < |order|
        invariant 0 <= i <= |order| && Valid()
        invariant Sweep(old(State()), order, nows) == Sweep(State(), order[i..], nows[i..])
      {
        assert order[i] in order;
        assert order[i..][1..] == order[i + 1..] && nows[i..][1..] == nows[i + 1..];
        CancelTask(cache[order[i]], nows[i]);
        i := i + 1;
      }
    }
  }
}
