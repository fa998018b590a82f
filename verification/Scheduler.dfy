/**
  The cooperative scheduler as a state machine: the task registry, the time-ordered list with its
  index by file descriptor, the running-task slot and the loop's running flag. One function per
  scheduler call; the classes of LoopImpl.dfy are proved against these functions.
 */
module Scheduler {
  type Tid = int
  type Time = int

  const INVALID_TID: Tid := -1
  const NO_FD: int := -1
  const REPEAT_INFINITE: nat := 0xFFFF_FFFF_FFFF_FFFF

  datatype Option<+T> = None | Some(value: T)

  datatype Status = Pending | Running | Paused | Stopped
  datatype Signal = Received | Nothing | Broken
  datatype EventType = Read | Write

  /** The timeout closure of a list entry: none, or the one a wait on a descriptor installs. */
  datatype Handler = NoHandler | OnTimeout(tid: Tid, fd: int, ev: EventType)

  datatype Entry = Entry(tid: Tid, handler: Handler)
  datatype FdEntry = FdEntry(fd: int, ev: EventType, tid: Tid)

  /**
    `timed` is the ordered map. Its key is the fire time alone: the map's comparator calls two keys
    equivalent when their times are equal or their ids are (see KeyLess), so a key is found under
    its time, whichever task put it there. `fds` is the multimap in insertion order.
   */
  datatype TList = TList(timed: map<Time, Entry>, fds: seq<FdEntry>)

  datatype Ctx = Ctx(
    status: Status, cancelled: bool, signal: Signal, repeat: nat, fire: Time, interval: int)

  datatype Sched = Sched(
    tasks: map<Tid, Ctx>, list: TList, running: Option<Tid>, active: bool, clock: Time)

  // ----- the time-ordered list -----

  datatype Key = Key(tid: Tid, time: Time)

  predicate KeyLess(a: Key, b: Key) {
    a.tid != b.tid && a.time < b.time
  }

  predicate KeyEquivalent(a: Key, b: Key) {
    !KeyLess(a, b) && !KeyLess(b, a)
  }

  /** On keys with pairwise distinct ids and times the comparator is a strict total order, by time. */
  lemma KeyOrderIsTimeOrder(keys: set<Key>)
    requires forall a, b | a in keys && b in keys && a != b :: a.tid != b.tid && a.time != b.time
    ensures forall a, b | a in keys && b in keys :: KeyLess(a, b) <==> a.time < b.time
    ensures forall a, b | a in keys && b in keys :: KeyLess(a, b) || KeyLess(b, a) || a == b
    ensures forall a, b, c | a in keys && b in keys && c in keys ::
      KeyLess(a, b) && KeyLess(b, c) ==> KeyLess(a, c)
  {
    forall a, b | a in keys && b in keys
      ensures (KeyLess(a, b) <==> a.time < b.time) && (KeyLess(a, b) || KeyLess(b, a) || a == b)
    {
      if a != b {
        assert a.tid != b.tid;
      }
    }
  }

  /** A probe whose own entry, if present, carries its current time finds the entry of equal time. */
  lemma LookupIsByTime(keys: set<Key>, probe: Key)
    requires forall k | k in keys && k.tid == probe.tid :: k.time == probe.time
    ensures forall k | k in keys :: KeyEquivalent(k, probe) <==> k.time == probe.time
  {
  }

  function MinTime(times: set<Time>): (m: Time)
    requires times != {}
    ensures m in times && forall t | t in times :: m <= t
  {
    MinExists(times);
    var m :| m in times && forall u | u in times :: m <= u;
    m
  }

  lemma EmptyOrMember(s: set<Time>)
    ensures s == {} || exists x :: x in s
  {
    if forall x :: x !in s {
      assert s == {};
    }
  }

  lemma {:induction false} MinExists(times: set<Time>)
    requires times != {}
    ensures exists m :: m in times && forall t | t in times :: m <= t
  {
    EmptyOrMember(times);
    var x :| x in times;
    if times - {x} != {} {
      MinExists(times - {x});
      var m :| m in times - {x} && forall t | t in times - {x} :: m <= t;
      var least := if m <= x then m else x;
      assert least in times && forall t | t in times :: least <= t by {
        assert forall t | t in times :: t == x || t in times - {x};
      }
    } else {
      assert times == {x} by {
        assert forall t | t in times :: t == x || t in times - {x};
      }
      assert x in times && forall t | t in times :: x <= t;
    }
  }

  function Nearest(l: TList): Time
    requires l.timed != map[]
  {
    assert l.timed.Keys != {};
    MinTime(l.timed.Keys)
  }

  /** An occupied time keeps its key, hence its task: only the handler is replaced. */
  function PutTimed(timed: map<Time, Entry>, tid: Tid, time: Time, handler: Handler): map<Time, Entry> {
    timed[time := Entry(if time in timed then timed[time].tid else tid, handler)]
  }

  function Insert(l: TList, tid: Tid, time: Time, handler: Handler, fd: int, ev: EventType): TList {
    TList(PutTimed(l.timed, tid, time, handler),
          if fd == NO_FD then l.fds else l.fds + [FdEntry(fd, ev, tid)])
  }

  function Remove(timed: map<Time, Entry>, time: Time): map<Time, Entry> {
    timed - {time}
  }

  /** Moves the entry found under `from`, with its handler, to time `to`. */
  function Retime(l: TList, tid: Tid, from: Time, to: Time): TList
    requires from in l.timed
  {
    l.(timed := PutTimed(Remove(l.timed, from), tid, to, l.timed[from].handler))
  }

  function WithoutKey(fds: seq<FdEntry>, key: FdEntry): seq<FdEntry> {
    if fds == [] then [] else
      var front := WithoutKey(fds[..|fds| - 1], key);
      if fds[|fds| - 1] == key then front else front + [fds[|fds| - 1]]
  }

  function WithoutFd(fds: seq<FdEntry>, fd: int): seq<FdEntry> {
    if fds == [] then [] else
      var front := WithoutFd(fds[..|fds| - 1], fd);
      if fds[|fds| - 1].fd == fd then front else front + [fds[|fds| - 1]]
  }

  function Search(fds: seq<FdEntry>, fd: int, ev: EventType): seq<Tid> {
    if fds == [] then [] else
      var front := Search(fds[..|fds| - 1], fd, ev);
      var e := fds[|fds| - 1];
      if e.fd == fd && e.ev == ev then front + [e.tid] else front
  }

  function SearchAll(fds: seq<FdEntry>, fd: int): seq<Tid> {
    Search(fds, fd, Read) + Search(fds, fd, Write)
  }

  function Erase(l: TList, tid: Tid, time: Time, fd: int, ev: EventType): TList {
    TList(Remove(l.timed, time),
          if fd == NO_FD then l.fds else WithoutKey(l.fds, FdEntry(fd, ev, tid)))
  }

  function Unlist(timed: map<Time, Entry>, fds: seq<FdEntry>, tasks: map<Tid, Ctx>, fd: int): map<Time, Entry> {
    if fds == [] then timed else
      var front, e := Unlist(timed, fds[..|fds| - 1], tasks, fd), fds[|fds| - 1];
      if e.fd == fd && e.tid in tasks then Remove(front, tasks[e.tid].fire) else front
  }

  /** Drops every entry of the descriptor and the list entry of every registered task found there. */
  function EraseFd(l: TList, tasks: map<Tid, Ctx>, fd: int): TList {
    if fd == NO_FD then l else
      TList(Unlist(l.timed, l.fds, tasks, fd), WithoutFd(l.fds, fd))
  }

  // ----- scheduler calls -----

  function Fresh(repeat: nat, fire: Time, interval: int): Ctx {
    Ctx(Paused, false, Nothing, repeat, fire, interval)
  }

  /** `create_task` followed by `add_task`. */
  function Spawn(s: Sched, tid: Tid, repeat: nat, interval: int, now: Time): Sched {
    var fire := now + interval;
    s.(tasks := s.tasks[tid := Fresh(repeat, fire, interval)],
       list := Insert(s.list, tid, fire, NoHandler, NO_FD, Read),
       clock := now)
  }

  /** What the timeout closure does. It erases with the read event type, whatever the wait was for. */
  function RunHandler(s: Sched, h: Handler): Sched {
    if h.NoHandler? || h.tid !in s.tasks then s else
      var c := s.tasks[h.tid];
      s.(list := Erase(s.list, h.tid, c.fire, h.fd, Read),
         tasks := if c.cancelled then s.tasks[h.tid := c.(signal := Broken)] else s.tasks)
  }

  predicate CanDispatch(s: Sched, now: Time) {
    s.running == None && s.list.timed != map[] && Nearest(s.list) <= now
  }

  function Head(s: Sched): Entry
    requires s.list.timed != map[]
  {
    s.list.timed[Nearest(s.list)]
  }

  /** Takes the entry with the nearest time, runs its handler and switches to its task. */
  function Dispatch(s: Sched, now: Time): Sched
    requires CanDispatch(s, now) && Head(s).tid in s.tasks
  {
    var e := Head(s);
    var s1 := RunHandler(s.(list := s.list.(timed := Remove(s.list.timed, Nearest(s.list)))), e.handler);
    s1.(running := Some(e.tid), tasks := s1.tasks[e.tid := s1.tasks[e.tid].(status := Running)], clock := now)
  }

  predicate HasRunning(s: Sched) {
    s.running.Some? && s.running.value in s.tasks
  }

  function Me(s: Sched): Ctx
    requires HasRunning(s)
  {
    s.tasks[s.running.value]
  }

  function SetMe(s: Sched, c: Ctx): Sched
    requires HasRunning(s)
  {
    s.(tasks := s.tasks[s.running.value := c])
  }

  /** Lists the running task under `fire` with the given wait and gives control back to the loop. */
  function Suspend(s: Sched, c: Ctx, handler: Handler, fd: int, ev: EventType): Sched
    requires HasRunning(s)
  {
    SetMe(s, c.(status := Paused)).(
      list := Insert(s.list, s.running.value, c.fire, handler, fd, ev), running := None)
  }

  function Yield(s: Sched, now: Time): Sched
    requires HasRunning(s)
  {
    Suspend(s, Me(s).(fire := now), NoHandler, NO_FD, Read).(clock := now)
  }

  function Refuse(s: Sched): Sched
    requires HasRunning(s)
  {
    SetMe(s, Me(s).(signal := Broken))
  }

  function Hold(s: Sched, now: Time): Sched
    requires HasRunning(s)
  {
    (if Me(s).cancelled then Refuse(s) else
       SetMe(s, Me(s).(signal := Nothing, status := Paused)).(running := None)).(clock := now)
  }

  function HoldFor(s: Sched, timeout: int, now: Time): Sched
    requires HasRunning(s)
  {
    (if Me(s).cancelled then Refuse(s) else
       Suspend(s, Me(s).(signal := Nothing, fire := now + timeout), NoHandler, NO_FD, Read)).(clock := now)
  }

  function Wait(s: Sched, fd: int, ev: EventType, timeout: int, now: Time): Sched
    requires HasRunning(s)
  {
    (if Me(s).cancelled then Refuse(s) else
       Suspend(s, Me(s).(signal := Nothing, fire := now + timeout),
               OnTimeout(s.running.value, fd, ev), fd, ev)).(clock := now)
  }

  /** `wakeup_task`: a listed task is moved to `now`, an unlisted one is listed under its old time. */
  function WakeCtx(s: Sched, tid: Tid, signal: Signal, now: Time): Sched
    requires tid in s.tasks
  {
    var c := s.tasks[tid].(signal := signal);
    if c.fire in s.list.timed then
      s.(tasks := s.tasks[tid := c.(fire := now)], list := Retime(s.list, tid, c.fire, now))
    else
      s.(tasks := s.tasks[tid := c], list := Insert(s.list, tid, c.fire, NoHandler, NO_FD, Read))
  }

  function Wakeup(s: Sched, tid: Tid, signal: Signal, now: Time): Sched {
    (if s.running == Some(tid) || tid !in s.tasks then s else WakeCtx(s, tid, signal, now)).(clock := now)
  }

  function Cancel(s: Sched, tid: Tid, now: Time): Sched {
    (if tid !in s.tasks || s.tasks[tid].cancelled then s else
       var s1 := s.(tasks := s.tasks[tid := s.tasks[tid].(cancelled := true)]);
       if s.running == Some(tid) then s1
       else if s.tasks[tid].fire in s.list.timed then
         s1.(tasks := s1.tasks[tid := s1.tasks[tid].(fire := now)],
             list := Retime(s.list, tid, s.tasks[tid].fire, now))
       else WakeCtx(s1, tid, Broken, now)).(clock := now)
  }

  function Exit(s: Sched, now: Time): Sched {
    s.(active := false, clock := now)
  }

  /** `update_interval`: counts from the next end of the worker on. */
  function SetInterval(s: Sched, tid: Tid, interval: int, now: Time): Sched {
    (if tid in s.tasks then s.(tasks := s.tasks[tid := s.tasks[tid].(interval := interval)]) else s).(clock := now)
  }

  function Decrement(repeat: nat): nat {
    if repeat == REPEAT_INFINITE then repeat
    else if repeat == 0 then REPEAT_INFINITE // size_t wraps
    else repeat - 1
  }

  predicate LastRun(c: Ctx) {
    c.repeat == 1 || c.cancelled
  }

  /** The worker returned: the tail of `swap_to_task`, then destruction or re-insertion by the loop. */
  function Finish(s: Sched, now: Time): Sched
    requires HasRunning(s)
  {
    var c := Me(s);
    (if LastRun(c) then
       s.(tasks := s.tasks - {s.running.value})
     else
       var c1 := c.(status := Pending, repeat := Decrement(c.repeat), fire := c.fire + c.interval);
       SetMe(s, c1).(list := Insert(s.list, s.running.value, c1.fire, NoHandler, NO_FD, Read)))
    .(running := None, clock := now)
  }

  /** Lists a task that no longer has an entry for immediate resumption with the given signal. */
  function Resume(s: Sched, tid: Tid, signal: Signal, now: Time): Sched
    requires tid in s.tasks
  {
    s.(tasks := s.tasks[tid := s.tasks[tid].(signal := signal, fire := now)],
       list := Insert(s.list, tid, now, NoHandler, NO_FD, Read), clock := now)
  }

  /** The event handler for the waiters `ids`, each with its own clock reading. */
  function EventLoop(s: Sched, fd: int, ev: EventType, ids: seq<Tid>, nows: seq<Time>): Sched
    requires |nows| == |ids|
    decreases |ids|
  {
    if ids == [] then s
    else EventLoop(EventTurn(s, fd, ev, ids[0], nows[0]), fd, ev, ids[1..], nows[1..])
  }

  /** One waiter's turn; a waiter without a task has none. */
  function EventTurn(s: Sched, fd: int, ev: EventType, t: Tid, now: Time): Sched {
    if t !in s.tasks then s
    else Resume(s.(list := Erase(s.list, t, s.tasks[t].fire, fd, ev)), t, Received, now)
  }

  function Event(s: Sched, fd: int, ev: EventType, nows: seq<Time>): Sched
    requires |nows| == |Search(s.list.fds, fd, ev)|
  {
    EventLoop(s, fd, ev, Search(s.list.fds, fd, ev), nows)
  }

  function ErrorLoop(s: Sched, ids: seq<Tid>, nows: seq<Time>): Sched
    requires |nows| == |ids|
    decreases |ids|
  {
    if ids == [] then s
    else ErrorLoop(ErrorTurn(s, ids[0], nows[0]), ids[1..], nows[1..])
  }

  function ErrorTurn(s: Sched, t: Tid, now: Time): Sched {
    if t !in s.tasks then s else Resume(s, t, Broken, now)
  }

  function FdError(s: Sched, fd: int, nows: seq<Time>): Sched
    requires |nows| == |SearchAll(s.list.fds, fd)|
  {
    ErrorLoop(s.(list := EraseFd(s.list, s.tasks, fd)), SearchAll(s.list.fds, fd), nows)
  }

  /** The cancel sweep of the main loop over the registry, in whatever order it is enumerated. */
  function Sweep(s: Sched, order: seq<Tid>, nows: seq<Time>): Sched
    requires |nows| == |order|
    decreases |order|
  {
    if order == [] then s else Sweep(Cancel(s, order[0], nows[0]), order[1..], nows[1..])
  }

  // ----- the invariant -----

  predicate Listed(s: Sched, t: Tid) {
    t in s.tasks && s.tasks[t].fire in s.list.timed && s.list.timed[s.tasks[t].fire].tid == t
  }

  predicate Held(s: Sched, t: Tid) {
    t in s.tasks && s.running != Some(t) && !Listed(s, t)
  }

  predicate TaskOk(s: Sched, t: Tid)
    requires t in s.tasks
  {
    var c := s.tasks[t];
    if s.running == Some(t) then c.status == Running && !Listed(s, t) && c.fire <= s.clock
    else
      && (c.status == Pending || c.status == Paused)
      && (c.cancelled ==> Listed(s, t) && c.fire <= s.clock)
      && (!Listed(s, t) ==> c.status == Paused && c.fire <= s.clock)
  }

  ghost predicate DistinctTimes(s: Sched) {
    forall t, u | t in s.tasks && u in s.tasks && t != u :: s.tasks[t].fire != s.tasks[u].fire
  }

  ghost predicate EntriesOk(s: Sched) {
    forall T | T in s.list.timed ::
      s.list.timed[T].tid in s.tasks && s.tasks[s.list.timed[T].tid].fire == T
  }

  /** The task is listed with the timeout handler of this very wait. */
  predicate WaitsOn(s: Sched, e: FdEntry) {
    Listed(s, e.tid) && s.list.timed[s.tasks[e.tid].fire].handler == OnTimeout(e.tid, e.fd, e.ev)
  }

  predicate HandlerOwned(e: Entry) {
    e.handler.OnTimeout? ==> e.handler.tid == e.tid
  }

  predicate HandlerIndexed(s: Sched, T: Time)
    requires T in s.list.timed
  {
    var e := s.list.timed[T];
    e.handler.OnTimeout? && e.handler.fd != NO_FD ==> FdEntry(e.handler.fd, e.handler.ev, e.tid) in s.list.fds
  }

  /** Every wait that is on has its entry in the index, and no entry is for NO_FD. */
  ghost predicate WaitsIndexed(s: Sched) {
    && (forall T | T in s.list.timed :: HandlerIndexed(s, T))
    && (forall e | e in s.list.fds :: e.fd != NO_FD)
  }

  /** No entry of the type occurs twice. */
  ghost predicate Once(fds: seq<FdEntry>, ev: EventType) {
    forall i, j | 0 <= i < j < |fds| && fds[i].ev == ev :: fds[i] != fds[j]
  }

  /** Every entry of the type stands for the wait that its task is in, and stands there once. */
  ghost predicate EntriesCurrent(s: Sched, ev: EventType) {
    (forall e | e in s.list.fds && e.ev == ev :: WaitsOn(s, e)) && Once(s.list.fds, ev)
  }

  /** The invariant but for the descriptor index, with the tasks in `todo` taken out of the list. */
  ghost predicate CoreExcept(s: Sched, todo: set<Tid>) {
    && INVALID_TID !in s.tasks
    && (s.running.Some? ==> s.running.value in s.tasks)
    && EntriesOk(s)
    && DistinctTimes(s)
    && (forall T | T in s.list.timed :: HandlerOwned(s.list.timed[T]))
    && (forall t | t in s.tasks && t !in todo :: TaskOk(s, t))
    && (forall t | t in s.tasks && t in todo ::
          !Listed(s, t) && s.running != Some(t) && (s.tasks[t].status == Pending || s.tasks[t].status == Paused))
  }

  ghost predicate Core(s: Sched) {
    CoreExcept(s, {})
  }

  ghost predicate Inv(s: Sched) {
    Core(s) && WaitsIndexed(s) && EntriesCurrent(s, Read) && EntriesCurrent(s, Write)
  }

  /** No other live task has this fire time. */
  ghost predicate FreeTime(s: Sched, t: Tid, time: Time) {
    forall u | u in s.tasks && u != t :: s.tasks[u].fire != time
  }

  /** Every task is exactly one of running, listed under its fire time, and held; a cancelled one is not held. */
  lemma Trichotomy(s: Sched, t: Tid)
    requires Core(s) && t in s.tasks
    ensures s.running == Some(t) ==> !Listed(s, t) && !Held(s, t)
    ensures s.running != Some(t) ==> (Listed(s, t) <==> !Held(s, t))
    ensures forall T | T in s.list.timed && s.list.timed[T].tid == t :: T == s.tasks[t].fire
    ensures s.tasks[t].cancelled ==> !Held(s, t) && s.tasks[t].fire <= s.clock
  {
    assert TaskOk(s, t);
  }

  lemma ListedIsOccupied(s: Sched, t: Tid)
    requires EntriesOk(s) && DistinctTimes(s) && t in s.tasks
    ensures Listed(s, t) <==> s.tasks[t].fire in s.list.timed
  {
    if s.tasks[t].fire in s.list.timed {
      var e := s.list.timed[s.tasks[t].fire];
      assert e.tid in s.tasks && s.tasks[e.tid].fire == s.tasks[t].fire;
    }
  }

  // ----- steps and runs -----

  /**
    One scheduler step with its clock readings. Between two dispatches the running worker is any
    sequence of calls; Dispatch, Event, FdError and Sweep belong to the main loop.
   */
  datatype Step =
    | DoSpawn(tid: Tid, repeat: nat, interval: int, now: Time)
    | DoDispatch(now: Time)
    | DoYield(now: Time)
    | DoHold(now: Time)
    | DoHoldFor(timeout: int, now: Time)
    | DoWait(fd: int, ev: EventType, timeout: int, now: Time)
    | DoWakeup(tid: Tid, signal: Signal, now: Time)
    | DoCancel(tid: Tid, now: Time)
    | DoExit(now: Time)
    | DoSetInterval(tid: Tid, interval: int, now: Time)
    | DoFinish(now: Time)
    | DoEvent(fd: int, ev: EventType, nows: seq<Time>)
    | DoError(fd: int, nows: seq<Time>)
    | DoSweep(order: seq<Tid>, nows: seq<Time>)

  /** What only the running task does, and what may take it off the processor. */
  predicate IsOwnCall(step: Step) {
    step.DoYield? || step.DoHold? || step.DoHoldFor? || step.DoWait? || step.DoFinish?
  }

  predicate NowsFrom(clock: Time, nows: seq<Time>)
    decreases |nows|
  {
    nows == [] || (clock <= nows[0] && NowsFrom(nows[0], nows[1..]))
  }

  /** Who may take the step, and that the clock does not run backwards. */
  ghost predicate Enabled(s: Sched, step: Step) {
    match step
    case DoSpawn(tid, repeat, interval, now) =>
      tid !in s.tasks && tid != INVALID_TID && repeat <= REPEAT_INFINITE && s.clock <= now
    case DoDispatch(now) => CanDispatch(s, now) && Head(s).tid in s.tasks && s.clock <= now
    case DoYield(now) => HasRunning(s) && s.clock <= now
    case DoHold(now) => HasRunning(s) && s.clock <= now
    case DoHoldFor(timeout, now) => HasRunning(s) && s.clock <= now
    case DoWait(fd, ev, timeout, now) => HasRunning(s) && s.clock <= now
    case DoWakeup(tid, signal, now) => s.clock <= now
    case DoCancel(tid, now) => s.clock <= now
    case DoExit(now) => s.clock <= now
    case DoSetInterval(tid, interval, now) => s.clock <= now
    case DoFinish(now) => HasRunning(s) && s.clock <= now
    case DoEvent(fd, ev, nows) =>
      fd != NO_FD && s.running == None && s.active && |nows| == |Search(s.list.fds, fd, ev)| && NowsFrom(s.clock, nows)
    case DoError(fd, nows) =>
      fd != NO_FD && s.running == None && s.active && |nows| == |SearchAll(s.list.fds, fd)| && NowsFrom(s.clock, nows)
    case DoSweep(order, nows) =>
      && s.running == None && !s.active && |nows| == |order| && NowsFrom(s.clock, nows)
      && (set t | t in order) == s.tasks.Keys
  }

  ghost function Apply(s: Sched, step: Step): Sched
    requires Enabled(s, step)
  {
    match step
    case DoSpawn(tid, repeat, interval, now) => Spawn(s, tid, repeat, interval, now)
    case DoDispatch(now) => Dispatch(s, now)
    case DoYield(now) => Yield(s, now)
    case DoHold(now) => Hold(s, now)
    case DoHoldFor(timeout, now) => HoldFor(s, timeout, now)
    case DoWait(fd, ev, timeout, now) => Wait(s, fd, ev, timeout, now)
    case DoWakeup(tid, signal, now) => Wakeup(s, tid, signal, now)
    case DoCancel(tid, now) => Cancel(s, tid, now)
    case DoExit(now) => Exit(s, now)
    case DoSetInterval(tid, interval, now) => SetInterval(s, tid, interval, now)
    case DoFinish(now) => Finish(s, now)
    case DoEvent(fd, ev, nows) => Event(s, fd, ev, nows)
    case DoError(fd, nows) => FdError(s, fd, nows)
    case DoSweep(order, nows) => Sweep(s, order, nows)
  }

  ghost predicate EventTimely(s: Sched, fd: int, ev: EventType, ids: seq<Tid>, nows: seq<Time>)
    requires |nows| == |ids|
    decreases |ids|
  {
    ids != [] ==>
      && (ids[0] in s.tasks ==> FreeTime(s, ids[0], nows[0]))
      && EventTimely(EventTurn(s, fd, ev, ids[0], nows[0]), fd, ev, ids[1..], nows[1..])
  }

  ghost predicate ErrorTimely(s: Sched, ids: seq<Tid>, nows: seq<Time>)
    requires |nows| == |ids|
    decreases |ids|
  {
    ids != [] ==>
      && (ids[0] in s.tasks ==> FreeTime(s, ids[0], nows[0]))
      && ErrorTimely(ErrorTurn(s, ids[0], nows[0]), ids[1..], nows[1..])
  }

  ghost predicate CancelTimely(s: Sched, tid: Tid, now: Time) {
    tid in s.tasks && !s.tasks[tid].cancelled && s.running != Some(tid) && s.tasks[tid].fire in s.list.timed ==>
      FreeTime(s, tid, now)
  }

  ghost predicate SweepTimely(s: Sched, order: seq<Tid>, nows: seq<Time>)
    requires |nows| == |order|
    decreases |order|
  {
    order != [] ==>
      CancelTimely(s, order[0], nows[0]) && SweepTimely(Cancel(s, order[0], nows[0]), order[1..], nows[1..])
  }

  /**
    The assumption on the clock: a fire time the step assigns is no other live task's fire time.
    The ordered map cannot hold two tasks under one time (see TieLosesTheTask).
   */
  ghost predicate Timely(s: Sched, step: Step)
    requires Enabled(s, step)
  {
    match step
    case DoSpawn(tid, repeat, interval, now) => FreeTime(s, tid, now + interval)
    case DoYield(now) => FreeTime(s, s.running.value, now)
    case DoHoldFor(timeout, now) => Me(s).cancelled || FreeTime(s, s.running.value, now + timeout)
    case DoWait(fd, ev, timeout, now) => Me(s).cancelled || FreeTime(s, s.running.value, now + timeout)
    case DoWakeup(tid, signal, now) =>
      s.running != Some(tid) && tid in s.tasks && s.tasks[tid].fire in s.list.timed ==> FreeTime(s, tid, now)
    case DoCancel(tid, now) => CancelTimely(s, tid, now)
    case DoFinish(now) => LastRun(Me(s)) || FreeTime(s, s.running.value, Me(s).fire + Me(s).interval)
    case DoEvent(fd, ev, nows) => EventTimely(s, fd, ev, Search(s.list.fds, fd, ev), nows)
    case DoError(fd, nows) =>
      ErrorTimely(s.(list := EraseFd(s.list, s.tasks, fd)), SearchAll(s.list.fds, fd), nows)
    case DoSweep(order, nows) => SweepTimely(s, order, nows)
    case _ => true
  }

  /** The step resumes a task whose write wait was not ended by its descriptor. */
  predicate WriteTimeout(s: Sched, step: Step) {
    && step.DoDispatch? && s.list.timed != map[]
    && Head(s).handler.OnTimeout? && Head(s).handler.ev == Write && Head(s).handler.fd != NO_FD
  }

  /** The tasks that an event or an error finds in the index. */
  predicate Reaches(s: Sched, step: Step, t: Tid) {
    || (step.DoEvent? && t in Search(s.list.fds, step.fd, step.ev))
    || (step.DoError? && t in SearchAll(s.list.fds, step.fd))
  }

  /** A registered task occurs among the waiters twice. */
  ghost predicate Twice(s: Sched, ids: seq<Tid>) {
    exists i, j :: 0 <= i < j < |ids| && ids[i] == ids[j] && ids[i] in s.tasks
  }

  /** The step is an error of a descriptor under which a registered task is found twice. */
  ghost predicate MeetsTwice(s: Sched, step: Step) {
    step.DoError? && Twice(s, SearchAll(s.list.fds, step.fd))
  }

  // ----- runs -----

  /** Any sequence of steps that the loop, the workers and the descriptors may take. */
  ghost predicate EnabledRun(s: Sched, steps: seq<Step>)
    decreases |steps|
  {
    steps != [] ==> Enabled(s, steps[0]) && EnabledRun(Apply(s, steps[0]), steps[1..])
  }

  ghost function Run(s: Sched, steps: seq<Step>): Sched
    requires EnabledRun(s, steps)
    decreases |steps|
  {
    if steps == [] then s else Run(Apply(s, steps[0]), steps[1..])
  }

  /** Fire times are distinct and no error meets a task twice. Waits for writing may time out. */
  ghost predicate Orderly(s: Sched, step: Step)
    requires Enabled(s, step)
  {
    Timely(s, step) && !MeetsTwice(s, step)
  }

  ghost predicate OrderlyRun(s: Sched, steps: seq<Step>)
    requires EnabledRun(s, steps)
    decreases |steps|
  {
    steps != [] ==> Orderly(s, steps[0]) && OrderlyRun(Apply(s, steps[0]), steps[1..])
  }

  const EMPTY: Sched := Sched(map[], TList(map[], []), None, true, 0)
}
