/**
  The semaphore's class, proved to be the functions of Semaphore. A fetch that suspends is two
  methods: the part before the switch to the loop and the part after it.
 */
module SemaphoreImpl {
  import opened Scheduler
  import S = Semaphore
  import opened LoopImpl

  /** What the run has done so far; see the corresponding fields of Semaphore.Sem. */
  datatype Record = Record(inFetch: set<Tid>, granted: set<Tid>, init: nat, gives: nat, fetched: nat, wraps: nat)

  class CountingSemaphore {
    const loop: Loop
    var count: nat
    var waitingTask: seq<Tid>
    ghost var record: Record

    constructor (loop: Loop, initCount: nat)
      requires loop.Valid()
      ensures this.loop == loop && State() == S.NewSem(loop.State(), initCount)
    {
      this.loop := loop;
      count, waitingTask := initCount, [];
      record := Record({}, {}, initCount, 0, 0, 0);
    }

    ghost function State(): S.Sem
      reads this, loop, loop.timedList, loop.cache.Values
    {
      S.Sem(loop.State(), count, waitingTask, record.inFetch, record.granted,
            record.init, record.gives, record.fetched, record.wraps)
    }

    method EraseWaiting(t: Tid)
      modifies this`waitingTask
      ensures waitingTask == S.RemoveFirst(old(waitingTask), t)
    {
      var i := 0;
      while i < |waitingTask| && waitingTask[i] != t
        invariant 0 <= i <= |waitingTask|
        invariant S.RemoveFirst(waitingTask, t) == waitingTask[..i] + S.RemoveFirst(waitingTask[i..], t)
      {
        assert waitingTask[i..][1..] == waitingTask[i + 1..];
        i := i + 1;
      }
      if i < |waitingTask| {
        assert waitingTask[i..][1..] == waitingTask[i + 1..];
        waitingTask := waitingTask[..i] + waitingTask[i + 1..];
      }
    }

    method TakePermit(now: Time)
      requires loop.Valid() && count > 0
      modifies this, loop`clock
      ensures loop.Valid()
      ensures State() == old(State().(
        count := count - 1, fetched := record.fetched + 1, sch := loop.State().(clock := now)))
    {
      count := count - 1;
      record := record.(fetched := record.fetched + 1);
      loop.clock := now;
    }

    /** holding and holding_until of the running task. */
    method HoldThis(timeout: Option<int>, now: Time)
      requires loop.Valid() && loop.runningTask != null
      modifies loop, loop.timedList, loop.runningTask
      ensures loop.Valid()
      ensures loop.State() == old(if timeout.None? then Hold(loop.State(), now)
                                  else HoldFor(loop.State(), timeout.value, now))
    {
      if timeout.None? {
        loop.HoldTask(loop.runningTask, now);
      } else {
        loop.HoldTaskFor(loop.runningTask, timeout.value, now);
      }
    }

    /** fetch and fetch_until up to the switch, or to the end when there is none. */
    method FetchBegin(timeout: Option<int>, now: Time) returns (suspended: bool, ok: bool)
      requires loop.Valid() && loop.runningTask != null && S.CanCall(State())
      modifies this, loop, loop.timedList, loop.runningTask
      ensures loop.Valid() && State() == S.Fetch(old(State()), timeout, now)
      ensures suspended <==> loop.runningTask == null
      ensures ok <==> old(count) > 0
    {
      if count > 0 {
        TakePermit(now);
        return false, true;
      }
      ghost var m := State();
      var tid := loop.runningTask.tid;
      waitingTask := waitingTask + [tid];
      HoldThis(timeout, now);
      ghost var m1 := m.(waiters := m.waiters + [tid], sch := loop.State());
      assert State() == m1;
      suspended, ok := loop.runningTask == null, false;
      if suspended {
        record := record.(inFetch := record.inFetch + {tid});
        assert State() == m1.(inFetch := m.inFetch + {tid});
      } else {
        EraseWaiting(tid);
        assert State() == m1.(waiters := S.RemoveFirst(m.waiters + [tid], tid));
      }
    }

    method FetchEnd(now: Time) returns (ok: bool)
      requires loop.Valid() && loop.runningTask != null
      modifies this, loop`clock
      ensures loop.Valid() && State() == S.FetchReturn(old(State()), now)
      ensures ok <==> S.Fetched(old(State()))
    {
      var thisTask := loop.runningTask;
      ok := thisTask.signal == Received;
      EraseWaiting(thisTask.tid);
      record := record.(inFetch := record.inFetch - {thisTask.tid}, granted := record.granted - {thisTask.tid},
                        fetched := if ok then record.fetched + 1 else record.fetched);
      loop.clock := now;
    }

    method WakeWaiter(tid: Tid, now: Time)
      requires loop.Valid()
      modifies this`record, loop`clock, loop.timedList, loop.cache.Values
      ensures loop.Valid()
      ensures State() == old(State().(
        sch := Wakeup(loop.State(), tid, Received, now), granted := record.granted + {tid}))
    {
      loop.WakeupId(tid, Received, now);
      record := record.(granted := record.granted + {tid});
    }

    method CountUp(now: Time)
      requires loop.Valid()
      modifies this`count, this`record, loop`clock
      ensures loop.Valid()
      ensures State() == old(State().(
        count := (count + 1) % S.WIDTH,
        wraps := if count + 1 == S.WIDTH then record.wraps + 1 else record.wraps,
        sch := loop.State().(clock := now)))
    {
      record := record.(wraps := if count + 1 == S.WIDTH then record.wraps + 1 else record.wraps);
      count := (count + 1) % S.WIDTH;
      loop.clock := now;
    }

    method PopWaiter() returns (tid: Tid)
      requires waitingTask != []
      modifies this`waitingTask
      ensures tid == old(waitingTask)[0] && State() == old(State()).(waiters := old(waitingTask)[1..])
    {
      tid := waitingTask[0];
      waitingTask := waitingTask[1..];
    }

    method Give(now: Time)
      requires loop.Valid()
      modifies this, loop`clock, loop.timedList, loop.cache.Values
      ensures loop.Valid() && State() == S.Give(old(State()), now)
    {
      ghost var m := State();
      record := record.(gives := record.gives + 1);
      assert State() == m.(gives := m.gives + 1);
      GiveOne(now);
    }

    /** The loop over the waiters, up to the first that is alive. */
    method GiveOne(now: Time)
      requires loop.Valid()
      modifies this, loop`clock, loop.timedList, loop.cache.Values
      ensures loop.Valid() && State() == S.GiveLoop(old(State()), now)
    {
      ghost var m := State();
      while |waitingTask| > 0
        invariant loop.Valid() && S.GiveLoop(m, now) == S.GiveLoop(State(), now)
        invariant loop.cache == old(loop.cache)
        decreases |waitingTask|
      {
        ghost var m1 := State();
        var tid := PopWaiter();
        GiveStep(m1, State(), now);
        if tid in loop.cache { // is_alive
          WakeWaiter(tid, now);
          return;
        }
      }
      CountUp(now);
    }

    static lemma GiveStep(m: S.Sem, m1: S.Sem, now: Time)
      requires m.waiters != [] && m1 == m.(waiters := m.waiters[1..])
      ensures var t := m.waiters[0];
        S.GiveLoop(m, now) == if t !in m.sch.tasks then S.GiveLoop(m1, now)
                              else m1.(sch := Wakeup(m.sch, t, Received, now), granted := m.granted + {t})
    {
    }

    method Cancel(nows: seq<Time>)
      requires loop.Valid() && |nows| == |waitingTask|
      modifies this, loop`clock, loop.timedList, loop.cache.Values
      ensures loop.Valid() && State() == S.CancelAll(old(State()), nows)
    {
      ghost var s := loop.State();
      for i := 0 to |waitingTask|
        invariant loop.Valid() && |waitingTask| == |nows| && waitingTask == old(waitingTask)
        invariant loop.cache == old(loop.cache) && count == old(count) && record == old(record)
        invariant S.WakeAll(s, waitingTask, nows) == S.WakeAll(loop.State(), waitingTask[i..], nows[i..])
      {
        assert waitingTask[i..][1..] == waitingTask[i + 1..] && nows[i..][1..] == nows[i + 1..];
        loop.WakeupId(waitingTask[i], Nothing, nows[i]);
      }
      waitingTask := [];
    }
  }
}
