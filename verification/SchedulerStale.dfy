/**
  A wait for writing that times out leaves its index entry behind, so that one descriptor may name a
  task twice. An error of that descriptor breaks registry and list: the entry of the task's first turn
  outlives its fire time. (In its second turn the map finds its entry by task or by time, depending on
  the shape of the tree; the model looks by time. The entry of the first turn stays either way.)
 */
module SchedulerStale {
  import opened Scheduler
  import opened SchedulerInvariant

  predicate Increasing(nows: seq<Time>) {
    forall i, j | 0 <= i < j < |nows| :: nows[i] < nows[j]
  }

  /** An entry outlives its task's fire time once the task has another turn. */
  lemma {:induction false} LeftBehind(s: Sched, ids: seq<Tid>, nows: seq<Time>, t: Tid, T: Time)
    requires |nows| == |ids| && Increasing(nows) && (nows != [] ==> T < nows[0])
    requires T in s.list.timed && s.list.timed[T].tid == t && t in s.tasks
    requires t in ids || s.tasks[t].fire > T
    ensures !EntriesOk(ErrorLoop(s, ids, nows))
    decreases |ids|
  {
    if ids != [] {
      var s1 := ErrorTurn(s, ids[0], nows[0]);
      assert ids == [ids[0]] + ids[1..];
      assert nows == [nows[0]] + nows[1..];
      LeftBehind(s1, ids[1..], nows[1..], t, T);
    }
  }

  lemma {:induction false} TwiceBreaks(s: Sched, ids: seq<Tid>, nows: seq<Time>)
    requires EntriesOk(s) && |nows| == |ids| && Increasing(nows) && Twice(s, ids)
    requires forall t | t in ids && t in s.tasks :: !Listed(s, t)
    requires ErrorTimely(s, ids, nows)
    ensures !EntriesOk(ErrorLoop(s, ids, nows))
    decreases |ids|
  {
    var i, j :| 0 <= i < j < |ids| && ids[i] == ids[j] && ids[i] in s.tasks;
    var t, s1 := ids[0], ErrorTurn(s, ids[0], nows[0]);
    assert ids == [t] + ids[1..];
    assert nows == [nows[0]] + nows[1..];
    if i == 0 {
      assert ids[1..][j - 1] == t;
      FreeTimeVacant(s, t, nows[0]);
      LeftBehind(s1, ids[1..], nows[1..], t, nows[0]);
    } else {
      assert ids[1..][i - 1] == ids[1..][j - 1];
      assert Twice(s1, ids[1..]);
      if t in s.tasks {
        FreeTimeVacant(s, t, nows[0]);
      }
      if t in s.tasks && t in ids[1..] {
        LeftBehind(s1, ids[1..], nows[1..], t, nows[0]);
      } else {
        TwiceBreaks(s1, ids[1..], nows[1..]);
      }
    }
  }

  /** A timely error keeps registry and list sound exactly when it meets no registered task twice. */
  lemma ErrorKeepsCoreIff(s: Sched, fd: int, nows: seq<Time>)
    requires Core(s) && Enabled(s, DoError(fd, nows)) && Timely(s, DoError(fd, nows)) && Increasing(nows)
    ensures Core(FdError(s, fd, nows)) <==> !MeetsTwice(s, DoError(fd, nows))
  {
    var ids, s1 := SearchAll(s.list.fds, fd), s.(list := EraseFd(s.list, s.tasks, fd));
    EraseFdKeepsCore(s, fd);
    if Twice(s, ids) {
      assert Twice(s1, ids);
      TwiceBreaks(s1, ids, nows);
    } else {
      FdErrorKeepsCore(s, fd, nows);
    }
  }

  /** A task that has been listed, run, and waits for writing. */
  function FirstWait(t: Tid, fd: int): Sched {
    Wait(Dispatch(Spawn(EMPTY, t, 1, 0, 0), 0), fd, Write, 1, 1)
  }

  /** Before the error of the descriptor: the second wait is on, the entry of the first is still there. */
  function TwoWaits(t: Tid, fd: int): Sched {
    Wait(Dispatch(FirstWait(t, fd), 2), fd, Read, 10, 3)
  }

  lemma OnlyTime(timed: map<Time, Entry>, time: Time)
    requires timed.Keys == {time}
    ensures timed != map[] && MinTime(timed.Keys) == time
  {
    assert time in timed;
  }

  lemma FirstWaitIs(t: Tid, fd: int)
    requires t != INVALID_TID && fd != NO_FD
    ensures var s := FirstWait(t, fd);
      && Core(s) && s.running == None && s.active && s.clock == 1 && s.list.fds == [FdEntry(fd, Write, t)]
      && s.tasks == map[t := Ctx(Paused, false, Nothing, 1, 2, 0)]
      && s.list.timed == map[2 := Entry(t, OnTimeout(t, fd, Write))]
  {
    var s1 := Spawn(EMPTY, t, 1, 0, 0);
    OnlyTime(s1.list.timed, 0);
    SpawnOk(EMPTY, t, 1, 0, 0);
    DispatchOk(s1, 0);
    var s2 := Dispatch(s1, 0);
    assert s2.list.timed == map[];
    WaitOk(s2, fd, Write, 1, 1);
  }

  lemma WriteEntryStays(w: FdEntry, r: FdEntry)
    requires w != r
    ensures WithoutKey([w], r) == [w]
  {
    assert [w][..0] == [] && WithoutKey([], r) == [];
    assert WithoutKey([w], r) == [] + [w];
  }

  lemma FirstTimeoutIs(t: Tid, fd: int)
    requires t != INVALID_TID && fd != NO_FD
    ensures CanDispatch(FirstWait(t, fd), 2) && Head(FirstWait(t, fd)).tid == t && t in FirstWait(t, fd).tasks
    ensures var s := Dispatch(FirstWait(t, fd), 2);
      && Core(s) && s.running == Some(t) && s.active && s.clock == 2 && s.list.fds == [FdEntry(fd, Write, t)]
      && s.tasks == map[t := Ctx(Running, false, Nothing, 1, 2, 0)] && s.list.timed == map[]
  {
    var s := FirstWait(t, fd);
    FirstWaitIs(t, fd);
    OnlyTime(s.list.timed, 2);
    DispatchOk(s, 2);
    WriteEntryStays(FdEntry(fd, Write, t), FdEntry(fd, Read, t));
    assert Dispatch(s, 2).list.timed == map[];
  }

  lemma TwoWaitsIs(t: Tid, fd: int)
    requires t != INVALID_TID && fd != NO_FD
    ensures var s := TwoWaits(t, fd);
      && Core(s) && s.tasks.Keys == {t} && s.running == None && s.active && s.clock == 3
      && s.list.timed.Keys == {s.tasks[t].fire}
      && s.list.fds == [FdEntry(fd, Write, t), FdEntry(fd, Read, t)]
  {
    FirstTimeoutIs(t, fd);
    SecondWaitIs(Dispatch(FirstWait(t, fd), 2), t, fd);
  }

  lemma SecondWaitIs(s: Sched, t: Tid, fd: int)
    requires Core(s) && s.running == Some(t) && s.active && s.clock == 2 && s.list.fds == [FdEntry(fd, Write, t)]
    requires s.tasks == map[t := Ctx(Running, false, Nothing, 1, 2, 0)] && s.list.timed == map[] && fd != NO_FD
    ensures var s1 := Wait(s, fd, Read, 10, 3);
      && Core(s1) && s1.tasks.Keys == {t} && s1.running == None && s1.active && s1.clock == 3
      && s1.list.timed.Keys == {s1.tasks[t].fire}
      && s1.list.fds == [FdEntry(fd, Write, t), FdEntry(fd, Read, t)]
  {
    WaitOk(s, fd, Read, 10, 3);
    assert Me(s) == s.tasks[t] && !Me(s).cancelled;
  }

  /**
    A task waits for writing, times out, and waits for reading on the same descriptor. An error of the
    descriptor then leaves it listed under the first clock reading with the second as its fire time.
   */
  lemma ErrorLeavesOldEntry(t: Tid, fd: int, a: Time, b: Time)
    requires t != INVALID_TID && fd != NO_FD && 3 <= a < b
    ensures var s := TwoWaits(t, fd);
      Core(s) && SearchAll(s.list.fds, fd) == [t, t] && MeetsTwice(s, DoError(fd, [a, b]))
      && Enabled(s, DoError(fd, [a, b]))
      && var s1 := FdError(s, fd, [a, b]);
         a in s1.list.timed && s1.list.timed[a].tid == t && t in s1.tasks && s1.tasks[t].fire == b
  {
    var s := TwoWaits(t, fd);
    TwoWaitsIs(t, fd);
    FoundTwice(FdEntry(fd, Write, t), FdEntry(fd, Read, t));
    var ids := SearchAll(s.list.fds, fd);
    assert ids[0] == ids[1] && Twice(s, ids);
    NowsOfTwo(3, a, b);
    var s0 := s.(list := EraseFd(s.list, s.tasks, fd));
    EraseFdKeepsCore(s, fd);
    LastUnlisted(s.list.timed, s.list.fds, s.tasks, s.list.fds[0]);
    TwoTurns(s0, t, a, b);
  }

  lemma LastUnlisted(timed: map<Time, Entry>, fds: seq<FdEntry>, tasks: map<Tid, Ctx>, e: FdEntry)
    requires e in fds && e.tid in tasks && timed.Keys == {tasks[e.tid].fire}
    ensures Unlist(timed, fds, tasks, e.fd) == map[]
  {
    UnlistOk(timed, fds, tasks, e.fd);
    var left := Unlist(timed, fds, tasks, e.fd);
    assert forall T :: T in left ==> T in timed.Keys;
    assert left.Keys == {};
  }

  lemma NowsOfTwo(clock: Time, a: Time, b: Time)
    requires clock <= a <= b
    ensures NowsFrom(clock, [a, b])
  {
    assert [a, b][1..] == [b] && [b][1..] == [];
    assert NowsFrom(b, []) && NowsFrom(a, [b]);
  }

  lemma TwoTurns(s: Sched, t: Tid, a: Time, b: Time)
    requires s.list.timed == map[] && t in s.tasks && a < b
    ensures var s1 := ErrorLoop(s, [t, t], [a, b]);
      a in s1.list.timed && s1.list.timed[a].tid == t && t in s1.tasks && s1.tasks[t].fire == b
  {
    var s1 := ErrorTurn(s, t, a);
    assert [t, t][1..] == [t] && [a, b][1..] == [b] && [t][1..] == [] && [b][1..] == [];
    assert ErrorLoop(s, [t, t], [a, b]) == ErrorLoop(s1, [t], [b]);
    assert ErrorLoop(s1, [t], [b]) == ErrorLoop(ErrorTurn(s1, t, b), [], []);
  }

  lemma FoundTwice(w: FdEntry, r: FdEntry)
    requires w.fd == r.fd && w.tid == r.tid && w.ev == Write && r.ev == Read
    ensures SearchAll([w, r], w.fd) == [w.tid, w.tid]
  {
    assert [w, r][..1] == [w] && [w][..0] == [];
    assert Search([], w.fd, Read) == [] && Search([], w.fd, Write) == [];
    assert Search([w], w.fd, Read) == [] && Search([w], w.fd, Write) == [] + [w.tid];
    assert Search([w, r], w.fd, Read) == [w.tid] && Search([w, r], w.fd, Write) == [w.tid];
  }
}
