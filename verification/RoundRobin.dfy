/**
  Among tasks that are ready at once and only yield or return, the time-ordered list is a queue: with
  a strictly increasing clock every round dispatches each of them once, in the same order.
 */
module RoundRobin {
  import opened Scheduler
  import opened SchedulerInvariant

  /** One turn of the loop: a dispatch, then the worker yields or returns for the last time. */
  datatype Turn = Turn(finish: bool, start: Time, end: Time)

  /** Due, in the list, and waiting for nothing but its time. */
  predicate Ready(s: Sched, t: Tid) {
    && Listed(s, t) && s.list.timed[s.tasks[t].fire].handler == NoHandler && s.tasks[t].fire <= s.clock
  }

  predicate FiresBefore(s: Sched, t: Tid, u: Tid) {
    t in s.tasks && u in s.tasks && s.tasks[t].fire < s.tasks[u].fire
  }

  /** The tasks of `q` are ready, in fire order; whatever else is listed fires after `horizon`. */
  ghost predicate QueueOf(s: Sched, q: seq<Tid>, horizon: Time) {
    && (forall i | 0 <= i < |q| :: Ready(s, q[i]))
    && (forall i, j | 0 <= i < j < |q| :: FiresBefore(s, q[i], q[j]))
    && (forall T | T in s.list.timed :: s.list.timed[T].tid in q || T > horizon)
  }

  predicate TurnEnabled(s: Sched, turn: Turn) {
    && CanDispatch(s, turn.start) && Head(s).tid in s.tasks && s.clock < turn.start < turn.end
    && (turn.finish ==> LastRun(s.tasks[Head(s).tid]))
  }

  function AfterTurn(s: Sched, turn: Turn): Sched
    requires TurnEnabled(s, turn)
  {
    var s1 := Dispatch(s, turn.start);
    if turn.finish then Finish(s1, turn.end) else Yield(s1, turn.end)
  }

  lemma HeadOfQueue(s: Sched, q: seq<Tid>, horizon: Time, now: Time)
    requires Core(s) && s.running == None && QueueOf(s, q, horizon) && q != [] && s.clock <= now && s.clock <= horizon
    ensures CanDispatch(s, now) && Head(s).tid == q[0] && q[0] in s.tasks
  {
    assert Ready(s, q[0]);
    assert s.tasks[q[0]].fire in s.list.timed.Keys;
    var T := Nearest(s.list);
    assert T <= s.tasks[q[0]].fire;
    assert s.list.timed[T].tid in q && s.tasks[s.list.timed[T].tid].fire == T;
    var i :| 0 <= i < |q| && q[i] == s.list.timed[T].tid;
    assert i > 0 ==> FiresBefore(s, q[0], q[i]);
  }

  /** What is registered and not asleep is due. */
  lemma DueOrAsleep(s: Sched, q: seq<Tid>, horizon: Time, t: Tid)
    requires Core(s) && QueueOf(s, q, horizon) && t in s.tasks
    ensures s.tasks[t].fire <= s.clock || s.tasks[t].fire > horizon
  {
    assert TaskOk(s, t);
    if Listed(s, t) && s.tasks[t].fire <= horizon {
      assert s.list.timed[s.tasks[t].fire].tid in q;
      var i :| 0 <= i < |q| && q[i] == t;
      assert Ready(s, q[i]);
    }
  }

  lemma DispatchQueued(s: Sched, q: seq<Tid>, horizon: Time, now: Time)
    requires Core(s) && s.running == None && QueueOf(s, q, horizon) && q != [] && s.clock <= now && s.clock <= horizon
    ensures CanDispatch(s, now) && Head(s).tid == q[0] && q[0] in s.tasks
    ensures var s1 := Dispatch(s, now);
      && Core(s1) && s1.running == Some(q[0]) && QueueOf(s1, q[1..], horizon) && s1.clock == now
      && s1.tasks == s.tasks[q[0] := s.tasks[q[0]].(status := Running)]
  {
    HeadOfQueue(s, q, horizon, now);
    DispatchOk(s, now);
    DispatchTakesOut(s, now);
    assert Ready(s, q[0]);
    RestOfQueue(s, q, horizon, Dispatch(s, now));
  }

  lemma RestOfQueue(s: Sched, q: seq<Tid>, horizon: Time, s1: Sched)
    requires Core(s) && QueueOf(s, q, horizon) && q != [] && q[0] in s.tasks && s.clock <= s1.clock
    requires s1.tasks == s.tasks[q[0] := s.tasks[q[0]].(status := Running)]
    requires s1.list.timed == Remove(s.list.timed, s.tasks[q[0]].fire)
    ensures QueueOf(s1, q[1..], horizon)
  {
    var rest := q[1..];
    forall i | 0 <= i < |rest|
      ensures rest[i] == q[i + 1] && Ready(s1, rest[i]) && rest[i] != q[0]
    {
      assert FiresBefore(s, q[0], q[i + 1]) && Ready(s, q[i + 1]);
    }
    forall i, j | 0 <= i < j < |rest|
      ensures FiresBefore(s1, rest[i], rest[j])
    {
      assert FiresBefore(s, q[i + 1], q[j + 1]);
    }
    forall T | T in s1.list.timed
      ensures s1.list.timed[T].tid in rest || T > horizon
    {
      assert s.tasks[s.list.timed[T].tid].fire == T;
      assert q == [q[0]] + rest;
    }
  }

  lemma FinishQueued(s: Sched, q: seq<Tid>, horizon: Time, now: Time)
    requires Core(s) && HasRunning(s) && QueueOf(s, q, horizon) && s.clock <= now && LastRun(Me(s))
    ensures var s1 := Finish(s, now);
      Core(s1) && s1.running == None && QueueOf(s1, q, horizon) && s1.clock == now
  {
    var s1 := Finish(s, now);
    FinishOk(s, now);
    assert TaskOk(s, s.running.value);
    forall i | 0 <= i < |q|
      ensures Ready(s1, q[i])
    {
      assert Ready(s, q[i]);
    }
    forall i, j | 0 <= i < j < |q|
      ensures FiresBefore(s1, q[i], q[j])
    {
      assert FiresBefore(s, q[i], q[j]) && Ready(s, q[i]) && Ready(s, q[j]);
    }
  }

  lemma YieldQueued(s: Sched, q: seq<Tid>, horizon: Time, now: Time)
    requires Core(s) && HasRunning(s) && QueueOf(s, q, horizon) && s.clock < now <= horizon
    ensures var s1 := Yield(s, now);
      Core(s1) && s1.running == None && QueueOf(s1, q + [s.running.value], horizon) && s1.clock == now
  {
    var t, s1 := s.running.value, Yield(s, now);
    forall u | u in s.tasks
      ensures s.tasks[u].fire != now
    {
      DueOrAsleep(s, q, horizon, u);
    }
    SuspendOk(s, Me(s).(fire := now), NoHandler, NO_FD, Read, now);
    assert TaskOk(s, t);
    assert now !in s.list.timed;
    LongerQueue(s, q, horizon, t, s1, now);
  }

  lemma LongerQueue(s: Sched, q: seq<Tid>, horizon: Time, t: Tid, s1: Sched, now: Time)
    requires QueueOf(s, q, horizon) && t in s.tasks && !Listed(s, t) && s.clock < now == s1.clock
    requires t in s1.tasks && s1.tasks[t].fire == now && s1.tasks == s.tasks[t := s1.tasks[t]]
    requires now !in s.list.timed && s1.list.timed == s.list.timed[now := Entry(t, NoHandler)]
    ensures QueueOf(s1, q + [t], horizon)
  {
    var longer := q + [t];
    forall i | 0 <= i < |longer|
      ensures Ready(s1, longer[i])
    {
      if i < |q| {
        assert Ready(s, q[i]);
      }
    }
    forall i, j | 0 <= i < j < |longer|
      ensures FiresBefore(s1, longer[i], longer[j])
    {
      assert Ready(s, q[i]);
      if j < |q| {
        assert FiresBefore(s, q[i], q[j]) && Ready(s, q[j]);
      }
    }
    forall T | T in s1.list.timed
      ensures s1.list.timed[T].tid in longer || T > horizon
    {
      assert longer[|q|] == t;
    }
  }

  ghost predicate InRound(s: Sched, q: seq<Tid>, horizon: Time) {
    Core(s) && s.running == None && QueueOf(s, q, horizon) && s.clock <= horizon
  }

  function Requeued(t: Tid, turn: Turn): seq<Tid> {
    if turn.finish then [] else [t]
  }

  lemma TurnRotates(s: Sched, q: seq<Tid>, horizon: Time, turn: Turn, q1: seq<Tid>)
    requires InRound(s, q, horizon) && q != [] && TurnEnabled(s, turn) && turn.end <= horizon
    requires q1 == q[1..] + Requeued(q[0], turn)
    ensures Head(s).tid == q[0]
    ensures InRound(AfterTurn(s, turn), q1, horizon)
  {
    DispatchQueued(s, q, horizon, turn.start);
    var s1 := Dispatch(s, turn.start);
    if turn.finish {
      FinishQueued(s1, q[1..], horizon, turn.end);
      assert q1 == q[1..];
    } else {
      YieldQueued(s1, q[1..], horizon, turn.end);
    }
  }

  predicate TurnStep(s: Sched, turn: Turn, s1: Sched, horizon: Time) {
    TurnEnabled(s, turn) && turn.end <= horizon && s1 == AfterTurn(s, turn)
  }

  /** `states` are the states before, between and after the turns, the last of which ends by `horizon`. */
  ghost predicate Turns(states: seq<Sched>, turns: seq<Turn>, horizon: Time) {
    |states| == |turns| + 1 && forall k | 0 <= k < |turns| :: TurnStep(states[k], turns[k], states[k + 1], horizon)
  }

  /** Those among the first tasks that yielded in their turn. */
  function Survivors(q: seq<Tid>, turns: seq<Turn>, k: nat): seq<Tid>
    requires k <= |q| == |turns|
  {
    if k == 0 then [] else Survivors(q, turns, k - 1) + Requeued(q[k - 1], turns[k - 1])
  }

  function QueueAfter(q: seq<Tid>, turns: seq<Turn>, k: nat): seq<Tid>
    requires k <= |q| == |turns|
  {
    q[k..] + Survivors(q, turns, k)
  }

  lemma Rotation(q: seq<Tid>, turns: seq<Turn>, k: nat)
    requires 0 < k <= |q| == |turns|
    ensures var before := QueueAfter(q, turns, k - 1);
      before != [] && QueueAfter(q, turns, k) == before[1..] + Requeued(before[0], turns[k - 1])
  {
    assert QueueAfter(q, turns, k - 1)[1..] == q[k..] + Survivors(q, turns, k - 1);
  }

  lemma StepRotates(s: Sched, turn: Turn, s1: Sched, before: seq<Tid>, after: seq<Tid>, horizon: Time)
    requires InRound(s, before, horizon) && before != [] && TurnStep(s, turn, s1, horizon)
    requires after == before[1..] + Requeued(before[0], turn)
    ensures InRound(s1, after, horizon)
  {
    TurnRotates(s, before, horizon, turn, after);
  }

  lemma {:induction false} RoundUpTo(states: seq<Sched>, q: seq<Tid>, horizon: Time, turns: seq<Turn>, k: nat)
    requires k <= |q| == |turns| && Turns(states, turns, horizon) && InRound(states[0], q, horizon)
    ensures InRound(states[k], QueueAfter(q, turns, k), horizon)
  {
    if k == 0 {
      assert QueueAfter(q, turns, 0) == q;
    } else {
      RoundUpTo(states, q, horizon, turns, k - 1);
      Rotation(q, turns, k);
      assert TurnStep(states[k - 1], turns[k - 1], states[k], horizon);
      StepRotates(states[k - 1], turns[k - 1], states[k], QueueAfter(q, turns, k - 1), QueueAfter(q, turns, k), horizon);
    }
  }

  /**
    Strict round robin: as many turns as there are ready tasks dispatch each of them exactly once, in
    list order, and leave those that yielded queued in that order for the next round.
   */
  lemma RoundRobin(states: seq<Sched>, q: seq<Tid>, horizon: Time, turns: seq<Turn>)
    requires |q| == |turns| && Turns(states, turns, horizon) && InRound(states[0], q, horizon)
    ensures forall i | 0 <= i < |q| :: states[i].list.timed != map[] && Head(states[i]).tid == q[i]
    ensures NoDup(q)
    ensures InRound(states[|q|], Survivors(q, turns, |q|), horizon)
  {
    forall i | 0 <= i < |q|
      ensures states[i].list.timed != map[] && Head(states[i]).tid == q[i]
    {
      RoundUpTo(states, q, horizon, turns, i);
      HeadOfQueue(states[i], QueueAfter(q, turns, i), horizon, states[i].clock);
    }
    RoundUpTo(states, q, horizon, turns, |q|);
    assert QueueAfter(q, turns, |q|) == Survivors(q, turns, |q|);
    forall i, j | 0 <= i < j < |q|
      ensures q[i] != q[j]
    {
      assert FiresBefore(states[0], q[i], q[j]);
    }
  }
}
