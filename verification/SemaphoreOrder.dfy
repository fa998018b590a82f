/**
  The semaphore serves first come, first served: the order in which permits are granted is the order of
  the fetch calls in the run. The order is recorded from the steps of the run, not from the list of
  waiters that the semaphore keeps.
 */
module SemaphoreOrder {
  import opened Scheduler
  import opened SchedulerInvariant
  import opened SchedulerRuns
  import opened Semaphore

  /** The state after the first n steps. */
  ghost function StateAt(m: Sem, xs: seq<SemStep>, n: nat): Sem
    requires SemLegal(m, xs) && n <= |xs|
    decreases n
  {
    if n == 0 then m else StateAt(SemApply(m, xs[0]), xs[1..], n - 1)
  }

  lemma {:induction false} StateNext(m: Sem, xs: seq<SemStep>, n: nat)
    requires SemLegal(m, xs) && n < |xs|
    ensures SemEnabled(StateAt(m, xs, n), xs[n]) && Undisturbed(StateAt(m, xs, n), xs[n])
    ensures StateAt(m, xs, n + 1) == SemApply(StateAt(m, xs, n), xs[n])
    decreases n
  {
    if n > 0 {
      StateNext(SemApply(m, xs[0]), xs[1..], n - 1);
    }
  }

  /** Step n is a fetch by t that suspends it. */
  ghost predicate FetchesAt(m: Sem, xs: seq<SemStep>, n: nat, t: Tid)
    requires SemLegal(m, xs) && n < |xs|
  {
    && xs[n].DoFetch? && StateAt(m, xs, n).sch.running == Some(t) && StateAt(m, xs, n + 1).sch.running != Some(t)
  }

  /** Between its fetch at step i and step k the task is not granted and has not returned, and nobody cancels. */
  ghost predicate WaitsFrom(m: Sem, xs: seq<SemStep>, i: nat, k: nat, t: Tid)
    requires SemLegal(m, xs) && i < k <= |xs|
  {
    FetchesAt(m, xs, i, t) && t !in StateAt(m, xs, k).granted && Stays(m, xs, i, k, t)
  }

  ghost predicate Stays(m: Sem, xs: seq<SemStep>, i: nat, k: nat, t: Tid)
    requires SemLegal(m, xs) && k <= |xs|
  {
    forall n | i < n < k :: StaysAt(m, xs, n, t)
  }

  // ----- the recorded order -----

  function Removed(order: seq<Tid>, t: Tid): seq<Tid> {
    if order == [] then [] else if order[0] == t then order[1..] else [order[0]] + Removed(order[1..], t)
  }

  /** The suspended fetches in the order of their calls, after one more step. */
  ghost function Recorded(order: seq<Tid>, m: Sem, x: SemStep): seq<Tid>
    requires SemEnabled(m, x)
  {
    match x
    case DoFetch(_, _) =>
      if SemApply(m, x).sch.running == m.sch.running then order else order + [m.sch.running.value]
    case DoFetchReturn(_) => Removed(order, m.sch.running.value)
    case DoCancelAll(_) => []
    case _ => order
  }

  ghost function OrderAt(m: Sem, order: seq<Tid>, xs: seq<SemStep>, n: nat): seq<Tid>
    requires SemLegal(m, xs) && n <= |xs|
    decreases n
  {
    if n == 0 then order else OrderAt(SemApply(m, xs[0]), Recorded(order, m, xs[0]), xs[1..], n - 1)
  }

  lemma {:induction false} OrderNext(m: Sem, order: seq<Tid>, xs: seq<SemStep>, n: nat)
    requires SemLegal(m, xs) && n < |xs|
    ensures SemEnabled(StateAt(m, xs, n), xs[n])
    ensures OrderAt(m, order, xs, n + 1) == Recorded(OrderAt(m, order, xs, n), StateAt(m, xs, n), xs[n])
    decreases n
  {
    StateNext(m, xs, n);
    if n > 0 {
      OrderNext(SemApply(m, xs[0]), Recorded(order, m, xs[0]), xs[1..], n - 1);
    }
  }

  function Ungranted(order: seq<Tid>, granted: set<Tid>): seq<Tid> {
    if order == [] then []
    else (if order[0] in granted then [] else [order[0]]) + Ungranted(order[1..], granted)
  }

  /** The waiters are the recorded fetches without those that have a permit. */
  ghost predicate Served(m: Sem, order: seq<Tid>) {
    && NoDup(order) && (forall t | t in order :: t in m.inFetch)
    && m.waiters == Ungranted(order, m.granted)
  }

  // ----- lists -----

  lemma {:induction false} UngrantedHolds(order: seq<Tid>, granted: set<Tid>)
    ensures forall t :: t in Ungranted(order, granted) <==> t in order && t !in granted
  {
    if order != [] {
      UngrantedHolds(order[1..], granted);
      assert order == [order[0]] + order[1..];
    }
  }

  lemma {:induction false} UngrantedLonger(order: seq<Tid>, granted: set<Tid>, t: Tid)
    requires t !in granted
    ensures Ungranted(order + [t], granted) == Ungranted(order, granted) + [t]
  {
    if order == [] {
      assert [t][1..] == [] && [] + [t] == [t];
      assert Ungranted([t], granted) == [t] + Ungranted([t][1..], granted);
    } else {
      assert (order + [t])[1..] == order[1..] + [t];
      UngrantedLonger(order[1..], granted, t);
    }
  }

  lemma {:induction false} UngrantedSame(order: seq<Tid>, g: set<Tid>, h: set<Tid>)
    requires forall k | 0 <= k < |order| :: (order[k] in g <==> order[k] in h)
    ensures Ungranted(order, g) == Ungranted(order, h)
  {
    if order != [] {
      forall k | 0 <= k < |order[1..]|
        ensures order[1..][k] in g <==> order[1..][k] in h
      {
        assert order[1..][k] == order[k + 1];
      }
      UngrantedSame(order[1..], g, h);
    }
  }

  lemma RestIsNoDup(order: seq<Tid>)
    requires NoDup(order) && order != []
    ensures NoDup(order[1..]) && order[0] !in order[1..]
  {
    forall k | 0 <= k < |order[1..]|
      ensures order[1..][k] != order[0]
    {
      assert order[1..][k] == order[k + 1];
    }
  }

  lemma {:induction false} RemovedHolds(order: seq<Tid>, t: Tid)
    requires NoDup(order)
    ensures NoDup(Removed(order, t)) && forall u :: u in Removed(order, t) <==> u in order && u != t
  {
    if order != [] {
      RestIsNoDup(order);
      assert order == [order[0]] + order[1..];
      if order[0] != t {
        RemovedHolds(order[1..], t);
      }
    }
  }

  lemma {:induction false} UngrantedRemoved(order: seq<Tid>, g: set<Tid>, t: Tid)
    requires NoDup(order)
    ensures Ungranted(Removed(order, t), g - {t}) == RemoveFirst(Ungranted(order, g), t)
  {
    if order != [] {
      RestIsNoDup(order);
      if order[0] == t {
        assert forall u | u in order[1..] :: u != t;
        UngrantedSame(order[1..], g, g - {t});
        UngrantedHolds(order[1..], g);
        RemoveMissing(Ungranted(order[1..], g), t);
        var rest := Ungranted(order[1..], g);
        assert Ungranted(order, g) == (if t in g then [] else [t]) + rest;
        assert ([t] + rest)[1..] == rest && [] + rest == rest;
      } else {
        UngrantedRemoved(order[1..], g, t);
        var rest := Ungranted(order[1..], g);
        var first := if order[0] in g then [] else [order[0]];
        assert Ungranted(order, g) == first + rest;
        assert Removed(order, t)[1..] == Removed(order[1..], t);
        assert Ungranted(Removed(order, t), g - {t}) == first + RemoveFirst(rest, t);
        assert [] + rest == rest && ([order[0]] + rest)[1..] == rest;
        assert [] + RemoveFirst(rest, t) == RemoveFirst(rest, t);
      }
    }
  }

  lemma {:induction false} RemoveMissing(s: seq<Tid>, t: Tid)
    requires t !in s
    ensures RemoveFirst(s, t) == s
  {
    if s != [] {
      RemoveMissing(s[1..], t);
    }
  }

  /** Granting the first one takes it off the front. */
  lemma {:induction false} UngrantedFirst(order: seq<Tid>, g: set<Tid>)
    requires NoDup(order) && Ungranted(order, g) != []
    ensures var t := Ungranted(order, g)[0]; Ungranted(order, g + {t}) == Ungranted(order, g)[1..]
  {
    RestIsNoDup(order);
    var rest := Ungranted(order[1..], g);
    if order[0] in g {
      UngrantedFirst(order[1..], g);
    } else {
      assert ([order[0]] + rest)[1..] == rest;
      UngrantedSame(order[1..], g, g + {order[0]});
    }
  }

  // ----- steps keep the order -----

  lemma FetchServed(m: Sem, order: seq<Tid>, x: SemStep)
    requires SemInv(m) && SemEnabled(m, x) && Served(m, order) && x.DoFetch?
    ensures Served(SemApply(m, x), Recorded(order, m, x))
  {
    var t := m.sch.running.value;
    if m.count == 0 && !Me(m.sch).cancelled {
      assert t !in order && t !in m.granted;
      UngrantedLonger(order, m.granted, t);
      assert NoDup(order + [t]);
    } else if m.count == 0 {
      assert t !in m.waiters;
      RemoveLast(m.waiters, t);
    }
  }

  lemma ReturnServed(m: Sem, order: seq<Tid>, x: SemStep)
    requires SemInv(m) && SemEnabled(m, x) && Served(m, order) && x.DoFetchReturn?
    ensures Served(SemApply(m, x), Recorded(order, m, x))
  {
    var t := m.sch.running.value;
    RemovedHolds(order, t);
    UngrantedRemoved(order, m.granted, t);
  }

  lemma GiveServed(m: Sem, order: seq<Tid>, x: SemStep)
    requires SemInv(m) && SemEnabled(m, x) && Served(m, order) && x.DoGive?
    ensures Served(SemApply(m, x), Recorded(order, m, x))
  {
    if m.waiters != [] {
      GiveWakesTheFirst(m, x.now);
      UngrantedFirst(order, m.granted);
    }
  }

  lemma StepServed(m: Sem, order: seq<Tid>, x: SemStep)
    requires SemInv(m) && SemEnabled(m, x) && Served(m, order)
    ensures Served(SemApply(m, x), Recorded(order, m, x))
  {
    match x
    case DoFetch(_, _) => FetchServed(m, order, x);
    case DoFetchReturn(_) => ReturnServed(m, order, x);
    case DoGive(_) => GiveServed(m, order, x);
    case DoCancelAll(_) =>
    case Other(_) =>
  }

  lemma {:induction false} RunServed(m: Sem, order: seq<Tid>, xs: seq<SemStep>, n: nat)
    requires SemInv(m) && SemLegal(m, xs) && Served(m, order) && n <= |xs|
    ensures SemInv(StateAt(m, xs, n)) && Served(StateAt(m, xs, n), OrderAt(m, order, xs, n))
    decreases n
  {
    if n > 0 {
      SemStepIff(m, xs[0]);
      StepServed(m, order, xs[0]);
      RunServed(SemApply(m, xs[0]), Recorded(order, m, xs[0]), xs[1..], n - 1);
    }
  }

  // ----- who came first -----

  ghost predicate Before(order: seq<Tid>, t: Tid, u: Tid) {
    exists i, j :: 0 <= i < j < |order| && order[i] == t && order[j] == u
  }

  lemma {:induction false} RemovedBefore(order: seq<Tid>, v: Tid, t: Tid, u: Tid)
    requires NoDup(order) && Before(order, t, u) && v != t && v != u
    ensures Before(Removed(order, v), t, u)
  {
    var i, j :| 0 <= i < j < |order| && order[i] == t && order[j] == u;
    RestIsNoDup(order);
    if order[0] == v {
      assert order[1..][i - 1] == t && order[1..][j - 1] == u;
    } else {
      RemovedHolds(order[1..], v);
      var rest := Removed(order[1..], v);
      if i == 0 {
        assert order[1..][j - 1] == u;
        assert u in order[1..] && u in rest;
        var k :| 0 <= k < |rest| && rest[k] == u;
        assert ([t] + rest)[0] == t && ([t] + rest)[k + 1] == u;
      } else {
        assert order[1..][i - 1] == t && order[1..][j - 1] == u;
        RemovedBefore(order[1..], v, t, u);
        var a, b :| 0 <= a < b < |rest| && rest[a] == t && rest[b] == u;
        assert ([order[0]] + rest)[a + 1] == t && ([order[0]] + rest)[b + 1] == u;
      }
    }
  }

  lemma BeforeStays(m: Sem, order: seq<Tid>, x: SemStep, t: Tid, u: Tid)
    requires SemEnabled(m, x) && NoDup(order) && Before(order, t, u) && !x.DoCancelAll?
    requires x.DoFetchReturn? ==> m.sch.running != Some(t) && m.sch.running != Some(u)
    ensures Before(Recorded(order, m, x), t, u)
  {
    var i, j :| 0 <= i < j < |order| && order[i] == t && order[j] == u;
    var after := Recorded(order, m, x);
    if x.DoFetchReturn? {
      RemovedBefore(order, m.sch.running.value, t, u);
    } else {
      assert after[i] == t && after[j] == u;
    }
  }

  lemma LastIsAfter(order: seq<Tid>, t: Tid, u: Tid)
    requires t in order
    ensures Before(order + [u], t, u)
  {
    var a :| 0 <= a < |order| && order[a] == t;
    assert (order + [u])[a] == t && (order + [u])[|order|] == u;
  }

  lemma {:induction false} FirstIsBefore(order: seq<Tid>, g: set<Tid>, t: Tid, u: Tid)
    requires NoDup(order) && Before(order, t, u) && t !in g
    ensures Ungranted(order, g) != [] && Ungranted(order, g)[0] != u
  {
    var i, j :| 0 <= i < j < |order| && order[i] == t && order[j] == u;
    RestIsNoDup(order);
    if order[0] in g {
      assert order[1..][i - 1] == t && order[1..][j - 1] == u;
      FirstIsBefore(order[1..], g, t, u);
    }
  }

  lemma FetchIsRecorded(m: Sem, order: seq<Tid>, xs: seq<SemStep>, n: nat, t: Tid)
    requires SemLegal(m, xs) && n < |xs| && FetchesAt(m, xs, n, t)
    ensures OrderAt(m, order, xs, n + 1) == OrderAt(m, order, xs, n) + [t]
  {
    OrderNext(m, order, xs, n);
    StateNext(m, xs, n);
  }

  lemma StepKeepsRecorded(m: Sem, order: seq<Tid>, x: SemStep, t: Tid)
    requires SemEnabled(m, x) && NoDup(order) && t in order && !x.DoCancelAll?
    requires x.DoFetchReturn? ==> m.sch.running != Some(t)
    ensures t in Recorded(order, m, x)
  {
    if x.DoFetchReturn? {
      RemovedHolds(order, m.sch.running.value);
    }
  }

  /** Step n neither cancels all nor ends the fetch of t. */
  ghost predicate StaysAt(m: Sem, xs: seq<SemStep>, n: nat, t: Tid)
    requires SemLegal(m, xs) && n < |xs|
  {
    !xs[n].DoCancelAll? && !(xs[n].DoFetchReturn? && StateAt(m, xs, n).sch.running == Some(t))
  }

  lemma RecordedStep(m: Sem, order: seq<Tid>, xs: seq<SemStep>, n: nat, t: Tid, u: Tid)
    requires SemInv(m) && SemLegal(m, xs) && Served(m, order) && n < |xs| && StaysAt(m, xs, n, t)
    ensures t in OrderAt(m, order, xs, n) ==> t in OrderAt(m, order, xs, n + 1)
    ensures Before(OrderAt(m, order, xs, n), t, u) && StaysAt(m, xs, n, u) ==> Before(OrderAt(m, order, xs, n + 1), t, u)
  {
    OrderNext(m, order, xs, n);
    RunServed(m, order, xs, n);
    var m1, o := StateAt(m, xs, n), OrderAt(m, order, xs, n);
    if t in o {
      StepKeepsRecorded(m1, o, xs[n], t);
    }
    if Before(o, t, u) && StaysAt(m, xs, n, u) {
      BeforeStays(m1, o, xs[n], t, u);
    }
  }

  /** From its fetch on, as long as it waits, a task is in the order. */
  lemma {:induction false} StaysRecorded(m: Sem, order: seq<Tid>, xs: seq<SemStep>, i: nat, k: nat, t: Tid)
    requires SemInv(m) && SemLegal(m, xs) && Served(m, order) && i < k <= |xs|
    requires FetchesAt(m, xs, i, t) && Stays(m, xs, i, k, t)
    ensures t in OrderAt(m, order, xs, k)
    decreases k
  {
    if k == i + 1 {
      FetchIsRecorded(m, order, xs, i, t);
    } else {
      assert StaysAt(m, xs, k - 1, t);
      StaysRecorded(m, order, xs, i, k - 1, t);
      RecordedStep(m, order, xs, k - 1, t, t);
    }
  }

  lemma {:induction false} StaysBefore(m: Sem, order: seq<Tid>, xs: seq<SemStep>, i: nat, j: nat, k: nat, t: Tid, u: Tid)
    requires SemInv(m) && SemLegal(m, xs) && Served(m, order) && i < j < k <= |xs|
    requires FetchesAt(m, xs, i, t) && FetchesAt(m, xs, j, u) && Stays(m, xs, i, k, t) && Stays(m, xs, j, k, u)
    ensures Before(OrderAt(m, order, xs, k), t, u)
    decreases k
  {
    if k == j + 1 {
      StaysRecorded(m, order, xs, i, j, t);
      FetchIsRecorded(m, order, xs, j, u);
      LastIsAfter(OrderAt(m, order, xs, j), t, u);
    } else {
      assert StaysAt(m, xs, k - 1, t) && StaysAt(m, xs, k - 1, u);
      StaysBefore(m, order, xs, i, j, k - 1, t, u);
      RecordedStep(m, order, xs, k - 1, t, u);
    }
  }

  /**
    First come, first served, over every undisturbed run: when the fetch of t came before that of u and
    both wait, a give grants some waiting task its permit, and it is not u.
   */
  lemma FirstComeFirstServed(sch: Sched, init: nat, xs: seq<SemStep>, i: nat, j: nat, k: nat, t: Tid, u: Tid)
    requires Core(sch) && init < WIDTH && SemLegal(NewSem(sch, init), xs) && i < j < k < |xs|
    requires WaitsFrom(NewSem(sch, init), xs, i, k, t) && WaitsFrom(NewSem(sch, init), xs, j, k, u)
    requires xs[k].DoGive?
    ensures var m, m1 := StateAt(NewSem(sch, init), xs, k), StateAt(NewSem(sch, init), xs, k + 1);
      u !in m1.granted && exists v :: v in m1.granted && v !in m.granted
  {
    var m0 := NewSem(sch, init);
    RunServed(m0, [], xs, k);
    StateNext(m0, xs, k);
    StaysBefore(m0, [], xs, i, j, k, t, u);
    var m, order := StateAt(m0, xs, k), OrderAt(m0, [], xs, k);
    FirstIsBefore(order, m.granted, t, u);
    GiveWakesTheFirst(m, xs[k].now);
    var v := m.waiters[0];
    assert v in m.waiters && v !in m.granted;
  }

  /** A give with a fetch that waits grants a permit, so none is counted past a waiting task. */
  lemma GiveGrants(sch: Sched, init: nat, xs: seq<SemStep>, i: nat, k: nat, t: Tid)
    requires Core(sch) && init < WIDTH && SemLegal(NewSem(sch, init), xs) && i < k < |xs|
    requires WaitsFrom(NewSem(sch, init), xs, i, k, t) && xs[k].DoGive?
    ensures var m, m1 := StateAt(NewSem(sch, init), xs, k), StateAt(NewSem(sch, init), xs, k + 1);
      m1.count == m.count == 0 && exists v :: v in m1.granted && v !in m.granted
  {
    var m0 := NewSem(sch, init);
    RunServed(m0, [], xs, k);
    StateNext(m0, xs, k);
    StaysRecorded(m0, [], xs, i, k, t);
    var m, order := StateAt(m0, xs, k), OrderAt(m0, [], xs, k);
    UngrantedHolds(order, m.granted);
    GiveWakesTheFirst(m, xs[k].now);
    var v := m.waiters[0];
    assert v in m.waiters && v !in m.granted;
  }

  // ----- how a fetch ends without a permit -----

  /**
    A fetch with a timeout that suspends is listed for the end of its time, so that it resumes then;
    one without is held. Neither has a permit yet.
   */
  lemma FetchSuspendsUntil(m: Sem, timeout: Option<int>, now: Time)
    requires SemInv(m) && SemEnabled(m, DoFetch(timeout, now)) && m.count == 0 && !Me(m.sch).cancelled
    ensures var t, m1 := m.sch.running.value, Fetch(m, timeout, now);
      && m1.sch.running == None && t in m1.inFetch && t !in m1.granted && t in m1.sch.tasks
      && (timeout.None? ==> Held(m1.sch, t))
      && (timeout.Some? ==> Listed(m1.sch, t) && m1.sch.tasks[t].fire == now + timeout.value)
  {
    var t := m.sch.running.value;
    assert TaskOk(m.sch, t);
    ParkedOk(m.sch);
    if timeout.Some? {
      FreeTimeVacant(Parked(m.sch), t, now + timeout.value);
    }
  }

  lemma {:induction false} WokenIsListed(s: Sched, ids: seq<Tid>, nows: seq<Time>, t: Tid)
    requires Core(s) && |nows| == |ids| && WakeAllTimely(s, ids, nows) && t in s.tasks
    requires s.running != Some(t) && (t in ids || Listed(s, t))
    requires s.tasks[t].signal == Nothing || t in ids
    ensures var s1 := WakeAll(s, ids, nows);
      t in s1.tasks && Listed(s1, t) && s1.tasks[t].signal == Nothing && s1.running == s.running
    decreases |ids|
  {
    if ids != [] {
      var s1 := Scheduler.Wakeup(s, ids[0], Nothing, nows[0]);
      WakeupOk(s, ids[0], Nothing, nows[0]);
      ListedIsOccupied(s, t);
      if ids[0] != t {
        StepFrame(s, DoWakeup(ids[0], Nothing, nows[0]), t);
        assert ids == [ids[0]] + ids[1..];
      }
      WokenIsListed(s1, ids[1..], nows[1..], t);
    }
  }

  /** Cancel wakes every task that waits, with Nothing, so that its fetch returns false. */
  lemma CancelWakesAll(m: Sem, nows: seq<Time>, t: Tid)
    requires SemInv(m) && SemEnabled(m, DoCancelAll(nows)) && t in m.waiters && m.sch.running != Some(t)
    ensures var m1 := CancelAll(m, nows);
      && m1.waiters == [] && m1.count == m.count && t in m1.sch.tasks && t in m1.inFetch && t !in m1.granted
      && Listed(m1.sch, t) && m1.sch.tasks[t].signal == Nothing
  {
    assert InFetchOk(m.sch, t, t in m.granted);
    WokenIsListed(m.sch, m.waiters, nows, t);
  }
}
