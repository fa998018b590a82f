/**
  In which order the jobs of a task queue start. The jobs that have not started are recorded from the
  steps of the run in two lists: those that were inserted, and those that were appended, each in the
  order of the calls. The next job is always the last inserted one, or, when there is none, the first
  appended one.
 */
module TaskQueueOrder {
  import opened Scheduler
  import opened SchedulerInvariant
  import opened SchedulerLife
  import opened Semaphore
  import opened TaskQueue

  datatype Waiting = Waiting(inserted: seq<Job>, appended: seq<Job>)

  /** The step begins a job. */
  ghost predicate Begins(q: Queue, x: QueueStep)
    requires QueueEnabled(q, x)
  {
    |QueueApply(q, x).started| > |q.started|
  }

  ghost function Recorded(w: Waiting, q: Queue, x: QueueStep): Waiting
    requires QueueEnabled(q, x)
  {
    if x.DoAppend? then w.(appended := w.appended + [x.job])
    else if x.DoInsert? then w.(inserted := w.inserted + [x.job])
    else if !Begins(q, x) then w
    else if w.inserted != [] then w.(inserted := w.inserted[..|w.inserted| - 1])
    else if w.appended != [] then w.(appended := w.appended[1..])
    else w
  }

  ghost function RecordedRun(w: Waiting, q: Queue, xs: seq<QueueStep>): Waiting
    requires QueueEnabledRun(q, xs)
    decreases |xs|
  {
    if xs == [] then w else RecordedRun(Recorded(w, q, xs[0]), QueueApply(q, xs[0]), xs[1..])
  }

  function LastFirst(jobs: seq<Job>): seq<Job> {
    if jobs == [] then [] else [jobs[|jobs| - 1]] + LastFirst(jobs[..|jobs| - 1])
  }

  /** The pending list: what was inserted, the last first, before what was appended. */
  ghost predicate Lines(q: Queue, w: Waiting) {
    q.pending == LastFirst(w.inserted) + w.appended
  }

  lemma LastFirstMore(jobs: seq<Job>, job: Job)
    ensures LastFirst(jobs + [job]) == [job] + LastFirst(jobs)
  {
    assert (jobs + [job])[..|jobs|] == jobs;
  }

  lemma StepLines(q: Queue, w: Waiting, x: QueueStep)
    requires QueueEnabled(q, x) && Lines(q, w)
    ensures Lines(QueueApply(q, x), Recorded(w, q, x))
  {
    var q1, w1 := QueueApply(q, x), Recorded(w, q, x);
    if x.DoAppend? {
      assert q1.pending == LastFirst(w.inserted) + (w.appended + [x.job]);
    } else if x.DoInsert? {
      LastFirstMore(w.inserted, x.job);
      assert q1.pending == [x.job] + LastFirst(w.inserted) + w.appended;
    } else if Begins(q, x) {
      assert q1.pending == q.pending[1..] && q.pending != [];
      if w.inserted != [] {
        var rest := LastFirst(w.inserted[..|w.inserted| - 1]);
        assert ([w.inserted[|w.inserted| - 1]] + rest + w.appended)[1..] == rest + w.appended;
      }
    } else {
      assert q1.pending == q.pending;
    }
  }

  lemma {:induction false} RunLines(q: Queue, w: Waiting, xs: seq<QueueStep>)
    requires QueueEnabledRun(q, xs) && Lines(q, w)
    ensures Lines(QueueRun(q, xs), RecordedRun(w, q, xs))
    decreases |xs|
  {
    if xs != [] {
      StepLines(q, w, xs[0]);
      RunLines(QueueApply(q, xs[0]), Recorded(w, q, xs[0]), xs[1..]);
    }
  }

  /**
    In every run, with inserts and appends: a step that begins a job begins the last inserted one that
    has not started, and if there is none, the first appended one.
   */
  lemma NextJobStarted(sch: Sched, worker: Tid, xs: seq<QueueStep>, x: QueueStep)
    requires QueueEnabledRun(NewQueue(sch, worker), xs)
    requires QueueEnabled(QueueRun(NewQueue(sch, worker), xs), x) && Begins(QueueRun(NewQueue(sch, worker), xs), x)
    ensures var q := QueueRun(NewQueue(sch, worker), xs); var q1 := QueueApply(q, x);
      var w := RecordedRun(Waiting([], []), NewQueue(sch, worker), xs);
      && (w.inserted != [] || w.appended != [])
      && q1.started == q.started + [if w.inserted != [] then w.inserted[|w.inserted| - 1] else w.appended[0]]
  {
    RunLines(NewQueue(sch, worker), Waiting([], []), xs);
    var q, w := QueueRun(NewQueue(sch, worker), xs), RecordedRun(Waiting([], []), NewQueue(sch, worker), xs);
    assert Lines(q, w);
    assert q.pending != [] && QueueApply(q, x).started == q.started + [q.pending[0]];
  }

  // ----- an inserted job goes first -----

  /** The steps insert the job. */
  predicate InsertedIn(job: Job, xs: seq<QueueStep>) {
    exists k :: 0 <= k < |xs| && xs[k].DoInsert? && xs[k].job == job
  }

  /** All but the jobs of the first `n` were inserted by the steps. */
  ghost predicate AllInserted(jobs: seq<Job>, n: nat, xs: seq<QueueStep>) {
    forall k | n <= k < |jobs| :: InsertedIn(jobs[k], xs)
  }

  /** The job waits behind later inserts only, or has started after nothing but those. */
  ghost predicate GoesFirst(q: Queue, n: nat, job: Job, behind: seq<Job>, xs: seq<QueueStep>) {
    || (exists top, more :: q.pending == top + [job] + behind + more && AllInserted(top, 0, xs) && AllInserted(q.started, n, xs))
    || (exists i :: n <= i < |q.started| && q.started[i] == job && AllInserted(q.started[..i], n, xs))
  }

  lemma MoreSteps(jobs: seq<Job>, n: nat, xs: seq<QueueStep>, x: QueueStep)
    requires AllInserted(jobs, n, xs)
    ensures AllInserted(jobs, n, xs + [x])
  {
    forall k | n <= k < |jobs|
      ensures InsertedIn(jobs[k], xs + [x])
    {
      var i :| 0 <= i < |xs| && xs[i].DoInsert? && xs[i].job == jobs[k];
      assert (xs + [x])[i] == xs[i];
    }
  }

  lemma WaitingGoesFirst(q: Queue, n: nat, job: Job, top: seq<Job>, behind: seq<Job>, more: seq<Job>,
                         xs: seq<QueueStep>, x: QueueStep)
    requires QueueEnabled(q, x) && n <= |q.started|
    requires q.pending == top + [job] + behind + more && AllInserted(top, 0, xs) && AllInserted(q.started, n, xs)
    ensures GoesFirst(QueueApply(q, x), n, job, behind, xs + [x])
  {
    var q1, ys := QueueApply(q, x), xs + [x];
    MoreSteps(top, 0, xs, x);
    MoreSteps(q.started, n, xs, x);
    if x.DoAppend? {
      assert q1.pending == top + [job] + behind + (more + [x.job]);
    } else if x.DoInsert? {
      assert ys[|xs|] == x;
      assert q1.pending == ([x.job] + top) + [job] + behind + more;
      assert AllInserted([x.job] + top, 0, ys);
    } else if Begins(q, x) {
      assert q1.started == q.started + [q.pending[0]] && q1.pending == q.pending[1..];
      if top == [] {
        assert q1.started[|q.started|] == job && q1.started[..|q.started|] == q.started;
      } else {
        assert q1.pending == top[1..] + [job] + behind + more;
        assert q.pending[0] == top[0];
        assert AllInserted(top[1..], 0, ys) && AllInserted(q1.started, n, ys);
      }
    } else {
      assert q1.pending == q.pending && q1.started == q.started;
    }
  }

  lemma StartedGrows(q: Queue, x: QueueStep)
    requires QueueEnabled(q, x)
    ensures q.started <= QueueApply(q, x).started
  {
  }

  lemma StepGoesFirst(q: Queue, n: nat, job: Job, behind: seq<Job>, xs: seq<QueueStep>, x: QueueStep)
    requires QueueEnabled(q, x) && n <= |q.started| && GoesFirst(q, n, job, behind, xs)
    ensures n <= |QueueApply(q, x).started| && GoesFirst(QueueApply(q, x), n, job, behind, xs + [x])
  {
    StartedGrows(q, x);
    if i :| n <= i < |q.started| && q.started[i] == job && AllInserted(q.started[..i], n, xs) {
      MoreSteps(q.started[..i], n, xs, x);
      assert QueueApply(q, x).started[..i] == q.started[..i];
    } else {
      var top, more :| q.pending == top + [job] + behind + more && AllInserted(top, 0, xs) && AllInserted(q.started, n, xs);
      WaitingGoesFirst(q, n, job, top, behind, more, xs, x);
    }
  }

  lemma {:induction false} RunGoesFirst(q: Queue, n: nat, job: Job, behind: seq<Job>, done: seq<QueueStep>, xs: seq<QueueStep>)
    requires QueueEnabledRun(q, xs) && n <= |q.started| && GoesFirst(q, n, job, behind, done)
    ensures GoesFirst(QueueRun(q, xs), n, job, behind, done + xs)
    decreases |xs|
  {
    if xs == [] {
      assert done + xs == done;
    } else {
      StepGoesFirst(q, n, job, behind, done, xs[0]);
      RunGoesFirst(QueueApply(q, xs[0]), n, job, behind, done + [xs[0]], xs[1..]);
      assert done + [xs[0]] + xs[1..] == done + xs;
    }
  }

  /**
    An inserted job starts before every job that was pending at its insertion: what starts between the
    two was itself inserted after it. As long as the job has not started it waits before all of those.
   */
  lemma InsertedStartsFirst(q: Queue, job: Job, now: Time, xs: seq<QueueStep>)
    requires QueueEnabled(q, DoInsert(job, now)) && QueueEnabledRun(QueueApply(q, DoInsert(job, now)), xs)
    ensures GoesFirst(QueueRun(QueueApply(q, DoInsert(job, now)), xs), |q.started|, job, q.pending, xs)
  {
    var q1 := QueueApply(q, DoInsert(job, now));
    assert q1.pending == [] + [job] + q.pending + [];
    assert AllInserted([], 0, []) && AllInserted(q1.started, |q.started|, []);
    assert GoesFirst(q1, |q.started|, job, q.pending, []);
    RunGoesFirst(q1, |q.started|, job, q.pending, [], xs);
    assert [] + xs == xs;
  }

  // ----- runs without inserts -----

  /** No step adds a job at the front. */
  predicate AppendOnly(xs: seq<QueueStep>) {
    forall k | 0 <= k < |xs| :: !xs[k].DoInsert?
  }

  lemma AppendedStep(q: Queue, w: Waiting, x: QueueStep)
    requires QueueEnabled(q, x) && !x.DoInsert? && q.pending == w.appended && w.inserted == []
    requires q.started + w.appended == q.added
    ensures var q1, w1 := QueueApply(q, x), Recorded(w, q, x);
      w1.inserted == [] && q1.pending == w1.appended && q1.started + w1.appended == q1.added
  {
    var q1, w1 := QueueApply(q, x), Recorded(w, q, x);
    if x.DoAppend? {
      assert q1.started + w1.appended == q.started + w.appended + [x.job];
    } else if Begins(q, x) {
      assert w.appended == [w.appended[0]] + w.appended[1..];
      assert q1.started == q.started + [w.appended[0]];
    }
  }

  lemma {:induction false} AppendedInOrder(q: Queue, w: Waiting, xs: seq<QueueStep>)
    requires QueueEnabledRun(q, xs) && AppendOnly(xs) && q.pending == w.appended && w.inserted == []
    requires q.started + w.appended == q.added
    ensures var q1, w1 := QueueRun(q, xs), RecordedRun(w, q, xs);
      w1.inserted == [] && q1.pending == w1.appended && q1.started + w1.appended == q1.added
    decreases |xs|
  {
    if xs != [] {
      AppendedStep(q, w, xs[0]);
      AppendedInOrder(QueueApply(q, xs[0]), Recorded(w, q, xs[0]), xs[1..]);
    }
  }

  /** In append-only runs the jobs start in append order, each exactly once. */
  lemma JobsStartInAppendOrder(sch: Sched, worker: Tid, xs: seq<QueueStep>)
    requires QueueEnabledRun(NewQueue(sch, worker), xs) && AppendOnly(xs)
    ensures var q := QueueRun(NewQueue(sch, worker), xs); q.started + q.pending == q.added
  {
    AppendedInOrder(NewQueue(sch, worker), Waiting([], []), xs);
  }

  // ----- a cancelled worker -----

  /** The worker is cancelled, or gone. */
  predicate WorkerCancelled(q: Queue) {
    q.worker in q.sem.sch.tasks ==> q.sem.sch.tasks[q.worker].cancelled
  }

  predicate CreatesWorker(x: QueueStep, worker: Tid) {
    x.Outside? && x.step.DoSpawn? && x.step.tid == worker
  }

  lemma {:induction false} GiveKeepsCancelled(m: Sem, now: Time, t: Tid)
    ensures var m1 := GiveLoop(m, now);
      && (t in m1.sch.tasks <==> t in m.sch.tasks) && m1.inFetch == m.inFetch
      && (t in m.sch.tasks ==> (m1.sch.tasks[t].cancelled <==> m.sch.tasks[t].cancelled))
    decreases |m.waiters|
  {
    if m.waiters != [] && m.waiters[0] !in m.sch.tasks {
      GiveKeepsCancelled(m.(waiters := m.waiters[1..]), now, t);
    }
  }

  lemma CancelledStays(q: Queue, x: QueueStep)
    requires QueueEnabled(q, x) && WorkerCancelled(q) && !CreatesWorker(x, q.worker)
    ensures WorkerCancelled(QueueApply(q, x))
    ensures q.worker in QueueApply(q, x).sem.inFetch ==> q.worker in q.sem.inFetch
  {
    var s := q.sem.sch;
    match x
    case Outside(step) =>
      if !(step.DoFinish? && s.running == Some(q.worker)) {
        StepLife(s, step, q.worker);
      }
    case DoAppend(_, now) => GiveKeepsCancelled(q.sem.(gives := q.sem.gives + 1), now, q.worker);
    case DoInsert(_, now) => GiveKeepsCancelled(q.sem.(gives := q.sem.gives + 1), now, q.worker);
    case _ =>
  }

  lemma CancelledBegins(q: Queue, x: QueueStep)
    requires QueueEnabled(q, x) && WorkerCancelled(q) && !CreatesWorker(x, q.worker)
    ensures |QueueApply(q, x).started| <= |q.started| + 1
    ensures Begins(q, x) ==> q.worker in q.sem.inFetch && q.worker !in QueueApply(q, x).sem.inFetch
    ensures QueueApply(q, x).worker == q.worker
  {
  }

  /** Once cancelled the worker begins at most one more job: the one its fetch already waits for. */
  lemma {:induction false} CancelledWorkerStops(q: Queue, xs: seq<QueueStep>)
    requires QueueEnabledRun(q, xs) && WorkerCancelled(q)
    requires forall k | 0 <= k < |xs| :: !CreatesWorker(xs[k], q.worker)
    ensures |QueueRun(q, xs).started| <= |q.started| + if q.worker in q.sem.inFetch then 1 else 0
    decreases |xs|
  {
    if xs != [] {
      CancelledStays(q, xs[0]);
      CancelledBegins(q, xs[0]);
      StartedGrows(q, xs[0]);
      CancelledWorkerStops(QueueApply(q, xs[0]), xs[1..]);
    }
  }

  // ----- the end of the loop -----

  lemma {:induction false} DoneBeginsNothing(q: Queue, xs: seq<QueueStep>)
    requires QueueEnabledRun(q, xs) && q.phase == Done
    ensures QueueRun(q, xs).phase == Done && QueueRun(q, xs).started == q.started
    decreases |xs|
  {
    if xs != [] {
      DoneBeginsNothing(QueueApply(q, xs[0]), xs[1..]);
    }
  }

  /** A fetch that fails, because it or the worker was cancelled, ends the loop: no job starts any more. */
  lemma FailedFetchEnds(q: Queue, now: Time, xs: seq<QueueStep>)
    requires QueueEnabled(q, DoLoopResume(now)) && !Fetched(q.sem)
    requires QueueEnabledRun(QueueApply(q, DoLoopResume(now)), xs)
    ensures QueueRun(QueueApply(q, DoLoopResume(now)), xs).started == q.started
  {
    DoneBeginsNothing(QueueApply(q, DoLoopResume(now)), xs);
  }
}
