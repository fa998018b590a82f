/**
  The task queue: a worker task that fetches from the queue's own semaphore and runs the job at the
  front of the pending list, while any task appends or inserts jobs and gives.
 */
module TaskQueue {
  import opened Scheduler
  import opened SchedulerInvariant
  import opened Semaphore

  type Job = int

  /** Where the worker is; TookFromEmpty is the undefined `front()` of an empty list. */
  datatype Phase = AtHead | InJob | Done | TookFromEmpty

  /** `added` and `started` record the run: the jobs appended or inserted, and those begun, in order. */
  datatype Queue = Queue(
    sem: Sem, worker: Tid, phase: Phase, pending: seq<Job>, added: seq<Job>, started: seq<Job>)

  function NewQueue(sch: Sched, worker: Tid): Queue {
    Queue(NewSem(sch, 0), worker, AtHead, [], [], [])
  }

  function TakeFront(q: Queue): Queue {
    if q.pending == [] then q.(phase := TookFromEmpty)
    else q.(pending := q.pending[1..], started := q.started + [q.pending[0]], phase := InJob)
  }

  function Append(q: Queue, job: Job, now: Time): Queue {
    q.(pending := q.pending + [job], added := q.added + [job], sem := Give(q.sem, now))
  }

  function InsertFront(q: Queue, job: Job, now: Time): Queue {
    q.(pending := [job] + q.pending, added := q.added + [job], sem := Give(q.sem, now))
  }

  predicate WorkerRuns(q: Queue) {
    q.sem.sch.running == Some(q.worker) && q.worker in q.sem.sch.tasks
  }

  /** The loop condition: not cancelled, and a fetch; the fetch may suspend. */
  function LoopHead(q: Queue, now: Time): Queue
    requires WorkerRuns(q) && CanCall(q.sem)
  {
    if Me(q.sem.sch).cancelled then q.(phase := Done)
    else
      var q1 := q.(sem := Fetch(q.sem, None, now));
      if q.sem.count > 0 then TakeFront(q1) else q1
  }

  function LoopResume(q: Queue, now: Time): Queue
    requires WorkerRuns(q)
  {
    var q1 := q.(sem := FetchReturn(q.sem, now));
    if Fetched(q.sem) then TakeFront(q1) else q1.(phase := Done)
  }

  datatype QueueStep =
    | Outside(step: Step)
    | DoAppend(job: Job, now: Time)
    | DoInsert(job: Job, now: Time)
    | DoLoopHead(now: Time)
    | DoLoopResume(now: Time)
    | DoJobEnd

  /** Scheduler calls are the worker's only inside a job; it returns only after leaving its loop. */
  ghost predicate QueueEnabled(q: Queue, x: QueueStep) {
    match x
    case Outside(step) =>
      && SemEnabled(q.sem, Other(step))
      && (IsOwnCall(step) && WorkerRuns(q) ==> q.phase == (if step.DoFinish? then Done else InJob))
    case DoAppend(job, now) => SemEnabled(q.sem, DoGive(now))
    case DoInsert(job, now) => SemEnabled(q.sem, DoGive(now))
    case DoLoopHead(now) => WorkerRuns(q) && q.phase == AtHead && SemEnabled(q.sem, DoFetch(None, now))
    case DoLoopResume(now) => WorkerRuns(q) && q.phase == AtHead && SemEnabled(q.sem, DoFetchReturn(now))
    case DoJobEnd => WorkerRuns(q) && q.phase == InJob
  }

  ghost function QueueApply(q: Queue, x: QueueStep): Queue
    requires QueueEnabled(q, x)
  {
    match x
    case Outside(step) => q.(sem := SemApply(q.sem, Other(step)))
    case DoAppend(job, now) => Append(q, job, now)
    case DoInsert(job, now) => InsertFront(q, job, now)
    case DoLoopHead(now) => LoopHead(q, now)
    case DoLoopResume(now) => LoopResume(q, now)
    case DoJobEnd => q.(phase := AtHead)
  }

  /** No descriptor answers a fetch of the queue's semaphore, see Semaphore.Disturbs. */
  ghost predicate QueueUndisturbed(q: Queue, x: QueueStep) {
    x.Outside? ==> !Disturbs(q.sem, x.step)
  }

  ghost predicate QueueInv(q: Queue) {
    && SemInv(q.sem) && q.sem.init == 0
    && q.sem.gives == |q.added|
    && |q.pending| + q.sem.fetched == q.sem.gives
    && q.phase != TookFromEmpty
  }

  lemma GiveCounts(m: Sem, now: Time)
    requires SemInv(m) && SemEnabled(m, DoGive(now))
    ensures Give(m, now).gives == m.gives + 1 && Give(m, now).fetched == m.fetched && Give(m, now).init == m.init
  {
    if m.waiters != [] {
      GiveWakesTheFirst(m, now);
    }
  }

  /** The worker's fetch succeeds only when a job is pending. */
  lemma QueueStepOk(q: Queue, x: QueueStep)
    requires QueueInv(q) && QueueEnabled(q, x)
    ensures QueueInv(QueueApply(q, x)) <==> QueueUndisturbed(q, x)
    ensures x.DoLoopHead? && q.sem.count > 0 ==> q.pending != []
    ensures x.DoLoopResume? && Fetched(q.sem) ==> q.pending != []
  {
    match x
    case Outside(step) => SemStepIff(q.sem, Other(step));
    case DoAppend(job, now) =>
      GiveOk(q.sem, now);
      GiveCounts(q.sem, now);
    case DoInsert(job, now) =>
      GiveOk(q.sem, now);
      GiveCounts(q.sem, now);
    case DoLoopHead(now) =>
      if !Me(q.sem.sch).cancelled {
        FetchOk(q.sem, None, now);
      }
    case DoLoopResume(now) =>
      FetchReturnOk(q.sem, now);
      if Fetched(q.sem) {
        assert q.worker in q.sem.granted;
        assert |q.sem.granted| >= |{q.worker}|;
      }
    case DoJobEnd =>
  }

  ghost predicate QueueEnabledRun(q: Queue, xs: seq<QueueStep>)
    decreases |xs|
  {
    xs != [] ==> QueueEnabled(q, xs[0]) && QueueEnabledRun(QueueApply(q, xs[0]), xs[1..])
  }

  ghost function QueueRun(q: Queue, xs: seq<QueueStep>): Queue
    requires QueueEnabledRun(q, xs)
    decreases |xs|
  {
    if xs == [] then q else QueueRun(QueueApply(q, xs[0]), xs[1..])
  }

  ghost predicate UndisturbedRun(q: Queue, xs: seq<QueueStep>)
    requires QueueEnabledRun(q, xs)
    decreases |xs|
  {
    xs != [] ==> QueueUndisturbed(q, xs[0]) && UndisturbedRun(QueueApply(q, xs[0]), xs[1..])
  }

  lemma {:induction false} QueueRunOk(q: Queue, xs: seq<QueueStep>)
    requires QueueInv(q) && QueueEnabledRun(q, xs) && UndisturbedRun(q, xs)
    ensures QueueInv(QueueRun(q, xs))
    decreases |xs|
  {
    if xs != [] {
      QueueStepOk(q, xs[0]);
      QueueRunOk(QueueApply(q, xs[0]), xs[1..]);
    }
  }

  /**
    In every run the pending jobs are as many as the permits: the semaphore's count plus those
    granted to the worker and not yet resumed. So the worker never takes from an empty list.
   */
  lemma PendingMatchesPermits(sch: Sched, worker: Tid, xs: seq<QueueStep>)
    requires Core(sch) && QueueEnabledRun(NewQueue(sch, worker), xs) && UndisturbedRun(NewQueue(sch, worker), xs)
    ensures var q := QueueRun(NewQueue(sch, worker), xs);
      && |q.pending| == q.sem.count + |q.sem.granted| + 0x1_0000_0000 * q.sem.wraps
      && q.phase != TookFromEmpty
  {
    QueueRunOk(NewQueue(sch, worker), xs);
  }

  /**
    An event that reaches the worker inside its fetch while no job is pending: the worker resumes and
    takes the front of an empty list.
   */
  lemma DisturbedTakesFromEmpty(q: Queue, step: Step, now: Time, end: Time)
    requires QueueInv(q) && q.pending == [] && q.phase == AtHead && q.worker in q.sem.inFetch
    requires step.DoEvent? && Reaches(q.sem.sch, step, q.worker) && QueueEnabled(q, Outside(step)) && now <= end
    requires var q1 := QueueApply(q, Outside(step));
      QueueEnabled(q1, Outside(DoDispatch(now))) && Head(q1.sem.sch).tid == q.worker
    ensures var q2 := QueueApply(QueueApply(q, Outside(step)), Outside(DoDispatch(now)));
      QueueEnabled(q2, DoLoopResume(end)) && QueueApply(q2, DoLoopResume(end)).phase == TookFromEmpty
  {
    assert |q.sem.granted| == 0;
    DisturbedResumes(q.sem, step, q.worker, now);
  }
}
