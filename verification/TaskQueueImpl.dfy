/**
  The task queue's class, proved to be the functions of TaskQueue. The worker's loop is cut where its
  fetch may switch to the loop: the head of the loop, and what follows a fetch that was suspended.
 */
module TaskQueueImpl {
  import opened Scheduler
  import opened LoopImpl
  import opened SemaphoreImpl
  import S = Semaphore
  import Q = TaskQueue

  class JobQueue {
    const sem: CountingSemaphore
    const worker: Tid
    var pendingTaskList: seq<Q.Job>
    var phase: Q.Phase
    ghost var added: seq<Q.Job>
    ghost var started: seq<Q.Job>

    ghost predicate Valid()
      reads this, sem.loop, sem.loop.timedList, sem.loop.cache.Values
    {
      sem.loop.Valid()
    }

    ghost function State(): Q.Queue
      reads this, sem, sem.loop, sem.loop.timedList, sem.loop.cache.Values
    {
      Q.Queue(sem.State(), worker, phase, pendingTaskList, added, started)
    }

    constructor (loop: Loop, worker: Tid)
      requires loop.Valid()
      ensures sem.loop == loop && fresh(sem) && State() == Q.NewQueue(loop.State(), worker)
    {
      sem := new CountingSemaphore(loop, 0);
      this.worker, pendingTaskList, phase, added, started := worker, [], Q.AtHead, [], [];
    }

    method Append(job: Q.Job, now: Time)
      requires Valid()
      modifies this, sem, sem.loop`clock, sem.loop.timedList, sem.loop.cache.Values
      ensures Valid() && State() == Q.Append(old(State()), job, now)
    {
      pendingTaskList := pendingTaskList + [job];
      added := added + [job];
      sem.Give(now);
    }

    method InsertFront(job: Q.Job, now: Time)
      requires Valid()
      modifies this, sem, sem.loop`clock, sem.loop.timedList, sem.loop.cache.Values
      ensures Valid() && State() == Q.InsertFront(old(State()), job, now)
    {
      pendingTaskList := [job] + pendingTaskList;
      added := added + [job];
      sem.Give(now);
    }

    /** front and pop_front; with an empty list front is undefined. */
    method TakeFront()
      modifies this`pendingTaskList, this`phase, this`started
      ensures State() == Q.TakeFront(old(State()))
    {
      if pendingTaskList == [] {
        phase := Q.TookFromEmpty;
      } else {
        var w := pendingTaskList[0];
        pendingTaskList := pendingTaskList[1..];
        started := started + [w];
        phase := Q.InJob;
      }
    }

    /** The condition of the loop: the worker leaves it, starts a job, or is suspended in its fetch. */
    method LoopHead(now: Time) returns (suspended: bool)
      requires Valid() && sem.loop.runningTask != null && sem.loop.runningTask.tid == worker
      requires Q.WorkerRuns(State()) && S.CanCall(sem.State())
      modifies this, sem, sem.loop, sem.loop.timedList, sem.loop.runningTask
      ensures Valid() && State() == Q.LoopHead(old(State()), now)
    {
      if sem.loop.runningTask.cancelled {
        phase := Q.Done;
        return false;
      }
      var ok;
      suspended, ok := sem.FetchBegin(None, now);
      if ok {
        TakeFront();
      }
    }

    /** The worker's fetch resumes. */
    method LoopResume(now: Time)
      requires Valid() && sem.loop.runningTask != null && Q.WorkerRuns(State())
      modifies this, sem, sem.loop`clock
      ensures Valid() && State() == Q.LoopResume(old(State()), now)
    {
      var ok := sem.FetchEnd(now);
      if ok {
        TakeFront();
      } else {
        phase := Q.Done;
      }
    }
  }
}
