# Verification of libpeco's scheduler, parsers and containers

libpeco is a single-threaded coroutine scheduler with a networking stack on top. This project models
its central parts in Dafny and proves what they promise. `dafny verify dfyconfig.toml` checks it.

## How the model is built

Code that changes things step by step is modelled twice. A *specification* gives each operation as a
function on values, one module per component (`Scheduler`, `Semaphore`, `Resp`, `LruCache`, ...). An
*implementation* gives the same operation as a method of a class that changes its fields in place, as
the source does (`LoopImpl`, `SemaphoreImpl`, `RespImpl`, ...), and its postcondition ties the new
state to the specification. What the source promises is then proved about the specification, over all
inputs and all runs.

**Scheduler.** A state is the task registry, the running task, the time-ordered list with its index of
waiters by descriptor, the flag that the loop is active, and the last clock reading. A step is a
dispatch, a call of the running task (yield, hold, hold_for, wait, wakeup, cancel, update_interval,
exit), the end of its worker, an event or an error of a descriptor, or the cancel sweep after exit.
Clock readings, readiness and errors are arbitrary parameters of the steps; a worker is an arbitrary
sequence of calls. Switching stacks is choosing which task takes the next step.

Four facts about the code shape the theorems:

* The order of the timed list is a strict total order only on keys with distinct ids and distinct
  times, and then it is the order of the times, and a lookup finds by time alone
  (`KeyOrderIsTimeOrder`, `LookupIsByTime`). The predicate `Timely` says that a step does not assign a
  fire time that another live task has. It is exactly what keeps registry and list sound
  (`StepKeepsCoreIffNoTie`): a tie with a listed task loses the second task at once, and a tie with a
  task that is held, or holds next, loses it with that one's wakeup (`UntimelyLoses`).
* The timeout of a wait for writing erases the waiter's entry under the type for reading, so the entry
  for writing stays behind (`WriteTimeoutIsStale`). The theorems about registry and list, frames, holds,
  waits, the semaphore and the task queue are about runs in which this happens. Where a stale entry
  does matter the exact condition is stated: it answers a wait or a hold that is not its own
  (`OtherEntryAnswers`, `HeldIffNotWoken`, `StaleWriteEntryWakes`), takes the entry of a wait for reading
  out of agreement with the list (`EntriesCurrentIff`), or gives a semaphore's permit away
  (`SemStepIff`).
* An error that meets a task twice under one descriptor leaves an entry of it behind
  (`ErrorKeepsCoreIff`, `ErrorLeavesOldEntry`). `Orderly` means timely and no such error.
* `repeat_count` counts runs that are left, and its largest value stands for repeating for ever. What is
  said about it holds in every run at all, ties and timeouts included.

Assumed for the semaphore: nobody wakes its waiters by hand, and its calls are made by the running
task. Its 32-bit count wraps around as in the source.

**RESP.** `New` is the parsing constructor, `Resume` is `continue_parse`. The result `Thrown` stands for
an exception from `stoi` or from a string constructor. Chunk independence holds for every input,
well-formed or not, up to 2^31 - 1 bytes; the bound is the code's own comparison as `int`
(`HugeBufferIsUnfinished`). The driver is the simple one: construct, discard and retry on 0, otherwise
drop what was consumed and continue.

**Containers and codecs.** `DependOrder`, `LruCache` (a fetch action is the finite tree of what it does
to the cache), `FilterTree`, `Base64`, `Url`, `SplitJoin` and `Dns` follow their source functions, with
buffers as arrays, so that every write is proved to stay inside. `Injector` is a step model of the
hand-over of closures between threads; its clock readings are real numbers, because two of them may be
arbitrarily close. A caller that is a task returns true on the signal Received, whatever set it;
`InjectorCaller` puts injector and scheduler together to say when only its own answer does.

## Model

| member | source | states |
|---|---|---|
| Scheduler.KeyOrderIsTimeOrder | src/task/impl/tasklist.cpp:47-49 | on keys with distinct ids and times the comparator is irreflexive, transitive and total, and orders by time |
| Scheduler.LookupIsByTime | src/task/impl/tasklist.cpp:47-49 | with such keys a lookup finds an entry exactly when the times are equal |
| Scheduler.MinTime | src/task/impl/tasklist.cpp:85-87 | the nearest time is in the list and no other is before it |
| Scheduler.Trichotomy | src/task/impl/loopimpl.cpp:90-128 | under the invariant a registered task is exactly one of running, listed under its fire time, or held |
| Scheduler.ListedIsOccupied | src/task/impl/tasklist.cpp:177-179 | under the invariant the membership test, which looks a task's fire time up, says whether the task itself is listed |
| SchedulerInvariant.CancelOk | src/task/impl/loopimpl.cpp:292-312 | a timely cancel keeps registry and list sound: a cancelled task is running or listed with a fire time not after now |
| SchedulerInvariant.DispatchOk | src/task/impl/loopimpl.cpp:93-106 | a dispatch finds its task registered and keeps registry and list sound |
| SchedulerInvariant.EventTurnKeepsCore | src/task/impl/loopimpl.cpp:76-88 | an event's turn keeps registry and list sound for any task the index names, also one that is held, listed for another reason, or gone |
| SchedulerInvariant.StepKeepsCore | src/task/impl/loopimpl.cpp:90-312 | every orderly step keeps registry and list sound, whatever stale entries the index holds and with timeouts of waits for writing: each task is running, listed once under its time, or held; listed ids are registered |
| SchedulerInvariant.RunKeepsCore | src/task/impl/loopimpl.cpp:90-312 | so does every orderly run |
| SchedulerInvariant.DispatchFindsItsTask | src/task/impl/loopimpl.cpp:93-106 | in every state that an orderly run reaches, the entry that is dispatched belongs to a registered task that is pending or paused |
| SchedulerTies.StepKeepsCoreIffNoTie | src/task/impl/tasklist.cpp:47-49 | a step that lists one task keeps registry and list sound if and only if the fire time it assigns is no other live task's |
| SchedulerTies.EventTurnsKeepIff | src/task/impl/loopimpl.cpp:76-88 | registry and list are sound after every turn of the event handler if and only if no turn assigns a fire time that another live task has |
| SchedulerTies.ErrorTurnsKeepIff | src/task/impl/loopimpl.cpp:62-75 | likewise after every turn of the error handler that meets no task twice |
| SchedulerTies.SweepTurnsKeepIff | src/task/impl/loopimpl.cpp:112-118 | likewise after every cancel of the sweep |
| SchedulerTies.ListedUnlessTaken | src/task/impl/tasklist.cpp:104-112 | the task that a step lists is listed afterwards if and only if no other listed task has that fire time |
| SchedulerTies.WakeupTakesEntry | src/task/impl/loopimpl.cpp:220-233 | a wakeup of a task that is not listed takes away the entry, with its handler, of the listed task that has the same fire time |
| SchedulerTies.UntimelyLoses | src/task/impl/tasklist.cpp:104-127 | a tie loses the task that the step lists: at once when the other is listed, with the other's next wakeup when it is held or holds next |
| SchedulerTies.TieLosesTheTask | src/task/impl/tasklist.cpp:104-112 | a task that yields at a listed task's fire time is neither running nor listed afterwards |
| SchedulerStale.ErrorKeepsCoreIff | src/task/impl/loopimpl.cpp:62-75 | a timely error, with a clock that ticks between its turns, keeps registry and list sound if and only if it meets no registered task twice |
| SchedulerStale.ErrorLeavesOldEntry | src/task/impl/loopimpl.cpp:62-75 | a task whose wait for writing timed out and that then waits for reading is met twice by an error, and its first entry stays under a time that is no longer its fire time |
| SchedulerRuns.StepFrame | src/task/impl/loopimpl.cpp:90-312 | a step leaves context and entry of every task that it is not about as they were |
| SchedulerRuns.ReachedIsAnswered | src/task/impl/loopimpl.cpp:62-88 | a task that an event or an error finds in the index is listed for immediate resumption with Received, or with Broken |
| SchedulerRuns.SearchInOrder | src/task/impl/tasklist.cpp:184-193 | waiters on a descriptor are found in the order in which they began to wait |
| SchedulerRuns.AnsweredInOrder | src/task/impl/loopimpl.cpp:76-88 | and an event lists them in that order, each under its own clock reading |
| SchedulerRuns.StepFds | src/task/impl/loopimpl.cpp:62-286 | which entries of the index a step takes out and which it adds; it never doubles one |
| SchedulerIndex.StepKeepsWaits | src/task/impl/loopimpl.cpp:239-286 | every wait that is on has its index entry after any orderly step |
| SchedulerIndex.RunKeepsWaits | src/task/impl/loopimpl.cpp:239-286 | and in every state that an orderly run reaches |
| SchedulerIndex.EntriesCurrentIff | src/task/impl/loopimpl.cpp:239-286 | the entries of one type go on standing for waits that are on if and only if no event or error reaches a waiting task by another entry and, for the type for writing, no such wait times out |
| SchedulerIndex.OneEntryPerTask | src/task/impl/loopimpl.cpp:239-260 | while the entries of both types are current a task has at most one |
| SchedulerIndex.StepKeepsInvIff | src/task/impl/loopimpl.cpp:90-312 | a timely step keeps the whole invariant, index included, if and only if it is not the timeout of a wait for writing |
| SchedulerIndex.ReadIndexAgrees | src/task/impl/loopimpl.cpp:239-260 | in every state that an orderly run from the start reaches, as long as no task that waits for reading was reached by another entry, a task has a read entry for a descriptor if and only if it is listed with the timeout handler of that wait; it has at most one, and none while it runs |
| SchedulerIndex.RunKeepsInv | src/task/impl/loopimpl.cpp:90-312 | in runs without timeouts of waits for writing the same holds for both types, and no task is ever reached by another entry |
| SchedulerIndex.WriteTimeoutIsStale | src/task/impl/loopimpl.cpp:266-286 | the timeout of a wait for writing leaves its entry in the index, whatever else is there |
| SchedulerWaits.ReceivedOnlyAfterEvent | src/task/impl/loopimpl.cpp:239-260 | a wait of a task that the index names for no other wait resumes with Received only if an event of its type on its descriptor, or a wakeup with that signal, came in between; other tasks' waits for writing may time out |
| SchedulerWaits.OtherEntryAnswers | src/task/impl/loopimpl.cpp:76-88 | an event on any other entry that names the task does answer its wait with Received |
| SchedulerWaits.HeldIffNotWoken | src/task/impl/loopimpl.cpp:179-194 | a held task stays held, with its signal, through a step if and only if the step is no wakeup or cancel of it, no sweep, and no event or error that finds it in the index |
| SchedulerWaits.HeldUntilWoken | src/task/impl/loopimpl.cpp:179-194 | so it stays held through every run without such a step |
| SchedulerWaits.HeldIsNotNamed | src/task/impl/loopimpl.cpp:179-194 | as long as the entries are current no event or error finds a held task |
| SchedulerWaits.StaleWriteEntryWakes | src/task/impl/loopimpl.cpp:266-286 | after the timeout of a wait for writing, the next event of that kind on the descriptor ends a plain hold with Received, whatever else the index holds |
| SchedulerSignals.ResumesWithWhatItWasTold | src/task/impl/loopimpl.cpp:166-312 | a new task, and one that yielded, held, held for a time, waited or starts its next run, resumes with what the steps of the run told it last (a wakeup its signal, an event Received, an error Broken, the cancel of a held task Broken), or with Broken when its wait is still on and it was cancelled |
| SchedulerSignals.UnansweredResumesWith | src/task/impl/loopimpl.cpp:200-286 | a wait that nothing but cancels meets resumes with Broken if and only if its task was cancelled meanwhile, and otherwise with Nothing; a hold for a time then resumes with Nothing |
| SchedulerSignals.ResumesAtItsTime | src/task/impl/loopimpl.cpp:200-286 | and not before its time, unless it was cancelled |
| SchedulerSignals.CallReturnsIffCancelled | src/task/impl/loopimpl.cpp:179-286 | hold, hold_for and the waits return at once, with Broken and listing nothing, if and only if the caller is cancelled |
| SchedulerLife.StepLife | src/task/impl/basictask.cpp:177-211 | in any state at all only the end of a worker changes a repeat count or removes a task, and only cancel and sweep set the cancel flag |
| SchedulerLife.CompletesRepeatTimes | src/task/impl/basictask.cpp:177-211 | in every run at all a task with count n that is never cancelled completes its worker exactly n times and is then gone; before, completions and count left add up to n |
| SchedulerLife.InfiniteNeverEnds | src/task/impl/basictask.cpp:177-211 | in every run at all a task that repeats for ever stays registered as long as it is not cancelled |
| SchedulerLife.CreatedCompletesRepeatTimes | src/task/impl/basictask.cpp:81-112 | in every run at all behind its creation with count n, and without a cancel, a task completes its worker at most n times and is gone exactly when it has completed n times; with the largest count, and with 0, it is never gone |
| SchedulerLife.RunsAgainAfterInterval | src/task/impl/basictask.cpp:195-210 | the first fire time of a task is the given interval after its creation, and after each return of its worker the next is the interval that it was created with, or that was set last, after the one before |
| SchedulerLife.CancelledCompletesOnce | src/task/impl/basictask.cpp:177-211 | in every run at all, after a cancel the worker completes at most once more, finite or not |
| SchedulerLife.CancelledStartsOnce | src/task/impl/basictask.cpp:177-211 | in every run at all, after a cancel the worker starts at most once more, and not at all when it is in the middle of a run |
| SchedulerLife.GoneStaysGone | src/task/impl/basictask.cpp:140-142 | a removed task that is not created again stays away and completes nothing |
| SchedulerLife.SweepDrains | src/task/impl/loopimpl.cpp:112-118 | after the sweep every task is cancelled and none is held |
| SchedulerLife.DrainedIsDue | src/task/impl/loopimpl.cpp:90-128 | then, while tasks are left, the next dispatch is possible at once |
| SchedulerLife.DrainedCallsReturn | src/task/impl/loopimpl.cpp:179-286 | then hold, hold_for and wait return at once with Broken and list nothing |
| SchedulerLife.DrainStep | src/task/impl/loopimpl.cpp:92-129 | every step of a drained loop keeps it drained and strictly lowers a bound on the work left |
| SchedulerLife.DrainEnds | src/task/impl/loopimpl.cpp:92-129 | so a drained loop ends with an empty registry when every worker has finitely many calls left, and until then it can go on |
| SchedulerLife.SweepIffExited | src/task/impl/loopimpl.cpp:92-137 | from an active loop the cancel sweep can come if and only if exit was called before, and events and errors only if it was not |
| RoundRobin.TurnRotates | src/task/impl/loopimpl.cpp:166-174 | one turn of a ready queue runs its first task and puts it at the end, or drops it when it finishes; tasks that sleep beyond the round and held tasks do not matter |
| RoundRobin.RoundRobin | src/task/impl/loopimpl.cpp:166-174 | with a strictly increasing clock, ready tasks that only yield or finish are dispatched in strict round robin: between two turns of one every other live one has exactly one; other tasks may be held, or sleep until after the round |
| LoopImpl.BasicTask.constructor | src/task/impl/basictask.cpp:81-112 | a new task is pending, not cancelled, with its repeat count and first fire time |
| LoopImpl.BasicTask.WorkerReturned | src/task/impl/basictask.cpp:177-211 | status, repeat count and next fire time after the worker returns |
| LoopImpl.TaskList.Fetch | src/task/impl/tasklist.cpp:92-99 | takes out and returns the nearest entry |
| LoopImpl.TaskList.Insert | src/task/impl/tasklist.cpp:104-112 | lists a task and, for a descriptor, indexes it |
| LoopImpl.TaskList.ReplaceTime | src/task/impl/tasklist.cpp:117-127 | moves an entry to a new time without its handler's being lost |
| LoopImpl.TaskList.Erase | src/task/impl/tasklist.cpp:132-146 | erases a task's entry and its index entries of that type |
| LoopImpl.TaskList.EraseFd | src/task/impl/tasklist.cpp:151-165 | erases every waiter of a descriptor from list and index |
| LoopImpl.TaskList.Has | src/task/impl/tasklist.cpp:177-179 | whether the task's fire time is in the list |
| LoopImpl.TaskList.Search | src/task/impl/tasklist.cpp:184-193 | the waiters of one type on a descriptor, in order |
| LoopImpl.TaskList.SearchAll | src/task/impl/tasklist.cpp:198-203 | all waiters on a descriptor, in order |
| LoopImpl.Loop.SpawnTask | src/task/impl/loopimpl.cpp:155-161 | adding a task does to the fields what the specification says |
| LoopImpl.Loop.YieldTask | src/task/impl/loopimpl.cpp:166-174 | likewise yield |
| LoopImpl.Loop.HoldTask | src/task/impl/loopimpl.cpp:179-194 | likewise hold |
| LoopImpl.Loop.HoldTaskFor | src/task/impl/loopimpl.cpp:200-215 | likewise hold with a timeout |
| LoopImpl.Loop.WaitFd | src/task/impl/loopimpl.cpp:239-286 | likewise the waits on a descriptor |
| LoopImpl.Loop.WakeupTask | src/task/impl/loopimpl.cpp:220-233 | likewise wakeup of a task |
| LoopImpl.Loop.WakeupId | src/task/task.cpp:215-223 | wakeup by id leaves unknown ids and the running task alone |
| LoopImpl.Loop.CancelTask | src/task/impl/loopimpl.cpp:292-312 | likewise cancel, once per task |
| LoopImpl.Loop.ExitLoop | src/task/impl/loopimpl.cpp:133-137 | exit clears the flag of the loop and nothing else |
| LoopImpl.Loop.UpdateInterval | src/task/impl/basictask.cpp:216-218 | the interval of a task changes, and nothing else |
| LoopImpl.Loop.DispatchNearest | src/task/impl/loopimpl.cpp:93-106 | the body of the dispatch loop up to the switch |
| LoopImpl.Loop.SwapBack | src/task/impl/basictask.cpp:177-211 | what follows the return of the worker |
| LoopImpl.Loop.OnEvent | src/task/impl/loopimpl.cpp:76-88 | the event handler's loop over the waiters |
| LoopImpl.Loop.OnError | src/task/impl/loopimpl.cpp:62-75 | the error handler's loop over the waiters |
| LoopImpl.Loop.CancelAll | src/task/impl/loopimpl.cpp:112-118 | the sweep cancels every registered task |
| Semaphore.GiveWakesTheFirst | src/task/semaphore.cpp:85-95 | give grants the permit to the first waiter when there is one, which is alive |
| Semaphore.FetchReturnOk | src/task/semaphore.cpp:49-80 | a fetch that resumes either uses its grant or leaves the waiter list, and keeps the invariant |
| Semaphore.SemStepIff | src/task/semaphore.cpp:49-106 | waiters are distinct live suspended tasks, a positive count means no waiters, permits are conserved: a step keeps this if and only if no event reaches a fetch without a permit and no error one with a permit, through an entry of an earlier wait for writing |
| Semaphore.CleanIsUndisturbed | src/task/semaphore.cpp:49-80 | while the entries of the index are current no event or error reaches a task inside fetch |
| Semaphore.DisturbedReturnBreaksAccount | src/task/semaphore.cpp:49-80 | after an event that reaches a fetch without a permit, or an error that reaches one with a permit, the task's next dispatch ends its fetch with the wrong result, and the permits no longer add up |
| SemaphoreDisturbed.DisturbedIsReached | src/task/semaphore.cpp:49-80 | a run from the start reaches a state in which an event reaches a fetch without a permit: its task's wait for writing timed out before |
| Semaphore.SemRunOk | src/task/semaphore.cpp:49-106 | so does every run without such an event or error; waits for writing may time out |
| Semaphore.PermitsConserved | src/task/semaphore.cpp:49-106 | over every such run initial count plus gives equals successful fetches plus count plus grants not yet resumed (with the wraps of the 32-bit count) |
| SemaphoreOrder.FirstComeFirstServed | src/task/semaphore.cpp:49-95 | over every undisturbed run, of two fetches that wait the one whose call came earlier is granted first: a give grants some waiting task, and not the later one |
| SemaphoreOrder.GiveGrants | src/task/semaphore.cpp:85-95 | a give while a fetch waits grants a permit and counts none |
| SemaphoreOrder.FetchSuspendsUntil | src/task/semaphore.cpp:49-80 | a fetch that must wait is listed for the end of its time, or held when it has none |
| SemaphoreOrder.CancelWakesAll | src/task/semaphore.cpp:100-106 | cancel lists every task that waits, with Nothing and without a permit, so that its fetch returns false |
| SemaphoreImpl.CountingSemaphore.FetchBegin | src/task/semaphore.cpp:49-80 | fetch up to its suspension |
| SemaphoreImpl.CountingSemaphore.FetchEnd | src/task/semaphore.cpp:49-80 | fetch after it resumes |
| SemaphoreImpl.CountingSemaphore.Give | src/task/semaphore.cpp:85-95 | the loop over the waiters |
| SemaphoreImpl.CountingSemaphore.Cancel | src/task/semaphore.cpp:100-106 | cancel wakes every waiter without a permit |
| TaskQueue.QueueStepOk | src/task/taskqueue.cpp:43-73 | pending jobs and permits are equal in number: a step keeps this if and only if no descriptor answers a fetch of the queue; a fetch that succeeds finds a job |
| TaskQueue.DisturbedTakesFromEmpty | src/task/taskqueue.cpp:43-51 | an event that reaches the worker inside its fetch while no job is pending makes it take the front of an empty list |
| TaskQueue.PendingMatchesPermits | src/task/taskqueue.cpp:43-73 | over every run in which no descriptor answers a fetch of the queue, the pending jobs are as many as the count plus the permits granted and not resumed, so the worker never takes from an empty list |
| TaskQueueOrder.NextJobStarted | src/task/taskqueue.cpp:43-73 | in every run with appends and inserts the next job to start is the last inserted one that has not started, and the first appended one when there is none |
| TaskQueueOrder.InsertedStartsFirst | src/task/taskqueue.cpp:70-73 | an inserted job starts before every job that was pending at its insertion: only later inserts start in between |
| TaskQueueOrder.JobsStartInAppendOrder | src/task/taskqueue.cpp:43-65 | in every append-only run jobs start in append order, each exactly once |
| TaskQueueOrder.CancelledWorkerStops | src/task/taskqueue.cpp:43-51 | once cancelled the worker begins at most one more job, the one its fetch already waits for |
| TaskQueueOrder.FailedFetchEnds | src/task/taskqueue.cpp:43-51 | a fetch that fails ends the worker's loop: no job starts any more |
| TaskQueueImpl.JobQueue.Append | src/task/taskqueue.cpp:62-65 | puts a job at the end and gives a permit |
| TaskQueueImpl.JobQueue.InsertFront | src/task/taskqueue.cpp:70-73 | puts a job at the front and gives a permit |
| TaskQueueImpl.JobQueue.LoopHead | src/task/taskqueue.cpp:43-51 | the head of the worker's loop: it leaves, takes the front job, or is suspended in its fetch |
| TaskQueueImpl.JobQueue.LoopResume | src/task/taskqueue.cpp:43-51 | the worker's fetch resumes with a permit and takes the front job, or the loop ends |
| Injector.StepKeepsInv | src/task/shared/injector.cpp:87-124 | every legal step keeps the order of closures, the ownership of answer pipes and that answers are earned; legal is a step that leaves no answer behind and returns true to no caller whose closure has not ended |
| Injector.StartsInPipeOrder | src/task/shared/injector.cpp:90-124 | in every interleaving, whatever callers do, closures start in pipe order, each at most once, and all have started when the reader waits at an empty pipe |
| Injector.TrueMeansOwnClosureEnded | src/task/shared/injector.cpp:192-296 | in runs of legal steps a call returns true only after its own closure has ended, and false only after its deadline or when it stopped waiting |
| Injector.NoEarlyTrue | src/task/shared/injector.cpp:192-296 | while a closure has not ended a step makes its call return true if and only if the caller is a task whose wait something else than its pipe has ended with Received |
| Injector.CallerIsAnswered | src/task/shared/injector.cpp:100-112 | in every legal run a call that waits, before its deadline, can return true once its closure has ended and the answer is written |
| Injector.SafeIffLegal | src/task/shared/injector.cpp:105-296 | after a step, at once or by legal steps, a caller can be told that its closure has ended although it has not, if and only if the step returns early (a task roused before its closure ended) or leaves an answer behind (a call gives up or is roused between the check and the write of its answer, or stops waiting before its deadline while its closure has not ended) |
| Injector.LeftAnswerGoesWrong | src/task/shared/injector.cpp:217-296 | from every state that legal runs reach, a step that leaves an answer behind can be followed by a caller on the reused descriptor that returns true before its closure has started |
| Injector.LateIsReached | src/task/shared/injector.cpp:105-108 | a run of legal steps from the start reaches a state in which giving up leaves an answer behind |
| InjectorImpl.PipeLoop.ReaderTurn | src/task/shared/injector.cpp:97-123 | one turn of the reader's loop: a record becomes a task and the reader yields, or the pipe is empty |
| InjectorImpl.PipeLoop.ReaderGoesOn | src/task/shared/injector.cpp:91-99 | the reader goes on when its pipe is readable, and after its own yield |
| InjectorImpl.PipeLoop.Async | src/task/shared/injector.cpp:301-314 | an injection without an answer writes its record |
| InjectorImpl.PipeLoop.StartTask | src/task/shared/injector.cpp:100-112 | the dispatch of a closure's task |
| InjectorImpl.PipeLoop.CallAndWait | src/task/shared/injector.cpp:192-280 | a call opens its answer pipe and writes its record |
| InjectorImpl.PipeLoop.EndTask | src/task/shared/injector.cpp:100-109 | the end of a closure and the check that its caller still waits |
| InjectorImpl.PipeLoop.WriteAnswer | src/task/shared/injector.cpp:105-108 | the write of the answer, if the descriptor is open |
| InjectorImpl.PipeLoop.Poll | src/task/shared/injector.cpp:227-295 | a waiting thread returns true on an answer, false when its time is over |
| InjectorImpl.PipeLoop.Received | src/task/shared/injector.cpp:219-224 | a waiting task whose signal is Received returns true, whether or not its pipe holds an answer |
| InjectorImpl.PipeLoop.StopWaiting | src/task/shared/injector.cpp:220-226 | a caller that is cancelled, or whose last signal is Broken, returns false without looking |
| InjectorCaller.StepKeepsInv | src/task/shared/injector.cpp:217-282 | injector and scheduler together: while the callers that are tasks are careful, each step keeps that a caller's signal is Received only if its own pipe holds an answer; careful means that the index names the task for no other wait when it calls, and that nobody wakes it by hand while it waits |
| InjectorCaller.TrueMeansAnswered | src/task/shared/injector.cpp:219-226 | so over every run, with any stale entries that name other tasks, the call of a careful task returns true only with an answer in its own pipe |
| InjectorCaller.TrueMeansOwnClosureEnded | src/task/shared/injector.cpp:192-296 | and where no call leaves an answer behind it returns true only after its own closure has ended, for threads and tasks |
| InjectorCaller.OtherEntryRouses | src/task/shared/injector.cpp:219-226 | an event on any other entry that names the waiting task makes its call return true, whatever its closure has done |
| InjectorCaller.HandWakeupRouses | src/task/shared/injector.cpp:219-226 | so does a wakeup by hand with the signal it has by default, unless the task is cancelled |
| Resp.FindCrlfExtends | src/extensions/redis.cpp:115-123 | more data never changes a CRLF that was found |
| Resp.NewExtends | src/extensions/redis.cpp:127-249 | parsing d + e is parsing d and continuing with what is left of d + e |
| Resp.FillExtends | src/extensions/redis.cpp:204-227 | the same for the loop over sub-objects |
| Resp.ResumeExtends | src/extensions/redis.cpp:127-229 | the same for continuing an object, at any depth; its sub-objects but the last stay complete |
| Resp.FeedTwice | src/extensions/redis.cpp:236-249 | two chunks give what their concatenation gives |
| Resp.ChunkIndependence | src/extensions/redis.cpp:127-249 | every chunking of every input gives the tree, the consumed length, the rest and the failure of one parse; only last sub-objects are ever open |
| Resp.NewOfBulk | src/extensions/redis.cpp:181-203 | a bulk reply is read if and only if the bytes behind its header, counted as an int, are not fewer than its length |
| Resp.HugeBufferIsUnfinished | src/extensions/redis.cpp:190-192 | a complete bulk reply with 2 GiB to 4 GiB behind its header keeps the driver waiting when it comes in one piece, and is read when its own bytes come first |
| Resp.DecimalRoundTrip | src/extensions/redis.cpp:66-74 | the printed decimal has digits only and its value is the number |
| Resp.StoiOfDecimal | src/extensions/redis.cpp:153-184 | parsing a printed size gives the size |
| Resp.ParseEncoded | src/extensions/redis.cpp:127-229 | parsing the encoding of a value, whatever follows it, gives its tree, complete, and stops where the encoding ends |
| Resp.ReplyInAnyChunks | src/extensions/redis.cpp:127-249 | so does the driver on any chunking |
| RespGrammar.ReadIffSpelt | src/extensions/redis.cpp:127-229 | an object is read completely, with k bytes consumed, if and only if the first k bytes spell it in the grammar of the protocol: type signs, lines, sizes, bodies with the line break behind them, at any depth |
| RespGrammar.BulkNeedsItsLineBreak | src/extensions/redis.cpp:196-201 | a bulk body without the line break behind it is not read, whatever follows |
| RespGrammar.StoiReads | src/extensions/redis.cpp:153-184 | a size is white space, a sign and digits; what follows is ignored; out of the 32-bit range it throws |
| RespGrammar.WhatThrows | src/extensions/redis.cpp:127-184 | what is no size throws, and a bulk length under -1; an unknown type is refused |
| RespGrammar.UnfinishedIsNotRead | src/extensions/redis.cpp:127-140 | with less than three bytes, or without a line break, nothing is read |
| Resp.CommandRoundTrip | src/extensions/redis.cpp:66-100 | the parser reads a printed command as exactly its arguments in order, whatever bytes they hold, and consumes exactly the printed text |
| RespImpl.RedisObject.FindCrlfAt | src/extensions/redis.cpp:115-123 | the scan finds the first CRLF |
| RespImpl.RedisObject.ParseResponse | src/extensions/redis.cpp:127-229 | the parser in place, on a new object and on one that is continued, does what the specification says |
| RespImpl.RedisObject.ParseBulkBody | src/extensions/redis.cpp:181-203 | the bulk branch |
| RespImpl.RedisObject.ParseSubs | src/extensions/redis.cpp:204-227 | the loop over sub-objects |
| RespImpl.RedisCommand.Append | src/extensions/redis.cpp:66-74 | one more argument |
| RespImpl.RedisCommand.Str | src/extensions/redis.cpp:95-100 | the printed command |
| RespImpl.RedisCommand.Commit | src/extensions/redis.cpp:81-86 | the printed command, after which the object is empty |
| DependOrder.CountGrows | src/basic/depend.h:45-65 | without cycles a dependency has strictly more transitive dependants than what depends on it |
| DependOrder.AnySortIsAnOrder | src/basic/depend.h:131-140 | every order by descending count, whatever it does with ties, has all dependencies first and the requested target last |
| DependOrder.OrderNeedsNoCycle | src/basic/depend.h:51-57 | only targets without a cycle can be ordered at all |
| DependOrder.DepNode.RefDepend | src/basic/depend.h:51-57 | the recursion ends, fills the set with exactly the nodes that depend on this one, and its assertion about cycles never fails |
| DependOrder.DepNode.RefCount | src/basic/depend.h:59-64 | the count of transitive dependants |
| DependOrder.DepGraph.Get | src/basic/depend.h:75-88 | the one node of a target, made when there is none |
| DependOrder.DepGraph.Link | src/basic/depend.h:67-73 | records one dependency and no other |
| DependOrder.DepGraph.RecordAll | src/basic/depend.h:113-121 | queues and links every dependency of a target |
| DependOrder.Collect | src/basic/depend.h:99-121 | the queue loop ends and has dealt with exactly the reachable targets |
| DependOrder.DepOrder | src/basic/depend.h:90-141 | each reachable target exactly once, every dependency before its dependants, the requested target last |
| LruCache.RunFits | src/basic/lrucache.h:89-146 | no run, whatever its fetch actions do to the cache, makes two entries for a key or holds more entries than the largest size set |
| LruCache.GetFindsTheKey | src/basic/lrucache.h:89-124 | after a get, with or without a fetch action, the key is there if and only if it was, or the action put it there, or the cache may hold an entry at all; a hit and a fetched or made up value are in front |
| LruCache.EraseForgets | src/basic/lrucache.h:127-146 | erase takes out one key and leaves the others with their values; clear takes out all |
| LruCache.OthersKeepTheirValue | src/basic/lrucache.h:89-125 | get and put leave the value of every other key that stays |
| LruCache.NewSizeHolds | src/basic/lrucache.h:107-150 | a new size takes nothing out by itself; the next miss leaves so many entries, the newest |
| LruCache.RecentlyUsedStays | src/basic/lrucache.h:89-133 | a value that was put is found as long as fewer other keys than the capacity are used after it, fetch actions included |
| LruCache.SmallerIsPrefix | src/basic/lrucache.h:89-146 | given the same run, the keys of a smaller cache are the first keys of a larger one |
| LruCache.AgreeingRunsKeepPrefix | src/basic/lrucache.h:89-146 | the same with fetch actions that use the cache, as long as every get with such an action hits in both caches or misses in both, and finds the key after the action in both or in neither |
| LruCache.FetchingRunsPart | src/basic/lrucache.h:91-99 | a run in which such an action runs in one of the caches only, and the keys part |
| LruCacheImpl.LruCacheObject.Get | src/basic/lrucache.h:89-124 | hit, miss, re-entrant fetch and eviction in place; list and index hold the same keys once each |
| LruCacheImpl.LruCacheObject.Evict | src/basic/lrucache.h:107-112 | the eviction loop |
| LruCacheImpl.LruCacheObject.Reorder | src/basic/lrucache.h:115-121 | a hit makes the item anew at the front |
| LruCacheImpl.LruCacheObject.Put | src/basic/lrucache.h:125 | a value written through the returned reference |
| LruCacheImpl.LruCacheObject.EraseKey | src/basic/lrucache.h:127-133 | erases one key from list and index |
| LruCacheImpl.LruCacheObject.Contains | src/basic/lrucache.h:136-138 | whether the key is there |
| LruCacheImpl.LruCacheObject.ClearAll | src/basic/lrucache.h:143-146 | empties the cache |
| LruCacheImpl.LruCacheObject.SetCacheSize | src/basic/lrucache.h:150 | a new size evicts nothing by itself |
| FilterTree.InsertedHoldsTheLast | src/basic/filternode.h:173-187 | a word has the value it was last given |
| FilterTree.InsertedHoldsNoOther | src/basic/filternode.h:173-187 | a stored word was inserted |
| FilterTree.Filter.AddSubNode | src/basic/filternode.h:137-147 | the child for a character, made when there is none |
| FilterTree.Filter.AddWord | src/basic/filternode.h:173-187 | stores the word with its value, adds exactly its prefixes, returns its node; null for a node that is not the root |
| FilterTree.Filter.MatchStack | src/basic/filternode.h:71-92 | the nodes down to the first terminated one, or none |
| FilterTree.Filter.IsMatch | src/basic/filternode.h:164-171 | the node of the shortest non-empty stored prefix with its value; null if and only if there is none |
| FilterTree.FilterOf | src/basic/filternode.h:173-187 | a fresh tree after any run of insertions stores exactly its words |
| Base64.EncodedLength | src/basic/stringutil.cpp:119-179 | four characters for every three bytes begun |
| Base64.Encode | src/basic/stringutil.cpp:119-179 | computes the encoding with every write inside the buffer |
| Base64.Decode | src/basic/stringutil.cpp:181-229 | computes the decoding with every write inside the buffer |
| Base64.GroupKeepsItsBits | src/basic/stringutil.cpp:137-144 | the four six-bit values of a group are the 24 bits of its three bytes |
| Base64.ThereAndBack | src/basic/stringutil.cpp:119-229 | decoding undoes encoding for every byte string |
| Base64.OtherBytesArePassedOver | src/basic/stringutil.cpp:199-204 | a byte that is no symbol changes nothing wherever it stands |
| Base64.SymbolIs | src/basic/stringutil.cpp:119-136 | the alphabet and the padding, by their characters |
| Base64.SextetIs | src/basic/stringutil.cpp:181-204 | which bytes stand for a symbol, without their top bit |
| Base64.Vectors | src/basic/stringutil.cpp:119-179 | three test vectors of RFC 4648 |
| Base64.PaddingIsNotNeeded | src/basic/stringutil.cpp:199-229 | padding changes nothing |
| Base64.OneSymbolIsNothing | src/basic/stringutil.cpp:215-229 | a single symbol left over stands for nothing |
| Url.Encode | src/basic/stringutil.cpp:87-101 | computes the percent coding |
| Url.Decode | src/basic/stringutil.cpp:102-117 | computes the decoding, which ends at an escape cut short |
| Url.ThereAndBack | src/basic/stringutil.cpp:78-117 | decoding undoes encoding for every byte string |
| Url.EncodedIsSafe | src/basic/stringutil.cpp:87-101 | the encoding holds only unreserved characters, plus signs and whole escapes |
| Url.EscapeIs | src/basic/stringutil.cpp:78-101 | which characters stand for themselves, by name; a space becomes a plus sign, and the others upper-case escapes |
| Url.EscapesAreRead | src/basic/stringutil.cpp:80-117 | escapes are read in upper and lower case, a plus sign as a space, and a cut escape ends the text |
| SplitJoin.Turn | src/basic/stringutil.h:128-146 | one turn of the loop, for any separators: the part up to the next separator, and where the loop goes on |
| SplitJoin.Nearest | src/basic/stringutil.h:130-139 | the nearest separator from a place on, the first of the list where several stand |
| SplitJoin.Split | src/basic/stringutil.h:121-148 | whenever the jumping loop ends at all, it finds the parts that one walk over the characters finds, and nothing when a separator is empty |
| SplitJoin.NonEmptyEnds | src/basic/stringutil.h:128-146 | without empty separators the loop ends |
| SplitJoin.Join | src/basic/stringutil.h:168-181 | the parts with the separator between them |
| SplitJoin.PartsHoldNoSeparator | src/basic/stringutil.h:121-148 | no part is empty, and no separator stands inside one |
| SplitJoin.PartsAreWoven | src/basic/stringutil.h:121-148 | nothing is lost: the text is the parts in order and whole separators, with at least one between two parts |
| SplitJoin.JoinedIsCutAgain | src/basic/stringutil.h:121-181 | non-empty parts without the separator come back from their join |
| SplitJoin.CutTwice | src/basic/stringutil.h:121-181 | cutting, joining and cutting again changes nothing |
| SplitJoin.EmptySeparatorStandsStill | src/basic/stringutil.h:128-146 | with an empty separator anywhere in the list no turn finds a part, and the loop ends if and only if the text is nothing but separators |
| Dns.NameThereAndBack | src/extensions/dns.cpp:39-121 | a written name is read back if and only if it is empty or its labels have 1 to 255 bytes and no dot ends it |
| Dns.FullNameThereAndBack | src/extensions/dns.cpp:71-121 | the reader that follows pointers agrees for labels under 192 bytes |
| Dns.PointerIsFollowed | src/extensions/dns.cpp:77-84 | the offset taken from a compression pointer is the one that is there if and only if it is under 256 |
| Dns.CompressedNameIsRead | src/extensions/dns.cpp:71-98 | a name that ends with such a pointer is read as its labels followed, without a dot, by the name pointed to |
| Dns.NameSizeIs | src/extensions/dns.cpp:54-70 | the size of a name with a zero or with a pointer at its end |
| Dns.AddressesThereAndBack | src/extensions/dns.cpp:154-214 | a written list of addresses is read back in order |
| Dns.AliasThereAndBack | src/extensions/dns.cpp:217-276 | a written alias is read back |
| Dns.MessageThereAndBack | src/extensions/dns.cpp:154-320 | name, type, class and addresses of a message are read back |
| Dns.AliasMessageThereAndBack | src/extensions/dns.cpp:217-320 | name and alias of a message are read back, and no address |
| Dns.CompressedAliasIsRead | src/extensions/dns.cpp:245-276 | a compressed alias is read in whatever record comes first |
| Dns.PointedMessageIsRead | src/extensions/dns.cpp:245-276 | an alias that is the pointer to its question, C0 0C, is the question's name |
| Dns.AliasThenAddresses | src/extensions/dns.cpp:183-276 | in an answer with an alias before addresses both readers find what is theirs |
| Dns.AddressesThenAlias | src/extensions/dns.cpp:183-276 | likewise with the alias behind the addresses |
| Dns.RecordBytes | src/extensions/dns.cpp:154-244 | the head of a record byte by byte: types 1 and 5, class 1, half an hour |
| Dns.QuestionBytes | src/extensions/dns.cpp:99-121 | a question for "a.bc" byte by byte |
| DnsImpl.PutName | src/extensions/dns.cpp:99-121 | the nested loops write the name and nothing else |
| DnsImpl.GetDomainBasic | src/extensions/dns.cpp:39-52 | the reader's loop |
| DnsImpl.GetDomain | src/extensions/dns.cpp:71-98 | the loop of the reader that follows pointers |
| DnsImpl.CountDomainPart | src/extensions/dns.cpp:54-70 | the size of a name in a message |
| DnsImpl.DnsPacket.SetDomain | src/extensions/dns.cpp:279-288 | writes the question's name inside the buffer and notes its size |
| DnsImpl.DnsPacket.SetQtype | src/extensions/dns.cpp:303-308 | writes the type behind the name and nothing else |
| DnsImpl.DnsPacket.SetQclass | src/extensions/dns.cpp:315-320 | writes the class behind the type and nothing else |
| DnsImpl.DnsPacket.SetQuestion | src/extensions/dns.cpp:279-320 | the three calls on a new packet leave name, type and class where the readers look |
| DnsImpl.DnsPacket.SetIps | src/extensions/dns.cpp:154-182 | writes one record per address inside the buffer and sets the count |
| DnsImpl.DnsPacket.SetCname | src/extensions/dns.cpp:217-244 | writes one alias record inside the buffer |
| DnsImpl.DnsPacket.Domain | src/extensions/dns.cpp:289-296 | reads the name and notes its size |
| DnsImpl.DnsPacket.Qtype | src/extensions/dns.cpp:298-302 | reads the type behind the name |
| DnsImpl.DnsPacket.Qclass | src/extensions/dns.cpp:310-314 | reads the class behind the type |
| DnsImpl.DnsPacket.Ips | src/extensions/dns.cpp:183-214 | the addresses of all records, in order |
| DnsImpl.DnsPacket.Cname | src/extensions/dns.cpp:245-276 | the first alias |
| DnsImpl.DnsPacket.PointedCname | src/extensions/dns.cpp:245-276 | cname() of a packet whose alias points to its question is the question's name |
| DnsImpl.DnsPacket.SetAnswer | src/extensions/dns.cpp:154-320 | question and addresses do not disturb each other |
| DnsImpl.DnsPacket.AnsweredIsRead | src/extensions/dns.cpp:183-320 | what the readers find in such a packet is what was set |
| DnsImpl.DnsPacket.SetAliasAnswer | src/extensions/dns.cpp:217-320 | question and alias do not disturb each other |
| DnsImpl.DnsPacket.AliasedIsRead | src/extensions/dns.cpp:245-320 | the readers find the question and the alias in such a packet, and no address |

## Left out

- Stack switching, stack buffers, `ucontext` and `setjmp`: machine level; a switch is the choice of the next step.
- `loopcore`, sockets, adapters and everything in `net`: system calls; readiness and errors are arbitrary steps.
- At-exit callbacks, task names, task-bound values and `reset_task`'s buffers: they do not take part in scheduling.
- The registry's weak and shared pointers: ids are looked up in the registry, and an id without a task finds nothing.
- SchedulerInvariant.RunKeepsCore: assumes orderly steps, because the code loses a task on a tie and leaves an entry behind when an error meets a task twice; `StepKeepsCoreIffNoTie` and `ErrorKeepsCoreIff` say that exactly these break it.
- SchedulerInvariant.StepKeepsCore: for an event, an error and the sweep, which assign several fire times, a tie inside one of them can be hidden again by a later assignment of the same step; the exact statement is about every turn (`EventTurnsKeepIff`, `ErrorTurnsKeepIff`, `SweepTurnsKeepIff`).
- SchedulerStale.ErrorKeepsCoreIff: in the second turn of a task the map finds its entry by task or by time, depending on the shape of the tree; the model looks by time. The entry of the first turn stays either way.
- RoundRobin.RoundRobin: is about rounds in which the ready tasks only yield or finish, as the promise is.
- Semaphore.PermitsConserved: assumes that nobody wakes a waiter of the semaphore by hand and that its timeouts and wakeups are timely.
- `taskqueue::sync`: its caller appends a job and holds; `HeldUntilWoken` says when it goes on. That the job ends with the wakeup of the caller is not part of the queue's model, where jobs are opaque.
- The injector's `disable`, the drain of its pipe after a cancel, and the atomic replacement of its write descriptor.
- Injector.TrueMeansOwnClosureEnded: is about runs of legal steps; `SafeIffLegal` says that exactly the others break it, and `InjectorCaller` what a task that calls can check. Pipes are unbounded, and a thread's `select` is taken to wait its whole timeout, although it drops parts below a microsecond.
- InjectorCaller.TrueMeansAnswered: the loop of the caller and the injector each have a clock of their own, and an answer pipe is reported readable only when an answer is in it.
- Injector: the reader goes on at the time of its last yield; other tasks of the loop are not part of its state, because they do not change which of closure and reader is nearer.
- Resp.ParseEncoded: assumes texts of status, error and integer replies without CRLF and sizes within int, as the format does.
- `content_length_` of a multibulk: no member reads it, and its value depends on the chunks.
- The sub-objects of a parsed reply are values in `RespImpl.RedisObject`: the parser copies the last one, continues the copy and puts it back, where the source continues it in place.
- `redis_connector`: a network client; its own driver of the parser keeps an old size after a continued parse.
- DependOrder.DepOrder: asks for targets without cycles, since the source asserts this, and for finitely many reachable targets, without which its queue never empties.
- LRU copy and move assignment: they keep old index entries. References that `get` returned earlier and that a later hit makes invalid are not followed.
- LruCache.AgreeingRunsKeepPrefix: the condition is sufficient; `FetchingRunsPart` shows that without it the keys can part.
- `filternode::remove_filter_tree`: it returns without unlinking a leaf under a branching parent.
- Line wrapping in `base64_encode`: its width is the constant 0.
- `split` over separators that are C strings: the size of the pointer is taken for their length.
- `url_encode`: letters and digits are those of the C locale.
- The flag bits of the DNS header, its conversion to network order, the length in front of the message, times to live and the resolver functions. The counts of the header are fields of their own.
- Dns.FullNameThereAndBack: stops at labels of 191 bytes, because a longer length reads as a pointer; pointers with an offset of 256 or more are read as the code reads them, which is not what RFC 1035 means.
- `signal`, `eventtrigger`, `any`, `ip_t`, `peer_t`, `hexdump`, `argparser`, `filemgr`, `logs`, `sysinfo`, dates and numbers: they would add only easy members.
