// The steps of the injector made in place: the pipe, the reader task and the calls are fields that
// the threads change one move at a time.
module InjectorImpl {
  import opened Injector

  class PipeLoop {
    var clock: Time
    var pipe: seq<Job>
    var reader: Reader
    var spawned: seq<(Job, Time)>
    var running: map<Id, Job>
    var writing: map<Id, Fd>
    var open: map<Fd, Id>
    var signalled: set<Fd>
    var calls: map<Id, Call>
    var byTask: set<Id>
    ghost var injected: seq<Id>
    ghost var started: seq<Id>
    ghost var finished: set<Id>

    ghost function View(): State
      reads this
    {
      State(clock, pipe, reader, spawned, running, writing, open, signalled, calls, byTask, injected, started, finished)
    }

    constructor ()
      ensures View() == INITIAL
    {
      clock, pipe, reader, spawned := 0.0, [], Waiting, [];
      running, writing, open, signalled, calls, byTask := map[], map[], map[], {}, map[], {};
      injected, started, finished := [], [], {};
    }

    /** What all three ways to inject have in common: one record is written to the pipe. */
    method WriteJob(job: Job)
      modifies this`pipe, this`injected
      ensures pipe == old(pipe) + [job] && injected == old(injected) + [job.id]
    {
      pipe := pipe + [job];
      injected := injected + [job.id];
    }

    method Async(id: Id)
      requires Enabled(View(), AsyncInject(id))
      modifies this
      ensures View() == Apply(old(View()), AsyncInject(id))
    {
      WriteJob(Job(id, None, None));
    }

    /** sync_inject has no deadline, inject_wait has one; both then wait on a pipe of their own. */
    method CallAndWait(id: Id, fd: Fd, deadline: Option<Time>, caller: Caller)
      requires Enabled(View(), CallInject(id, fd, deadline, caller))
      modifies this
      ensures View() == Apply(old(View()), CallInject(id, fd, deadline, caller))
    {
      open := open[fd := id];
      calls := calls[id := Waits(fd, deadline)];
      byTask := if caller == Task then byTask + {id} else byTask;
      WriteJob(Job(id, Some(fd), deadline));
    }

    /** The pipe became readable, or the reader's turn came again. */
    method ReaderGoesOn()
      requires Enabled(View(), Wake) || Enabled(View(), Resume)
      modifies this`reader
      ensures View() == old(View()).(reader := Reading)
      ensures old(Enabled(View(), Wake)) ==> View() == Apply(old(View()), Wake)
      ensures old(Enabled(View(), Resume)) ==> View() == Apply(old(View()), Resume)
    {
      reader := Reading;
    }

    /** One turn of the reader's inner loop: a record becomes a task and the reader yields. */
    method ReaderTurn(added: Time, yielded: Time)
      requires reader.Reading? && clock < added < yielded
      modifies this
      ensures old(pipe) == [] ==> View() == Apply(old(View()), ReadNothing)
      ensures old(pipe) != [] ==> View() == Apply(old(View()), Read(added, yielded))
    {
      if pipe == [] {
        reader := Waiting;
      } else {
        var ij := pipe[0];
        pipe := pipe[1..];
        spawned := spawned + [(ij, added)];
        reader := Yielded(yielded);
        clock := yielded;
      }
    }

    method StartTask(i: nat)
      requires Enabled(View(), Start(i))
      modifies this
      ensures View() == Apply(old(View()), Start(i))
    {
      var job := spawned[i].0;
      spawned := spawned[..i] + spawned[i + 1..];
      running := running[job.id := job];
      started := started + [job.id];
    }

    /** The closure has returned; the task then looks whether its caller still waits. */
    method EndTask(id: Id, now: Time)
      requires Enabled(View(), End(id, now))
      modifies this
      ensures View() == Apply(old(View()), End(id, now))
    {
      var ij := running[id];
      running := running - {id};
      finished := finished + {id};
      clock := now;
      if ij.ioOut != None && (ij.deadline == None || now < ij.deadline.value) {
        writing := writing[id := ij.ioOut.value];
      }
    }

    method WriteAnswer(id: Id)
      requires Enabled(View(), Write(id))
      modifies this
      ensures View() == Apply(old(View()), Write(id))
    {
      var fd := writing[id];
      writing := writing - {id};
      if fd in open {
        signalled := signalled + {fd};
      }
    }

    /** A waiting thread looks at its pipe: its call returns true on an answer, false when its time is over. */
    method Poll(id: Id, now: Time) returns (returned: bool)
      requires WaitsOf(View(), id) && clock <= now
      modifies this
      ensures old(Enabled(View(), ReturnTrue(id))) ==> returned && View() == Apply(old(View()), ReturnTrue(id))
      ensures !old(Enabled(View(), ReturnTrue(id))) && old(Enabled(View(), GiveUp(id, now))) ==>
        returned && View() == Apply(old(View()), GiveUp(id, now))
      ensures !old(Enabled(View(), ReturnTrue(id))) && !old(Enabled(View(), GiveUp(id, now))) ==>
        !returned && View() == old(View())
    {
      var fd, deadline := calls[id].fd, calls[id].deadline;
      returned := true;
      if fd in signalled {
        Close(id, fd, ReturnedTrue);
      } else if deadline.Some? && deadline.value <= now {
        Close(id, fd, ReturnedFalse(deadline));
        clock := now;
      } else {
        returned := false;
      }
    }

    /**
      The wait of a task that called has ended with Received, and nothing but this signal is looked at:
      the call returns true, also when its pipe has no answer in it.
     */
    method Received(id: Id)
      requires WaitsOf(View(), id) && id in byTask
      modifies this
      ensures View() == Apply(old(View()), Roused(id))
      ensures old(Enabled(View(), ReturnTrue(id))) ==> View() == Apply(old(View()), ReturnTrue(id))
    {
      Close(id, calls[id].fd, ReturnedTrue);
    }

    /** The caller is cancelled, or its last signal is Broken: it returns false without looking. */
    method StopWaiting(id: Id)
      requires Enabled(View(), Abandon(id))
      modifies this
      ensures View() == Apply(old(View()), Abandon(id))
    {
      Close(id, calls[id].fd, Abandoned(calls[id].deadline));
    }

    method Close(id: Id, fd: Fd, outcome: Call)
      modifies this`calls, this`open, this`signalled
      ensures calls == old(calls)[id := outcome] && open == old(open) - {fd} && signalled == old(signalled) - {fd}
    {
      calls := calls[id := outcome];
      open := open - {fd};
      signalled := signalled - {fd};
    }
  }
}
