/** The shared state of the task queue and the code sections that change it in place.

    Each method is one atomic section of src/k2k/tasks.rs and is proved to be one action of the
    protocol.  How far every submitter, worker and forwarder has got is ghost state: it stands
    for the program counters of the tasks running elsewhere. */
module TaskQueue {
  import opened Outcomes
  import opened TaskProtocol

  class Queue {
    var tasks: map<Id, TaskEntry>
    var handlers: set<string>
    var permits: nat
    var events: seq<Event>
    ghost var submissions: map<Id, Submission>
    ghost var workers: map<Id, Worker>
    ghost var forwarders: map<Id, Forwarder>
    ghost const maxConcurrent: nat

    ghost function Now(): State
      reads this
    {
      State(tasks, handlers, permits, submissions, workers, forwarders, events)
    }

    ghost predicate Valid()
      reads this
    {
      Inv(Now(), Capacity(maxConcurrent))
    }

    constructor (maxConcurrent: nat)
      ensures Valid() && Now() == Start(maxConcurrent) && this.maxConcurrent == maxConcurrent
      ensures tasks == map[] && handlers == {} && events == []
      ensures permits == if maxConcurrent == 0 then 1 else maxConcurrent
    {
      this.maxConcurrent := maxConcurrent;
      tasks, handlers, permits, events := map[], {}, if maxConcurrent < 1 then 1 else maxConcurrent, [];
      submissions, workers, forwarders := map[], map[], map[];
      new;
      StartInv(maxConcurrent);
    }

    method Register(capability: string)
      requires Valid()
      modifies this`handlers
      ensures Now() == Apply(old(Now()), RegisterHandler(capability)) && Valid()
      ensures handlers == old(handlers) + {capability}
    {
      ActionKeepsInv(Now(), RegisterHandler(capability), Capacity(maxConcurrent));
      assert events == events + [];
      handlers := handlers + {capability};
    }

    // The first section of `submit`: an unknown capability is refused before anything is stored.
    method CheckHandler(ghost id: Id, ghost client: string, capability: string) returns (found: bool)
      requires Valid() && Enabled(Now(), Submit(id, Check(client, capability)))
      modifies this`submissions
      ensures Now() == Apply(old(Now()), Submit(id, Check(client, capability))) && Valid()
      ensures found <==> capability in old(handlers)
    {
      ActionKeepsInv(Now(), Submit(id, Check(client, capability)), Capacity(maxConcurrent));
      assert events == events + [];
      found := capability in handlers;
      if found {
        submissions := submissions[id := Submission(client, capability, Checked)];
      }
    }

    method InsertTask(id: Id, client: string, capability: string)
      requires Valid() && Enabled(Now(), Submit(id, Insert))
      requires submissions[id].client == client && submissions[id].capability == capability
      modifies this`tasks, this`submissions
      ensures Now() == Apply(old(Now()), Submit(id, Insert)) && Valid()
      ensures tasks == old(tasks)[id := TaskEntry(client, capability, Queued, None, None, None)]
    {
      ActionKeepsInv(Now(), Submit(id, Insert), Capacity(maxConcurrent));
      assert events == events + [];
      tasks := tasks[id := TaskEntry(client, capability, Queued, None, None, None)];
      submissions := submissions[id := submissions[id].(phase := Inserted)];
    }

    method SendQueued(id: Id, client: string)
      requires Valid() && Enabled(Now(), Submit(id, Announce)) && submissions[id].client == client
      modifies this`events, this`submissions
      ensures Now() == Apply(old(Now()), Submit(id, Announce)) && Valid()
      ensures events == old(events) + [Event(id, client, QueuedEvent)]
    {
      ActionKeepsInv(Now(), Submit(id, Announce), Capacity(maxConcurrent));
      assert events == events + [];
      events := events + [Event(id, client, QueuedEvent)];
      submissions := submissions[id := submissions[id].(phase := QueuedSent)];
    }

    ghost method SpawnWorker(id: Id)
      requires Valid() && Enabled(Now(), Submit(id, Spawn))
      modifies this`submissions, this`workers
      ensures Now() == Apply(old(Now()), Submit(id, Spawn)) && Valid()
    {
      ActionKeepsInv(Now(), Submit(id, Spawn), Capacity(maxConcurrent));
      assert events == events + [];
      workers := workers[id := Worker(submissions[id].client, submissions[id].capability, Waiting)];
      submissions := submissions - {id};
    }

    // Enabled only while a permit is free: the semaphore blocks the worker until then.
    method AcquirePermit(ghost id: Id)
      requires Valid() && Enabled(Now(), Work(id, Acquire))
      modifies this`permits, this`workers
      ensures Now() == Apply(old(Now()), Work(id, Acquire)) && Valid()
      ensures permits == old(permits) - 1
    {
      ActionKeepsInv(Now(), Work(id, Acquire), Capacity(maxConcurrent));
      assert events == events + [];
      permits := permits - 1;
      workers := Advance(Now(), id, Holding);
    }

    method SetRunning(id: Id)
      requires Valid() && Enabled(Now(), Work(id, MarkRunning))
      modifies this`tasks, this`workers
      ensures Now() == Apply(old(Now()), Work(id, MarkRunning)) && Valid()
      ensures id in old(tasks) && tasks == old(tasks)[id := old(tasks)[id].(status := Running)]
    {
      assert ViewOk(View(Now(), id));
      ActionKeepsInv(Now(), Work(id, MarkRunning), Capacity(maxConcurrent));
      assert events == events + [];
      if id in tasks {
        tasks := tasks[id := tasks[id].(status := Running)];
      }
      workers := Advance(Now(), id, Marked);
    }

    method SendRunning(id: Id, client: string)
      requires Valid() && Enabled(Now(), Work(id, AnnounceRunning)) && workers[id].client == client
      modifies this`events, this`workers
      ensures Now() == Apply(old(Now()), Work(id, AnnounceRunning)) && Valid()
      ensures events == old(events) + [Event(id, client, RunningEvent)]
    {
      ActionKeepsInv(Now(), Work(id, AnnounceRunning), Capacity(maxConcurrent));
      assert events == events + [];
      events := events + [Event(id, client, RunningEvent)];
      workers := Advance(Now(), id, RunningSent);
    }

    // The worker's handler look-up always succeeds, so its "Handler not found" branch is dead.
    method FindHandler(ghost id: Id, capability: string) returns (found: bool)
      requires Valid() && Enabled(Now(), Work(id, Lookup)) && workers[id].capability == capability
      modifies this`workers, this`forwarders
      ensures Now() == Apply(old(Now()), Work(id, Lookup)) && Valid()
      ensures found
    {
      ActionKeepsInv(Now(), Work(id, Lookup), Capacity(maxConcurrent));
      assert events == events + [];
      found := capability in handlers;
      forwarders := forwarders[id := Forwarder(workers[id].client, None)];
      workers := Advance(Now(), id, Executing);
    }

    // The last section of a worker: outcome, status and final event under one lock.
    method FinishTask(id: Id, client: string, ending: Ending)
      requires Valid() && Enabled(Now(), Work(id, Finish(ending))) && workers[id].client == client
      modifies this`tasks, this`events, this`workers
      ensures Now() == Apply(old(Now()), Work(id, Finish(ending))) && Valid()
      ensures id in old(tasks) && var entry := old(tasks)[id];
        match ending
        case Succeeded(result) =>
          && tasks == old(tasks)[id := entry.(status := Completed, result := Some(result), progress := Some(100))]
          && events == old(events) + [Event(id, client, CompletedEvent)]
        case Errored(message) =>
          && tasks == old(tasks)[id := entry.(status := Failed, error := Some(message))]
          && events == old(events) + [Event(id, client, FailedEvent)]
        case TimedOut(seconds) =>
          && tasks == old(tasks)[id := entry.(status := Failed,
                                              error := Some("Task timed out after " + Decimal(seconds) + "s"))]
          && events == old(events) + [Event(id, client, FailedEvent)]
    {
      assert ViewOk(View(Now(), id));
      ActionKeepsInv(Now(), Work(id, Finish(ending)), Capacity(maxConcurrent));
      assert events == events + [];
      match ending {
        case Succeeded(result) =>
          if id in tasks {
            tasks := tasks[id := tasks[id].(status := Completed, result := Some(result), progress := Some(100))];
          }
          events := events + [Event(id, client, CompletedEvent)];
        case _ =>
          if id in tasks {
            tasks := tasks[id := tasks[id].(status := Failed, error := Some(Message(ending)))];
          }
          events := events + [Event(id, client, FailedEvent)];
      }
      workers := Advance(Now(), id, Finished);
    }

    method ReleasePermit(ghost id: Id)
      requires Valid() && Enabled(Now(), Work(id, Release))
      modifies this`permits, this`workers
      ensures Now() == Apply(old(Now()), Work(id, Release)) && Valid()
      ensures permits == old(permits) + 1
    {
      ActionKeepsInv(Now(), Work(id, Release), Capacity(maxConcurrent));
      assert events == events + [];
      permits := permits + 1;
      workers := Advance(Now(), id, Done);
    }

    method StoreProgress(id: Id, pct: nat)
      requires Valid() && Enabled(Now(), Forward(id, Write(pct)))
      modifies this`tasks, this`forwarders
      ensures Now() == Apply(old(Now()), Forward(id, Write(pct))) && Valid()
      ensures id in old(tasks) && tasks == old(tasks)[id := old(tasks)[id].(progress := Some(pct))]
    {
      assert ViewOk(View(Now(), id));
      ActionKeepsInv(Now(), Forward(id, Write(pct)), Capacity(maxConcurrent));
      assert events == events + [];
      if id in tasks {
        tasks := tasks[id := tasks[id].(progress := Some(pct))];
      }
      forwarders := forwarders[id := forwarders[id].(pending := Some(pct))];
    }

    method SendProgress(id: Id, client: string, pct: nat)
      requires Valid() && Enabled(Now(), Forward(id, Send)) && forwarders[id] == Forwarder(client, Some(pct))
      modifies this`events, this`forwarders
      ensures Now() == Apply(old(Now()), Forward(id, Send)) && Valid()
      ensures events == old(events) + [Event(id, client, ProgressEvent(pct))]
    {
      ActionKeepsInv(Now(), Forward(id, Send), Capacity(maxConcurrent));
      events := events + [Event(id, client, ProgressEvent(pct))];
      forwarders := forwarders[id := forwarders[id].(pending := None)];
    }

    // `cancel_for_client`: a task of another client looks as if it did not exist.
    method CancelForClient(id: Id, client: string) returns (r: Option<bool>)
      requires Valid()
      modifies this`tasks, this`events
      ensures Now() == Apply(old(Now()), Cancel(id, Some(client))) && Valid()
      ensures
        if id in old(tasks) && old(tasks)[id].client == client &&
           (old(tasks)[id].status == Queued || old(tasks)[id].status == Running)
        then
          && tasks == old(tasks)[id := old(tasks)[id].(status := Cancelled)]
          && events == old(events) + [Event(id, old(tasks)[id].client, CancelledEvent)]
        else tasks == old(tasks) && events == old(events)
      ensures r.None? <==> id !in old(tasks) || old(tasks)[id].client != client
      ensures r.Some? ==> (r.value <==> old(tasks)[id].status == Queued || old(tasks)[id].status == Running)
    {
      ActionKeepsInv(Now(), Cancel(id, Some(client)), Capacity(maxConcurrent));
      assert events == events + [];
      if id !in tasks || tasks[id].client != client {
        return None;
      }
      var done := CancelStored(id);
      return Some(done);
    }

    // `cancel`: the same without the ownership check.
    method CancelAny(id: Id) returns (done: bool)
      requires Valid()
      modifies this`tasks, this`events
      ensures Now() == Apply(old(Now()), Cancel(id, None)) && Valid()
      ensures
        if id in old(tasks) && (old(tasks)[id].status == Queued || old(tasks)[id].status == Running)
        then
          && tasks == old(tasks)[id := old(tasks)[id].(status := Cancelled)]
          && events == old(events) + [Event(id, old(tasks)[id].client, CancelledEvent)]
        else tasks == old(tasks) && events == old(events)
      ensures done <==> id in old(tasks) && (old(tasks)[id].status == Queued || old(tasks)[id].status == Running)
    {
      ActionKeepsInv(Now(), Cancel(id, None), Capacity(maxConcurrent));
      assert events == events + [];
      if id !in tasks {
        return false;
      }
      done := CancelStored(id);
    }

    method CancelStored(id: Id) returns (done: bool)
      requires id in tasks
      modifies this`tasks, this`events
      ensures Now() == Apply(old(Now()), Cancel(id, None))
      ensures done <==> old(tasks)[id].status == Queued || old(tasks)[id].status == Running
    {
      done := tasks[id].status == Queued || tasks[id].status == Running;
      if done {
        tasks := tasks[id := tasks[id].(status := Cancelled)];
        events := events + [Event(id, tasks[id].client, CancelledEvent)];
      }
    }

    // `get_status_for_client`: only the owner sees a task.
    method GetStatusForClient(id: Id, client: string) returns (r: Option<TaskEntry>)
      ensures r.Some? <==> id in tasks && tasks[id].client == client
      ensures r.Some? ==> r.value == tasks[id]
    {
      if id in tasks && tasks[id].client == client {
        return Some(tasks[id]);
      }
      return None;
    }
  }
}
