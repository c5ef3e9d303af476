/** Progress of the task queue: the protocol never locks up, and the work that has been submitted
    runs out in every interleaving and leaves every stored task completed or failed. */
module TaskProgress {
  import opened Outcomes
  import opened TaskProtocol

  // At most how many steps of its own a submission or a worker has before it.
  function StepsLeft(submission: Option<Submission>, worker: Option<Worker>): nat {
    if submission.Some? then
      match submission.value.phase
      case Checked => 10
      case Inserted => 9
      case QueuedSent => 8
    else if worker.Some? then
      match worker.value.phase
      case Waiting => 7
      case Holding => 6
      case Marked => 5
      case RunningSent => 4
      case Missing => 3
      case Executing => 3
      case Finished => 1
      case Done => 0
    else 0
  }

  function Left(s: State, id: Id): nat { StepsLeft(Find(s.submissions, id), Find(s.workers, id)) }

  function Known(s: State): set<Id> { s.submissions.Keys + s.workers.Keys }

  ghost function Sum(s: State, ids: set<Id>): nat {
    if ids == {} then 0
    else
      var x :| x in ids;
      Left(s, x) + Sum(s, ids - {x})
  }

  // The work that is left in all.
  ghost function Remaining(s: State): nat { Sum(s, Known(s)) }

  // The actions that take a submission or a worker forward, as opposed to new submissions,
  // cancellations and progress reports.
  predicate IsStep(a: Action) { (a.Submit? && !a.submit.Check?) || a.Work? }

  // A step that drops no submission and in which a handler that ends has the given ending.
  predicate IsAdvance(a: Action, ending: Id -> Ending) {
    match a
    case Submit(_, sub) => sub.Insert? || sub.Announce? || sub.Spawn?
    case Work(id, w) => w.Finish? ==> w.ending == ending(id)
    case _ => false
  }

  predicate IsNewTask(a: Action) { a.Submit? && a.submit.Check? }

  // ---- the sum over all ids ----

  lemma {:induction false} SumTakesOut(s: State, ids: set<Id>, id: Id)
    requires id in ids
    ensures Sum(s, ids) == Left(s, id) + Sum(s, ids - {id})
  {
    var x :| x in ids && Sum(s, ids) == Left(s, x) + Sum(s, ids - {x});
    if x != id {
      SumTakesOut(s, ids - {x}, id);
      SumTakesOut(s, ids - {id}, x);
      assert ids - {x} - {id} == ids - {id} - {x};
    }
  }

  lemma {:induction false} SumAgrees(s: State, t: State, ids: set<Id>)
    requires forall x :: x in ids ==> Left(s, x) == Left(t, x)
    ensures Sum(s, ids) == Sum(t, ids)
  {
    if ids != {} {
      var x :| x in ids && Sum(s, ids) == Left(s, x) + Sum(s, ids - {x});
      SumAgrees(s, t, ids - {x});
      SumTakesOut(t, ids, x);
    }
  }

  // Ids that nobody works on add nothing.
  lemma {:induction false} SumOfMore(s: State, id: Id)
    ensures Sum(s, Known(s) + {id}) == Remaining(s)
  {
    if id in Known(s) {
      assert Known(s) + {id} == Known(s);
    } else {
      SumTakesOut(s, Known(s) + {id}, id);
      assert Known(s) + {id} - {id} == Known(s);
    }
  }

  // ---- what one action does to it ----

  lemma {:induction false} LeftElsewhere(s: State, a: Action, d: Id)
    requires Enabled(s, a) && !About(a, d)
    ensures Left(Apply(s, a), d) == Left(s, d)
  {
    ElsewhereStays(s, a, d);
    var v, v' := View(s, d), View(Change(s, a), d);
    assert v.submission == v'.submission && v.worker == v'.worker;
  }

  lemma {:induction false} KnownAfterSubmit(s: State, id: Id, a: SubmitAction)
    requires SubmitEnabled(s, id, a)
    ensures Known(s) + {id} == Known(SubmitChange(s, id, a)) + {id}
  {
  }

  lemma {:induction false} KnownAfterWork(s: State, id: Id, a: WorkAction)
    requires WorkEnabled(s, id, a)
    ensures Known(WorkChange(s, id, a)) == Known(s)
  {
  }

  lemma {:induction false} KnownAfter(s: State, a: Action)
    requires Enabled(s, a) && !a.RegisterHandler?
    ensures Known(s) + {a.id} == Known(Apply(s, a)) + {a.id}
  {
    assert Known(Apply(s, a)) == Known(Change(s, a));
    match a
    case Submit(id, sub) => KnownAfterSubmit(s, id, sub);
    case Work(id, w) => KnownAfterWork(s, id, w);
    case _ =>
  }

  lemma {:induction false} WorkMovesByOne(s: State, a: Action)
    requires Enabled(s, a) && !a.RegisterHandler?
    ensures Remaining(Apply(s, a)) - Remaining(s) == Left(Apply(s, a), a.id) - Left(s, a.id)
  {
    var t := Apply(s, a);
    var ids := Known(s) + {a.id};
    KnownAfter(s, a);
    SumOfMore(s, a.id);
    SumOfMore(t, a.id);
    SumTakesOut(s, ids, a.id);
    SumTakesOut(t, ids, a.id);
    forall d | d in ids - {a.id} ensures Left(s, d) == Left(t, d) {
      LeftElsewhere(s, a, d);
    }
    SumAgrees(s, t, ids - {a.id});
  }

  lemma {:induction false} SubmitStepHere(s: State, id: Id, a: SubmitAction)
    requires SubmitEnabled(s, id, a) && !a.Check? && ViewOk(View(s, id))
    ensures Left(SubmitChange(s, id, a), id) < Left(s, id)
  {
    assert View(s, id).worker.None?;
  }

  lemma {:induction false} WorkStepHere(s: State, id: Id, a: WorkAction)
    requires WorkEnabled(s, id, a) && id !in s.submissions
    ensures Left(WorkChange(s, id, a), id) < Left(s, id)
  {
  }

  lemma {:induction false} StepHere(s: State, a: Action)
    requires Enabled(s, a) && IsStep(a) && ViewOk(View(s, a.id))
    ensures Left(Apply(s, a), a.id) < Left(s, a.id)
  {
    match a
    case Submit(id, sub) => SubmitStepHere(s, id, sub);
    case Work(id, w) =>
      assert View(s, id).submission.None?;
      WorkStepHere(s, id, w);
  }

  // Every step uses up work; only a new submission brings any.
  lemma {:induction false} StepsUseUpWork(s: State, a: Action, capacity: nat)
    requires Inv(s, capacity) && Enabled(s, a)
    ensures IsStep(a) ==> Remaining(Apply(s, a)) < Remaining(s)
    ensures !IsStep(a) && !IsNewTask(a) ==> Remaining(Apply(s, a)) == Remaining(s)
  {
    if a.RegisterHandler? {
      assert Known(Apply(s, a)) == Known(s);
      forall d | d in Known(s) ensures Left(s, d) == Left(Apply(s, a), d) {
        LeftElsewhere(s, a, d);
      }
      SumAgrees(s, Apply(s, a), Known(s));
    } else {
      WorkMovesByOne(s, a);
      if IsStep(a) {
        assert ViewOk(View(s, a.id));
        StepHere(s, a);
      }
    }
  }

  // ---- no deadlock ----

  // Nobody is submitting and every worker is done.
  ghost predicate Quiet(s: State) { forall id :: id in Known(s) ==> Left(s, id) == 0 }

  function SubmitStep(phase: SubmitPhase): SubmitAction {
    match phase
    case Checked => Insert
    case Inserted => Announce
    case QueuedSent => Spawn
  }

  function WorkStep(phase: WorkPhase, ending: Ending): WorkAction
    requires phase != Done
  {
    match phase
    case Waiting => Acquire
    case Holding => MarkRunning
    case Marked => AnnounceRunning
    case RunningSent => Lookup
    case Missing => FailMissing
    case Executing => Finish(ending)
    case Finished => Release
  }

  // If anything is left to do, something can be done: while a permit is held its holder can go on,
  // and while none is held a waiting worker can have one.
  lemma {:induction false} NeverStuck(s: State, capacity: nat, ending: Id -> Ending) returns (a: Action)
    requires Inv(s, capacity) && capacity >= 1 && !Quiet(s)
    ensures IsStep(a) && IsAdvance(a, ending) && Enabled(s, a)
  {
    if id: Id :| id in s.submissions {
      a := Submit(id, SubmitStep(s.submissions[id].phase));
    } else if id: Id :| id in Holders(s) {
      a := Work(id, WorkStep(s.workers[id].phase, ending(id)));
    } else {
      assert Holders(s) == {};
      var id :| id in Known(s) && Left(s, id) != 0;
      assert id !in s.submissions && id !in Holders(s);
      a := Work(id, Acquire);
    }
  }

  // A reachable state has no step to take exactly when it is quiet, and then every stored task is
  // completed or failed and every permit is free.
  lemma {:induction false} QuietIffNoStep(s: State, maxConcurrent: nat)
    requires Reachable(s, maxConcurrent)
    ensures Quiet(s) <==> forall a :: IsStep(a) ==> !Enabled(s, a)
    ensures Quiet(s) ==> s.permits == Capacity(maxConcurrent) && forall id :: id in s.tasks ==> Terminal(s.tasks[id])
  {
    ReachableInv(s, maxConcurrent);
    if !Quiet(s) {
      var a := NeverStuck(s, Capacity(maxConcurrent), id => TimedOut(0));
    } else {
      forall a | IsStep(a) ensures !Enabled(s, a) {
        QuietHasNoStep(s, a);
      }
      QuietIsFinished(s, Capacity(maxConcurrent));
    }
  }

  lemma {:induction false} QuietHasNoStep(s: State, a: Action)
    requires Quiet(s) && IsStep(a) && ViewOk(View(s, a.id))
    ensures !Enabled(s, a)
  {
    if Enabled(s, a) {
      assert a.id in Known(s);
      StepHere(s, a);
    }
  }

  lemma {:induction false} QuietIsFinished(s: State, capacity: nat)
    requires Inv(s, capacity) && Quiet(s)
    ensures s.permits == capacity && s.submissions == map[]
    ensures forall id :: id in s.tasks ==> Terminal(s.tasks[id])
  {
    forall id ensures id !in s.submissions {
      assert id in s.submissions ==> id in Known(s) && Left(s, id) >= 8;
    }
    forall id ensures id !in Holders(s) {
      assert id in s.workers ==> ViewOk(View(s, id)) && Left(s, id) == 0;
    }
    assert Holders(s) == {};
    forall id | id in s.tasks ensures Terminal(s.tasks[id]) {
      assert ViewOk(View(s, id));
      assert id in Known(s);
    }
  }

  // ---- whole runs ----

  function Steps(actions: seq<Action>): nat {
    if actions == [] then 0
    else Steps(actions[..|actions| - 1]) + if IsStep(actions[|actions| - 1]) then 1 else 0
  }

  // However the actions interleave, no run without new submissions takes more steps than the work
  // that was left.
  lemma {:induction false} WorkRunsOut(s: State, maxConcurrent: nat, later: seq<Action>)
    requires Reachable(s, maxConcurrent) && Legal(s, later)
    requires forall i :: 0 <= i < |later| ==> !IsNewTask(later[i])
    ensures Steps(later) + Remaining(Run(s, later)) <= Remaining(s)
  {
    if later != [] {
      var init := later[..|later| - 1];
      WorkRunsOut(s, maxConcurrent, init);
      ReachableInv(s, maxConcurrent);
      RunKeepsInv(s, init, Capacity(maxConcurrent));
      StepsUseUpWork(Run(s, init), later[|later| - 1], Capacity(maxConcurrent));
    }
  }

  predicate Ended(e: TaskEntry, ending: Ending) {
    if ending.Succeeded? then e.status == Completed && e.result == Some(ending.result)
    else e.status == Failed && e.error == Some(Message(ending))
  }

  // What a task of state s has come to in a later state t: if it had an outcome it keeps it;
  // otherwise it is still being submitted, or stored, and its outcome, if any, is its handler's ending.
  predicate Tracks(s: State, t: State, ending: Id -> Ending, id: Id) {
    if id in s.tasks && Terminal(s.tasks[id]) then id in t.tasks && SameOutcome(s.tasks[id], t.tasks[id])
    else id in t.submissions || (id in t.tasks && (Terminal(t.tasks[id]) ==> Ended(t.tasks[id], ending(id))))
  }

  lemma {:induction false} SubmitTracks(s: State, t: State, a: SubmitAction, ending: Id -> Ending, id: Id)
    requires SubmitEnabled(t, id, a) && IsAdvance(Submit(id, a), ending) && ViewOk(View(t, id))
    requires Tracks(s, t, ending, id) && !(id in s.tasks && Terminal(s.tasks[id]))
    ensures Tracks(s, SubmitChange(t, id, a), ending, id)
  {
    assert SubmissionOk(View(t, id));
  }

  lemma {:induction false} WorkTracks(s: State, t: State, a: WorkAction, ending: Id -> Ending, id: Id)
    requires WorkEnabled(t, id, a) && IsAdvance(Work(id, a), ending) && ViewOk(View(t, id))
    requires Tracks(s, t, ending, id) && !(id in s.tasks && Terminal(s.tasks[id]))
    ensures Tracks(s, WorkChange(t, id, a), ending, id)
  {
    assert WorkerOk(View(t, id));
  }

  lemma {:induction false} ElsewhereTracks(s: State, t: State, a: Action, ending: Id -> Ending, id: Id)
    requires Enabled(t, a) && !About(a, id) && Tracks(s, t, ending, id)
    ensures Tracks(s, Apply(t, a), ending, id)
  {
    ElsewhereStays(t, a, id);
    var v, v' := View(t, id), View(Change(t, a), id);
    assert v.entry == v'.entry && v.submission == v'.submission;
  }

  lemma {:induction false} ActionTracks(s: State, t: State, a: Action, ending: Id -> Ending, id: Id)
    requires Enabled(t, a) && IsAdvance(a, ending) && ViewOk(View(t, id)) && Tracks(s, t, ending, id)
    ensures Tracks(s, Apply(t, a), ending, id)
  {
    if id in s.tasks && Terminal(s.tasks[id]) {
      ActionKeepsOutcome(t, a, id);
    } else if !About(a, id) {
      ElsewhereTracks(s, t, a, ending, id);
    } else {
      match a
      case Submit(_, sub) => SubmitTracks(s, t, sub, ending, id);
      case Work(_, w) => WorkTracks(s, t, w, ending, id);
    }
  }

  lemma {:induction false} RunTracks(s: State, run: seq<Action>, capacity: nat, ending: Id -> Ending, id: Id)
    requires Inv(s, capacity) && Legal(s, run) && (id in s.tasks || id in s.submissions)
    requires forall i :: 0 <= i < |run| ==> IsAdvance(run[i], ending)
    ensures Tracks(s, Run(s, run), ending, id)
  {
    if run != [] {
      var init := run[..|run| - 1];
      RunTracks(s, init, capacity, ending, id);
      RunKeepsInv(s, init, capacity);
      assert ViewOk(View(Run(s, init), id));
      ActionTracks(s, Run(s, init), run[|run| - 1], ending, id);
    }
  }

  lemma {:induction false} OneStepOn(s: State, capacity: nat, run: seq<Action>, ending: Id -> Ending)
    returns (a: Action)
    requires Inv(s, capacity) && capacity >= 1 && Legal(s, run) && !Quiet(Run(s, run))
    ensures IsAdvance(a, ending) && Legal(s, run + [a]) && Remaining(Run(s, run + [a])) < Remaining(Run(s, run))
  {
    RunKeepsInv(s, run, capacity);
    a := NeverStuck(Run(s, run), capacity, ending);
    StepsUseUpWork(Run(s, run), a, capacity);
    OneMore(s, run, a, Run(s, run));
  }

  lemma {:induction false} RunToQuiet(s: State, capacity: nat, run: seq<Action>, ending: Id -> Ending)
    returns (all: seq<Action>)
    requires Inv(s, capacity) && capacity >= 1 && Legal(s, run)
    requires forall i :: 0 <= i < |run| ==> IsAdvance(run[i], ending)
    ensures Legal(s, all) && Quiet(Run(s, all))
    ensures forall i :: 0 <= i < |all| ==> IsAdvance(all[i], ending)
    decreases Remaining(Run(s, run))
  {
    if Quiet(Run(s, run)) {
      all := run;
    } else {
      var a := OneStepOn(s, capacity, run, ending);
      all := RunToQuiet(s, capacity, run + [a], ending);
    }
  }

  // In state t every task that was stored or being submitted in state s has an outcome, the one its
  // handler returned unless it had one before; nothing is being submitted and all permits are free.
  ghost predicate HasFinished(s: State, t: State, ending: Id -> Ending, capacity: nat) {
    && t.permits == capacity && t.submissions == map[]
    && (forall id :: id in t.tasks ==> Terminal(t.tasks[id]))
    && s.tasks.Keys + s.submissions.Keys <= t.tasks.Keys
    && forall id :: id in s.tasks.Keys + s.submissions.Keys ==>
         if id in s.tasks && Terminal(s.tasks[id]) then SameOutcome(s.tasks[id], t.tasks[id])
         else Ended(t.tasks[id], ending(id))
  }

  lemma {:induction false} QuietHasFinished(s: State, t: State, ending: Id -> Ending, capacity: nat)
    requires Inv(t, capacity) && Quiet(t)
    requires forall id :: id in s.tasks.Keys + s.submissions.Keys ==> Tracks(s, t, ending, id)
    ensures HasFinished(s, t, ending, capacity)
  {
    QuietIsFinished(t, capacity);
    forall id | id in s.tasks.Keys + s.submissions.Keys ensures id in t.tasks {
      assert Tracks(s, t, ending, id);
    }
  }

  // From every reachable state the submissions and workers alone can finish, whatever each handler
  // returns and without dropping a submission.
  lemma {:induction false} EveryStateCanFinish(s: State, maxConcurrent: nat, ending: Id -> Ending)
    returns (later: seq<Action>)
    requires Reachable(s, maxConcurrent)
    ensures Legal(s, later) && |later| <= Remaining(s)
    ensures forall i :: 0 <= i < |later| ==> IsAdvance(later[i], ending)
    ensures HasFinished(s, Run(s, later), ending, Capacity(maxConcurrent))
  {
    ReachableInv(s, maxConcurrent);
    later := RunToQuiet(s, Capacity(maxConcurrent), [], ending);
    RunKeepsInv(s, later, Capacity(maxConcurrent));
    forall id | id in s.tasks.Keys + s.submissions.Keys ensures Tracks(s, Run(s, later), ending, id) {
      RunTracks(s, later, Capacity(maxConcurrent), ending, id);
    }
    QuietHasFinished(s, Run(s, later), ending, Capacity(maxConcurrent));
    AdvancesAreSteps(later, ending);
    WorkRunsOut(s, maxConcurrent, later);
  }

  lemma {:induction false} AdvancesAreSteps(actions: seq<Action>, ending: Id -> Ending)
    requires forall i :: 0 <= i < |actions| ==> IsAdvance(actions[i], ending)
    ensures forall i :: 0 <= i < |actions| ==> !IsNewTask(actions[i])
    ensures Steps(actions) == |actions|
  {
    if actions != [] {
      AdvancesAreSteps(actions[..|actions| - 1], ending);
    }
  }
}
