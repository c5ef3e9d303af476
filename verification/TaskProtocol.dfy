/** The task queue of src/k2k/tasks.rs as a protocol: submitters, workers behind a semaphore,
    progress forwarders and cancellers interleave, one atomic action at a time.

    An action is a stretch of code that holds a lock, or the sending of one event. */
module TaskProtocol {
  import opened Outcomes
  import opened Sets

  type Id = string

  datatype Status = Queued | Running | Completed | Failed | Cancelled

  datatype TaskResult = TaskResult(data: string, durationMs: nat)

  datatype TaskEntry = TaskEntry(client: string, capability: string, status: Status,
                                 result: Option<TaskResult>, error: Option<string>, progress: Option<nat>)

  datatype EventKind = QueuedEvent | RunningEvent | CancelledEvent | ProgressEvent(pct: nat)
                     | CompletedEvent | FailedEvent

  datatype Event = Event(task: Id, client: string, kind: EventKind)

  // How a handler's execution ended: its value, its error, or the timeout.
  datatype Ending = Succeeded(result: TaskResult) | Errored(message: string) | TimedOut(seconds: nat)

  datatype SubmitPhase = Checked | Inserted | QueuedSent

  datatype WorkPhase = Waiting | Holding | Marked | RunningSent | Missing | Executing | Finished | Done

  datatype Submission = Submission(client: string, capability: string, phase: SubmitPhase)

  datatype Worker = Worker(client: string, capability: string, phase: WorkPhase)

  // `pending` is the percentage that has been stored but not yet announced.
  datatype Forwarder = Forwarder(client: string, pending: Option<nat>)

  datatype State = State(tasks: map<Id, TaskEntry>, handlers: set<string>, permits: nat,
                         submissions: map<Id, Submission>, workers: map<Id, Worker>,
                         forwarders: map<Id, Forwarder>, events: seq<Event>)

  function Capacity(maxConcurrent: nat): nat { if maxConcurrent < 1 then 1 else maxConcurrent }

  function Start(maxConcurrent: nat): State {
    State(map[], {}, Capacity(maxConcurrent), map[], map[], map[], [])
  }

  datatype SubmitAction = Check(client: string, capability: string) | Reject | Insert | Announce | Spawn

  datatype WorkAction = Acquire | MarkRunning | AnnounceRunning | Lookup | FailMissing | Finish(ending: Ending)
                      | Release

  datatype ForwardAction = Write(pct: nat) | Send

  // `asker` is the client that asks for the cancellation, when its ownership is to be checked.
  datatype Action =
    | RegisterHandler(capability: string)
    | Submit(id: Id, submit: SubmitAction)
    | Work(id: Id, work: WorkAction)
    | Forward(id: Id, forward: ForwardAction)
    | Cancel(id: Id, asker: Option<string>)

  predicate Submitting(s: State, id: Id, phase: SubmitPhase) {
    id in s.submissions && s.submissions[id].phase == phase
  }

  predicate Working(s: State, id: Id, phase: WorkPhase) {
    id in s.workers && s.workers[id].phase == phase
  }

  predicate SubmitEnabled(s: State, id: Id, a: SubmitAction) {
    match a
    case Check(_, _) => id !in s.submissions && id !in s.workers  // a new UUID
    case Reject => Submitting(s, id, Checked)
    case Insert => Submitting(s, id, Checked)
    case Announce => Submitting(s, id, Inserted)
    case Spawn => Submitting(s, id, QueuedSent)
  }

  predicate WorkEnabled(s: State, id: Id, a: WorkAction) {
    match a
    case Acquire => Working(s, id, Waiting) && s.permits > 0
    case MarkRunning => Working(s, id, Holding)
    case AnnounceRunning => Working(s, id, Marked)
    case Lookup => Working(s, id, RunningSent)
    case FailMissing => Working(s, id, Missing)
    case Finish(_) => Working(s, id, Executing)
    case Release => Working(s, id, Finished)
  }

  predicate ForwardEnabled(s: State, id: Id, a: ForwardAction) {
    id in s.forwarders && (a.Write? <==> s.forwarders[id].pending.None?)
  }

  predicate Enabled(s: State, a: Action) {
    match a
    case RegisterHandler(_) => true
    case Submit(id, sub) => SubmitEnabled(s, id, sub)
    case Work(id, w) => WorkEnabled(s, id, w)
    case Forward(id, f) => ForwardEnabled(s, id, f)
    case Cancel(_, _) => true
  }

  function Advance(s: State, id: Id, phase: WorkPhase): map<Id, Worker>
    requires id in s.workers
  {
    s.workers[id := s.workers[id].(phase := phase)]
  }

  function SetStatus(s: State, id: Id, status: Status): map<Id, TaskEntry> {
    if id in s.tasks then s.tasks[id := s.tasks[id].(status := status)] else s.tasks
  }

  function Fail(s: State, id: Id, message: string): map<Id, TaskEntry> {
    if id in s.tasks then s.tasks[id := s.tasks[id].(status := Failed, error := Some(message))] else s.tasks
  }

  function Complete(s: State, id: Id, result: TaskResult): map<Id, TaskEntry> {
    if id in s.tasks
    then s.tasks[id := s.tasks[id].(status := Completed, result := Some(result), progress := Some(100))]
    else s.tasks
  }

  predicate Cancellable(s: State, id: Id) {
    id in s.tasks && (s.tasks[id].status == Queued || s.tasks[id].status == Running)
  }

  function Decimal(n: nat): string {
    (if n < 10 then "" else Decimal(n / 10)) + [('0' as int + n % 10) as char]
  }

  // The number a decimal numeral stands for.
  function Numeral(s: string): int {
    if s == "" then 0 else 10 * Numeral(s[..|s| - 1]) + (s[|s| - 1] as int - '0' as int)
  }

  lemma {:induction false} NumeralSnoc(s: string, digit: nat)
    requires digit < 10
    ensures Numeral(s + [('0' as int + digit) as char]) == 10 * Numeral(s) + digit
  {
    assert (s + [('0' as int + digit) as char])[..|s|] == s;
  }

  // The digits of the message read back as the number, without leading zeros.
  lemma {:induction false} DecimalReadsBack(n: nat)
    ensures Numeral(Decimal(n)) == n
    ensures Decimal(n) != "" && (Decimal(n)[0] == '0' <==> n == 0)
    ensures forall i :: 0 <= i < |Decimal(n)| ==> '0' <= Decimal(n)[i] <= '9'
  {
    var before := if n < 10 then "" else Decimal(n / 10);
    if n >= 10 {
      DecimalReadsBack(n / 10);
    }
    NumeralSnoc(before, n % 10);
    assert Decimal(n) == before + [('0' as int + n % 10) as char];
  }

  function Message(ending: Ending): string
    requires !ending.Succeeded?
  {
    match ending
    case Errored(m) => m
    case TimedOut(seconds) => "Task timed out after " + Decimal(seconds) + "s"
  }

  // A cancellation takes effect for a queued or running task, and only for its owner.
  predicate Cancels(s: State, id: Id, asker: Option<string>) {
    Cancellable(s, id) && (asker == None || asker == Some(s.tasks[id].client))
  }

  // The events an action sends.
  function Sent(s: State, a: Action): seq<Event>
    requires Enabled(s, a)
  {
    match a
    case Submit(id, Announce) => [Event(id, s.submissions[id].client, QueuedEvent)]
    case Work(id, AnnounceRunning) => [Event(id, s.workers[id].client, RunningEvent)]
    case Work(id, Finish(ending)) =>
      [Event(id, s.workers[id].client, if ending.Succeeded? then CompletedEvent else FailedEvent)]
    case Forward(id, Send) => [Event(id, s.forwarders[id].client, ProgressEvent(s.forwarders[id].pending.value))]
    case Cancel(id, asker) => if Cancels(s, id, asker) then [Event(id, s.tasks[id].client, CancelledEvent)] else []
    case _ => []
  }

  function SubmitChange(s: State, id: Id, a: SubmitAction): State
    requires SubmitEnabled(s, id, a)
  {
    match a
    case Check(client, c) =>
      if c in s.handlers then s.(submissions := s.submissions[id := Submission(client, c, Checked)]) else s
    case Reject => s.(submissions := s.submissions - {id})
    case Insert =>
      var sub := s.submissions[id];
      s.(tasks := s.tasks[id := TaskEntry(sub.client, sub.capability, Queued, None, None, None)],
         submissions := s.submissions[id := sub.(phase := Inserted)])
    case Announce => s.(submissions := s.submissions[id := s.submissions[id].(phase := QueuedSent)])
    case Spawn =>
      var sub := s.submissions[id];
      s.(submissions := s.submissions - {id},
         workers := s.workers[id := Worker(sub.client, sub.capability, Waiting)])
  }

  function WorkChange(s: State, id: Id, a: WorkAction): State
    requires WorkEnabled(s, id, a)
  {
    match a
    case Acquire => s.(permits := s.permits - 1, workers := Advance(s, id, Holding))
    case MarkRunning => s.(tasks := SetStatus(s, id, Running), workers := Advance(s, id, Marked))
    case AnnounceRunning => s.(workers := Advance(s, id, RunningSent))
    case Lookup =>
      if s.workers[id].capability in s.handlers
      then s.(workers := Advance(s, id, Executing),
              forwarders := s.forwarders[id := Forwarder(s.workers[id].client, None)])
      else s.(workers := Advance(s, id, Missing))
    case FailMissing => s.(tasks := Fail(s, id, "Handler not found"), workers := Advance(s, id, Finished))
    case Finish(ending) =>
      s.(tasks := if ending.Succeeded? then Complete(s, id, ending.result) else Fail(s, id, Message(ending)),
         workers := Advance(s, id, Finished))
    case Release => s.(permits := s.permits + 1, workers := Advance(s, id, Done))
  }

  function ForwardChange(s: State, id: Id, a: ForwardAction): State
    requires ForwardEnabled(s, id, a)
  {
    match a
    case Write(pct) =>
      s.(tasks := if id in s.tasks then s.tasks[id := s.tasks[id].(progress := Some(pct))] else s.tasks,
         forwarders := s.forwarders[id := s.forwarders[id].(pending := Some(pct))])
    case Send => s.(forwarders := s.forwarders[id := s.forwarders[id].(pending := None)])
  }

  // What an action does to everything but the event log.
  function Change(s: State, a: Action): State
    requires Enabled(s, a)
  {
    match a
    case RegisterHandler(c) => s.(handlers := s.handlers + {c})
    case Submit(id, sub) => SubmitChange(s, id, sub)
    case Work(id, w) => WorkChange(s, id, w)
    case Forward(id, f) => ForwardChange(s, id, f)
    case Cancel(id, asker) => if Cancels(s, id, asker) then s.(tasks := SetStatus(s, id, Cancelled)) else s
  }

  function Apply(s: State, a: Action): State
    requires Enabled(s, a)
  {
    Change(s, a).(events := s.events + Sent(s, a))
  }

  // ---- what every reachable state satisfies ----

  predicate LifecycleKind(k: EventKind) { k.QueuedEvent? || k.RunningEvent? || k.CompletedEvent? || k.FailedEvent? }

  // The lifecycle events of one task, in the order they were sent.
  function Trace(events: seq<Event>, id: Id): seq<EventKind> {
    if events == [] then []
    else
      var e := events[|events| - 1];
      Trace(events[..|events| - 1], id) + if e.task == id && LifecycleKind(e.kind) then [e.kind] else []
  }

  function Find<T>(m: map<Id, T>, id: Id): Option<T> { if id in m then Some(m[id]) else None }

  /** Everything the state knows about one task. */
  datatype TaskView = TaskView(entry: Option<TaskEntry>, submission: Option<Submission>, worker: Option<Worker>,
                               forwarder: Option<Forwarder>, trace: seq<EventKind>)

  function View(s: State, id: Id): TaskView {
    TaskView(Find(s.tasks, id), Find(s.submissions, id), Find(s.workers, id), Find(s.forwarders, id),
             Trace(s.events, id))
  }

  predicate Holds(phase: WorkPhase) { phase != Waiting && phase != Done }

  // A result exactly when completed, an error exactly when failed.
  predicate Settled(e: TaskEntry) {
    (e.result.Some? <==> e.status == Completed) && (e.error.Some? <==> e.status == Failed)
  }

  predicate SubmissionOk(v: TaskView)
    requires v.submission.Some?
  {
    var sub := v.submission.value;
    && v.worker.None? && v.forwarder.None?
    && (v.entry.None? <==> sub.phase == Checked)
    && v.trace == (if sub.phase == QueuedSent then [QueuedEvent] else [])
    && (v.entry.Some? ==> Owned(v.entry.value, sub.client, sub.capability) &&
                          (v.entry.value.status == Queued || v.entry.value.status == Cancelled))
  }

  predicate Owned(e: TaskEntry, client: string, capability: string) {
    e.client == client && e.capability == capability && Settled(e)
  }

  predicate Started(phase: WorkPhase) { phase == Executing || phase == Finished || phase == Done }

  predicate WorkerOk(v: TaskView)
    requires v.worker.Some?
  {
    var w := v.worker.value;
    && v.submission.None? && v.entry.Some?
    && Owned(v.entry.value, w.client, w.capability)
    && (v.forwarder.Some? ==> v.forwarder.value.client == w.client && Started(w.phase))
    && var status := v.entry.value.status;
      match w.phase
      case Waiting => (status == Queued || status == Cancelled) && v.trace == [QueuedEvent]
      case Holding => (status == Queued || status == Cancelled) && v.trace == [QueuedEvent]
      case Marked => (status == Running || status == Cancelled) && v.trace == [QueuedEvent]
      case RunningSent => (status == Running || status == Cancelled) && v.trace == [QueuedEvent, RunningEvent]
      case Executing => (status == Running || status == Cancelled) && v.trace == [QueuedEvent, RunningEvent]
      case Missing => false
      case _ =>
        || (status == Completed && v.trace == [QueuedEvent, RunningEvent, CompletedEvent])
        || (status == Failed && v.trace == [QueuedEvent, RunningEvent, FailedEvent])
  }

  predicate ViewOk(v: TaskView) {
    if v.submission.Some? then SubmissionOk(v)
    else if v.worker.Some? then WorkerOk(v)
    else v.entry.None? && v.forwarder.None? && v.trace == []
  }

  function Holders(s: State): set<Id> {
    set id | id in s.workers && Holds(s.workers[id].phase)
  }

  ghost predicate HandlersKnown(s: State) {
    && (forall id :: id in s.submissions ==> s.submissions[id].capability in s.handlers)
    && (forall id :: id in s.workers ==> s.workers[id].capability in s.handlers)
  }

  ghost predicate EventsOwned(s: State) {
    forall i :: 0 <= i < |s.events| ==>
      s.events[i].task in s.tasks && s.events[i].client == s.tasks[s.events[i].task].client
  }

  ghost predicate Inv(s: State, capacity: nat) {
    && s.permits + |Holders(s)| == capacity
    && HandlersKnown(s)
    && EventsOwned(s)
    && forall id :: ViewOk(View(s, id))
  }

  // ---- every action keeps it ----

  // The lifecycle event an action sends about its task.
  function Emitted(a: Action): seq<EventKind> {
    match a
    case Submit(_, Announce) => [QueuedEvent]
    case Work(_, AnnounceRunning) => [RunningEvent]
    case Work(_, Finish(ending)) => [if ending.Succeeded? then CompletedEvent else FailedEvent]
    case _ => []
  }

  predicate About(a: Action, id: Id) { !a.RegisterHandler? && a.id == id }

  lemma {:induction false} TraceStep(s: State, a: Action, id: Id)
    requires Enabled(s, a)
    ensures Trace(Apply(s, a).events, id) == Trace(s.events, id) + if About(a, id) then Emitted(a) else []
  {
    var sent := Sent(s, a);
    if sent == [] {
      assert s.events + sent == s.events;
    } else {
      assert |sent| == 1;
      assert (s.events + sent)[..|s.events|] == s.events;
    }
  }

  // ---- one group of actions at a time ----

  lemma {:induction false} SubmitElsewhere(s: State, id: Id, a: SubmitAction, d: Id)
    requires SubmitEnabled(s, id, a) && d != id
    ensures View(SubmitChange(s, id, a), d) == View(s, d)
  {
  }

  lemma {:induction false} WorkElsewhere(s: State, id: Id, a: WorkAction, d: Id)
    requires WorkEnabled(s, id, a) && d != id
    ensures View(WorkChange(s, id, a), d) == View(s, d)
  {
  }

  lemma {:induction false} ForwardElsewhere(s: State, id: Id, a: ForwardAction, d: Id)
    requires ForwardEnabled(s, id, a) && d != id
    ensures View(ForwardChange(s, id, a), d) == View(s, d)
  {
  }

  // The view of the task itself, the events counted in.
  function Moved(s: State, trace: seq<EventKind>, emitted: seq<EventKind>, id: Id): TaskView {
    View(s, id).(trace := trace + emitted)
  }

  lemma {:induction false} SubmitHere(s: State, id: Id, a: SubmitAction)
    requires SubmitEnabled(s, id, a) && ViewOk(View(s, id))
    ensures ViewOk(Moved(SubmitChange(s, id, a), Trace(s.events, id), Emitted(Submit(id, a)), id))
  {
    assert Trace(s.events, id) + [] == Trace(s.events, id);
  }

  lemma {:induction false} WorkStartHere(s: State, id: Id, a: WorkAction)
    requires WorkEnabled(s, id, a) && ViewOk(View(s, id)) && s.workers[id].capability in s.handlers
    requires !a.Finish? && !a.Release?
    ensures ViewOk(Moved(WorkChange(s, id, a), Trace(s.events, id), Emitted(Work(id, a)), id))
  {
    assert Trace(s.events, id) + [] == Trace(s.events, id);
  }

  lemma {:induction false} WorkEndHere(s: State, id: Id, a: WorkAction)
    requires WorkEnabled(s, id, a) && ViewOk(View(s, id)) && (a.Finish? || a.Release?)
    ensures ViewOk(Moved(WorkChange(s, id, a), Trace(s.events, id), Emitted(Work(id, a)), id))
  {
    assert Trace(s.events, id) + [] == Trace(s.events, id);
  }

  lemma {:induction false} ForwardHere(s: State, id: Id, a: ForwardAction)
    requires ForwardEnabled(s, id, a) && ViewOk(View(s, id))
    ensures ViewOk(Moved(ForwardChange(s, id, a), Trace(s.events, id), [], id))
  {
    assert Trace(s.events, id) + [] == Trace(s.events, id);
  }

  lemma {:induction false} CancelHere(s: State, id: Id)
    requires Cancellable(s, id) && ViewOk(View(s, id))
    ensures ViewOk(Moved(s.(tasks := SetStatus(s, id, Cancelled)), Trace(s.events, id), [], id))
  {
    assert Trace(s.events, id) + [] == Trace(s.events, id);
  }

  lemma {:induction false} HereKeepsView(s: State, a: Action, d: Id)
    requires Enabled(s, a) && HandlersKnown(s) && ViewOk(View(s, d)) && About(a, d)
    ensures ViewOk(Moved(Change(s, a), Trace(s.events, d), Emitted(a), d))
  {
    match a
    case Submit(id, sub) => SubmitHere(s, id, sub);
    case Work(id, w) => if w.Finish? || w.Release? { WorkEndHere(s, id, w); } else { WorkStartHere(s, id, w); }
    case Forward(id, f) => ForwardHere(s, id, f);
    case Cancel(id, asker) =>
      if Cancels(s, id, asker) {
        CancelHere(s, id);
      } else {
        assert Trace(s.events, d) + [] == Trace(s.events, d);
      }
  }

  lemma {:induction false} ElsewhereStays(s: State, a: Action, d: Id)
    requires Enabled(s, a) && !About(a, d)
    ensures View(Change(s, a), d) == View(s, d)
  {
    match a
    case Submit(id, sub) => SubmitElsewhere(s, id, sub, d);
    case Work(id, w) => WorkElsewhere(s, id, w, d);
    case Forward(id, f) => ForwardElsewhere(s, id, f, d);
    case _ =>
  }

  lemma {:induction false} ActionKeepsView(s: State, a: Action, d: Id)
    requires Enabled(s, a) && HandlersKnown(s) && ViewOk(View(s, d))
    ensures ViewOk(View(Apply(s, a), d))
  {
    TraceStep(s, a, d);
    var v := View(Apply(s, a), d);
    if About(a, d) {
      HereKeepsView(s, a, d);
      assert v == Moved(Change(s, a), Trace(s.events, d), Emitted(a), d);
    } else {
      ElsewhereStays(s, a, d);
      assert v.trace == Trace(s.events, d);
      assert v == View(s, d);
    }
  }

  lemma {:induction false} SubmitKeepsOwner(s: State, id: Id, a: SubmitAction, d: Id)
    requires SubmitEnabled(s, id, a) && ViewOk(View(s, d)) && d in s.tasks
    ensures var s' := SubmitChange(s, id, a); d in s'.tasks && s'.tasks[d].client == s.tasks[d].client
  {
  }

  lemma {:induction false} WorkKeepsOwner(s: State, id: Id, a: WorkAction, d: Id)
    requires WorkEnabled(s, id, a) && d in s.tasks
    ensures var s' := WorkChange(s, id, a); d in s'.tasks && s'.tasks[d].client == s.tasks[d].client
  {
  }

  // The owner of a stored task never changes.
  lemma {:induction false} ActionKeepsOwner(s: State, a: Action, d: Id)
    requires Enabled(s, a) && ViewOk(View(s, d)) && d in s.tasks
    ensures d in Apply(s, a).tasks && Apply(s, a).tasks[d].client == s.tasks[d].client
  {
    match a
    case Submit(id, sub) => SubmitKeepsOwner(s, id, sub, d);
    case Work(id, w) => WorkKeepsOwner(s, id, w, d);
    case _ =>
  }

  // Acquire is the one action that makes a holder and Release the one that unmakes it.
  lemma {:induction false} WorkHolder(s: State, id: Id, a: WorkAction, d: Id)
    requires WorkEnabled(s, id, a)
    ensures d in Holders(WorkChange(s, id, a)) <==>
      (d in Holders(s) && !(d == id && a.Release?)) || (d == id && a.Acquire?)
  {
  }

  lemma {:induction false} WorkKeepsPermits(s: State, id: Id, a: WorkAction)
    requires WorkEnabled(s, id, a)
    ensures var s' := WorkChange(s, id, a); s'.permits + |Holders(s')| == s.permits + |Holders(s)|
  {
    var before, after := Holders(s), Holders(WorkChange(s, id, a));
    forall d ensures d in after <==> (d in before && !(d == id && a.Release?)) || (d == id && a.Acquire?) {
      WorkHolder(s, id, a, d);
    }
    assert id in before <==> !a.Acquire?;
    SameButOne(before, after, id, a.Acquire?, a.Release?);
  }

  lemma {:induction false} SameButOne(before: set<Id>, after: set<Id>, id: Id, added: bool, removed: bool)
    requires !(added && removed) && (added ==> id !in before) && (removed ==> id in before)
    requires forall d :: d in after <==> (d in before && !(d == id && removed)) || (d == id && added)
    ensures |after| == |before| + (if added then 1 else 0) - (if removed then 1 else 0)
  {
    if added {
      assert after == before + {id};
    } else if removed {
      assert before == after + {id};
    } else {
      assert after == before;
    }
  }

  lemma {:induction false} SpawnKeepsHolders(s: State, id: Id, a: SubmitAction)
    requires SubmitEnabled(s, id, a) && ViewOk(View(s, id))
    ensures Holders(SubmitChange(s, id, a)) == Holders(s)
  {
  }

  lemma {:induction false} ActionKeepsPermits(s: State, a: Action)
    requires Enabled(s, a) && forall id :: ViewOk(View(s, id))
    ensures var s' := Apply(s, a); s'.permits + |Holders(s')| == s.permits + |Holders(s)|
  {
    assert Holders(Apply(s, a)) == Holders(Change(s, a));
    match a
    case Submit(id, sub) =>
      assert ViewOk(View(s, id));
      SpawnKeepsHolders(s, id, sub);
    case Work(id, w) => WorkKeepsPermits(s, id, w);
    case _ => assert Holders(Change(s, a)) == Holders(s);
  }

  lemma {:induction false} SubmitKeepsHandlers(s: State, id: Id, a: SubmitAction)
    requires SubmitEnabled(s, id, a) && HandlersKnown(s)
    ensures HandlersKnown(SubmitChange(s, id, a))
  {
  }

  lemma {:induction false} WorkKeepsHandlers(s: State, id: Id, a: WorkAction)
    requires WorkEnabled(s, id, a) && HandlersKnown(s)
    ensures HandlersKnown(WorkChange(s, id, a)) && WorkChange(s, id, a).handlers == s.handlers
  {
  }

  // Handlers are only ever added, so the check made at submission stays good.
  lemma {:induction false} ActionKeepsHandlers(s: State, a: Action)
    requires Enabled(s, a) && HandlersKnown(s)
    ensures HandlersKnown(Apply(s, a)) && s.handlers <= Apply(s, a).handlers
  {
    match a
    case Submit(id, sub) => SubmitKeepsHandlers(s, id, sub);
    case Work(id, w) => WorkKeepsHandlers(s, id, w);
    case _ =>
  }

  lemma {:induction false} SentIsOwned(s: State, a: Action)
    requires Enabled(s, a) && !a.RegisterHandler? && ViewOk(View(s, a.id))
    ensures forall e :: e in Sent(s, a) ==> e.task in s.tasks && e.client == s.tasks[e.task].client
  {
    var v := View(s, a.id);
    assert v.submission.Some? ==> SubmissionOk(v);
  }

  lemma {:induction false} ActionKeepsEvents(s: State, a: Action)
    requires Enabled(s, a) && EventsOwned(s) && forall id :: ViewOk(View(s, id))
    ensures EventsOwned(Apply(s, a))
  {
    var s' := Apply(s, a);
    if !a.RegisterHandler? {
      assert ViewOk(View(s, a.id));
      SentIsOwned(s, a);
    }
    forall i | 0 <= i < |s'.events|
      ensures s'.events[i].task in s'.tasks && s'.events[i].client == s'.tasks[s'.events[i].task].client
    {
      var e := s'.events[i];
      assert i >= |s.events| ==> e in Sent(s, a);
      assert ViewOk(View(s, e.task));
      ActionKeepsOwner(s, a, e.task);
    }
  }

  lemma {:induction false} ActionKeepsInv(s: State, a: Action, capacity: nat)
    requires Inv(s, capacity) && Enabled(s, a)
    ensures Inv(Apply(s, a), capacity)
  {
    forall id ensures ViewOk(View(Apply(s, a), id)) {
      assert ViewOk(View(s, id));
      ActionKeepsView(s, a, id);
    }
    ActionKeepsPermits(s, a);
    ActionKeepsHandlers(s, a);
    ActionKeepsEvents(s, a);
  }

  // ---- whole runs ----

  ghost predicate Legal(s: State, actions: seq<Action>)
    decreases |actions|, 0
  {
    actions == [] ||
    (Legal(s, actions[..|actions| - 1]) && Enabled(Run(s, actions[..|actions| - 1]), actions[|actions| - 1]))
  }

  ghost function Run(s: State, actions: seq<Action>): State
    requires Legal(s, actions)
    decreases |actions|, 1
  {
    if actions == [] then s else Apply(Run(s, actions[..|actions| - 1]), actions[|actions| - 1])
  }

  lemma {:induction false} RunKeepsInv(s: State, actions: seq<Action>, capacity: nat)
    requires Inv(s, capacity) && Legal(s, actions)
    ensures Inv(Run(s, actions), capacity)
  {
    if actions != [] {
      RunKeepsInv(s, actions[..|actions| - 1], capacity);
      ActionKeepsInv(Run(s, actions[..|actions| - 1]), actions[|actions| - 1], capacity);
    }
  }

  lemma {:induction false} StartInv(maxConcurrent: nat)
    ensures Inv(Start(maxConcurrent), Capacity(maxConcurrent))
  {
    assert Holders(Start(maxConcurrent)) == {};
  }

  ghost predicate Reachable(s: State, maxConcurrent: nat) {
    exists actions :: Legal(Start(maxConcurrent), actions) && s == Run(Start(maxConcurrent), actions)
  }

  lemma {:induction false} ReachableInv(s: State, maxConcurrent: nat)
    requires Reachable(s, maxConcurrent)
    ensures Inv(s, Capacity(maxConcurrent))
  {
    var actions :| Legal(Start(maxConcurrent), actions) && s == Run(Start(maxConcurrent), actions);
    StartInv(maxConcurrent);
    RunKeepsInv(Start(maxConcurrent), actions, Capacity(maxConcurrent));
  }

  function RunningTasks(s: State): set<Id> {
    set id | id in s.tasks && s.tasks[id].status == Running
  }

  lemma {:induction false} RunningHolds(s: State, id: Id)
    requires ViewOk(View(s, id)) && id in RunningTasks(s)
    ensures id in Holders(s)
  {
  }

  // In every interleaving the permits are accounted for, no more tasks run than there are
  // permits, and results and errors are there exactly for completed and failed tasks.
  lemma {:induction false} EveryStateIsSafe(s: State, maxConcurrent: nat)
    requires Reachable(s, maxConcurrent)
    ensures s.permits + |Holders(s)| == if maxConcurrent == 0 then 1 else maxConcurrent
    ensures RunningTasks(s) <= Holders(s) && |RunningTasks(s)| <= if maxConcurrent == 0 then 1 else maxConcurrent
    ensures forall id :: id in s.tasks ==>
              (s.tasks[id].result.Some? <==> s.tasks[id].status == Completed) &&
              (s.tasks[id].error.Some? <==> s.tasks[id].status == Failed)
  {
    ReachableInv(s, maxConcurrent);
    forall id | id in RunningTasks(s) ensures id in Holders(s) {
      assert ViewOk(View(s, id));
      RunningHolds(s, id);
    }
    SubsetSize(RunningTasks(s), Holders(s));
    forall id | id in s.tasks ensures Settled(s.tasks[id]) {
      assert ViewOk(View(s, id));
    }
  }

  // No worker ever misses its handler; every event names the task's own client; and each task's
  // lifecycle events are queued, then running, then one final event that matches its status.
  lemma {:induction false} EveryStateTellsTheStory(s: State, maxConcurrent: nat, id: Id)
    requires Reachable(s, maxConcurrent)
    ensures id in s.workers ==> s.workers[id].phase != Missing && s.workers[id].capability in s.handlers
    ensures forall i :: 0 <= i < |s.events| ==>
              s.events[i].task in s.tasks && s.events[i].client == s.tasks[s.events[i].task].client
    ensures Trace(s.events, id) <= [QueuedEvent, RunningEvent, CompletedEvent]
         || Trace(s.events, id) == [QueuedEvent, RunningEvent, FailedEvent]
    ensures id in s.workers && (s.workers[id].phase == Finished || s.workers[id].phase == Done) ==>
              id in s.tasks &&
              ((s.tasks[id].status == Completed &&
                Trace(s.events, id) == [QueuedEvent, RunningEvent, CompletedEvent]) ||
               (s.tasks[id].status == Failed && Trace(s.events, id) == [QueuedEvent, RunningEvent, FailedEvent]))
  {
    ReachableInv(s, maxConcurrent);
    assert ViewOk(View(s, id));
    assert [QueuedEvent] <= [QueuedEvent, RunningEvent, CompletedEvent];
    assert [QueuedEvent, RunningEvent] <= [QueuedEvent, RunningEvent, CompletedEvent];
  }

  predicate Terminal(e: TaskEntry) { e.status == Completed || e.status == Failed }

  predicate SameOutcome(e: TaskEntry, f: TaskEntry) {
    e.status == f.status && e.result == f.result && e.error == f.error
  }

  lemma {:induction false} ActionKeepsOutcome(s: State, a: Action, id: Id)
    requires Enabled(s, a) && ViewOk(View(s, id)) && id in s.tasks && Terminal(s.tasks[id])
    ensures id in Apply(s, a).tasks && SameOutcome(s.tasks[id], Apply(s, a).tasks[id])
  {
    if !About(a, id) {
      ElsewhereStays(s, a, id);
      assert Find(Change(s, a).tasks, id) == Find(s.tasks, id);
    } else {
      HereKeepsOutcome(s, a, id);
    }
  }

  lemma {:induction false} HereKeepsOutcome(s: State, a: Action, id: Id)
    requires Enabled(s, a) && About(a, id) && ViewOk(View(s, id)) && id in s.tasks && Terminal(s.tasks[id])
    ensures id in Change(s, a).tasks && SameOutcome(s.tasks[id], Change(s, a).tasks[id])
  {
    match a
    case Submit(_, sub) =>
    case Work(_, w) => assert w.Release?;
    case Forward(_, f) =>
    case Cancel(_, asker) =>
  }

  // Completed and failed are final: whatever happens later, status, result and error stay.
  lemma {:induction false} OutcomeIsFinal(s: State, maxConcurrent: nat, later: seq<Action>, id: Id)
    requires Reachable(s, maxConcurrent) && Legal(s, later)
    requires id in s.tasks && Terminal(s.tasks[id])
    ensures id in Run(s, later).tasks && SameOutcome(s.tasks[id], Run(s, later).tasks[id])
  {
    if later != [] {
      OutcomeIsFinal(s, maxConcurrent, later[..|later| - 1], id);
      ReachableInv(s, maxConcurrent);
      RunKeepsInv(s, later[..|later| - 1], Capacity(maxConcurrent));
      var t := Run(s, later[..|later| - 1]);
      assert ViewOk(View(t, id));
      ActionKeepsOutcome(t, later[|later| - 1], id);
    }
  }

  // Cancelled is not final: it lasts exactly until the task's own worker writes a status.
  lemma {:induction false} CancelledLastsUntilWorkerWrites(s: State, maxConcurrent: nat, a: Action, id: Id)
    requires Reachable(s, maxConcurrent) && Enabled(s, a)
    requires id in s.tasks && s.tasks[id].status == Cancelled
    ensures id in Apply(s, a).tasks
    ensures Apply(s, a).tasks[id].status == Cancelled <==>
      a != Work(id, MarkRunning) && !(About(a, id) && a.Work? && a.work.Finish?)
  {
    ReachableInv(s, maxConcurrent);
    assert ViewOk(View(s, id));
    if About(a, id) {
      CancelledHere(s, a, id);
    } else {
      ElsewhereStays(s, a, id);
      assert Find(Change(s, a).tasks, id) == Find(s.tasks, id);
    }
  }

  lemma {:induction false} CancelledHere(s: State, a: Action, id: Id)
    requires Enabled(s, a) && About(a, id) && ViewOk(View(s, id)) && id in s.tasks && s.tasks[id].status == Cancelled
    ensures id in Change(s, a).tasks
    ensures Change(s, a).tasks[id].status == Cancelled <==> !(a.Work? && (a.work.MarkRunning? || a.work.Finish?))
  {
    match a
    case Submit(_, sub) =>
    case Work(_, w) => assert !w.FailMissing?;
    case Forward(_, f) =>
    case Cancel(_, asker) =>
  }

  lemma {:induction false} OneMore(s: State, actions: seq<Action>, a: Action, t: State)
    requires Legal(s, actions) && Run(s, actions) == t && Enabled(t, a)
    ensures Legal(s, actions + [a]) && Run(s, actions + [a]) == Apply(t, a)
  {
    assert (actions + [a])[..|actions + [a]| - 1] == actions;
  }

  // A task that its client cancelled while queued is run and completed all the same.
  lemma {:induction false} CancelledTaskCompletes(id: Id, client: string, c: string, result: TaskResult)
    returns (run: seq<Action>)
    ensures Legal(Start(1), run) && Cancel(id, Some(client)) in run
    ensures id in Run(Start(1), run).tasks && Run(Start(1), run).tasks[id].status == Completed
  {
    var s0 := Start(1);
    var submitted := TaskEntry(client, c, Queued, None, None, None);
    var cancelled := submitted.(status := Cancelled);
    OneMore(s0, [], RegisterHandler(c), s0);
    var s1 := Apply(s0, RegisterHandler(c));
    run := [] + [RegisterHandler(c)];
    var s2 := QueueUp(s0, run, s1, id, client, c);
    run := run + [Submit(id, Check(client, c))] + [Submit(id, Insert)] + [Submit(id, Announce)] + [Submit(id, Spawn)];
    OneMore(s0, run, Cancel(id, Some(client)), s2);
    var s3 := Apply(s2, Cancel(id, Some(client)));
    run := run + [Cancel(id, Some(client))];
    var s4 := WorkThrough(s0, run, s3, id, result);
    run := run + [Work(id, Acquire)] + [Work(id, MarkRunning)] + [Work(id, AnnounceRunning)] + [Work(id, Lookup)]
         + [Work(id, Finish(Succeeded(result)))];
  }

  lemma {:induction false} QueueUp(s: State, run: seq<Action>, t: State, id: Id, client: string, c: string)
    returns (t': State)
    requires Legal(s, run) && Run(s, run) == t && Enabled(t, Submit(id, Check(client, c))) && c in t.handlers
    ensures var run' := run + [Submit(id, Check(client, c))] + [Submit(id, Insert)]
                + [Submit(id, Announce)] + [Submit(id, Spawn)];
      Legal(s, run') && Run(s, run') == t'
    ensures t'.tasks == t.tasks[id := TaskEntry(client, c, Queued, None, None, None)]
    ensures t'.workers == t.workers[id := Worker(client, c, Waiting)]
         && t'.permits == t.permits && t'.handlers == t.handlers
  {
    OneMore(s, run, Submit(id, Check(client, c)), t);
    var t1 := Apply(t, Submit(id, Check(client, c)));
    var r1 := run + [Submit(id, Check(client, c))];
    OneMore(s, r1, Submit(id, Insert), t1);
    var t2 := Apply(t1, Submit(id, Insert));
    OneMore(s, r1 + [Submit(id, Insert)], Submit(id, Announce), t2);
    var t3 := Apply(t2, Submit(id, Announce));
    OneMore(s, r1 + [Submit(id, Insert)] + [Submit(id, Announce)], Submit(id, Spawn), t3);
    t' := Apply(t3, Submit(id, Spawn));
  }

  lemma {:induction false} WorkThrough(s: State, run: seq<Action>, t: State, id: Id, result: TaskResult)
    returns (t': State)
    requires Legal(s, run) && Run(s, run) == t && Enabled(t, Work(id, Acquire))
         && t.workers[id].capability in t.handlers
    requires id in t.tasks
    ensures var run' := run + [Work(id, Acquire)] + [Work(id, MarkRunning)] + [Work(id, AnnounceRunning)]
                + [Work(id, Lookup)]
                      + [Work(id, Finish(Succeeded(result)))];
      Legal(s, run') && Run(s, run') == t'
    ensures id in t'.tasks && t'.tasks[id].status == Completed
  {
    OneMore(s, run, Work(id, Acquire), t);
    var t1 := Apply(t, Work(id, Acquire));
    var r1 := run + [Work(id, Acquire)];
    OneMore(s, r1, Work(id, MarkRunning), t1);
    var t2 := Apply(t1, Work(id, MarkRunning));
    var r2 := r1 + [Work(id, MarkRunning)];
    OneMore(s, r2, Work(id, AnnounceRunning), t2);
    var t3 := Apply(t2, Work(id, AnnounceRunning));
    var r3 := r2 + [Work(id, AnnounceRunning)];
    OneMore(s, r3, Work(id, Lookup), t3);
    var t4 := Apply(t3, Work(id, Lookup));
    OneMore(s, r3 + [Work(id, Lookup)], Work(id, Finish(Succeeded(result))), t4);
    t' := Apply(t4, Work(id, Finish(Succeeded(result))));
  }
}
