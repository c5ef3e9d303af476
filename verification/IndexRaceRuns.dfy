/** Runs that the lock allows and that leave the chunk index out of step with the article table. */
module IndexRaceRuns {
  import opened Outcomes
  import opened VectorIndex
  import opened Articles
  import opened IndexRaces
  import opened IndexAgreement
  import opened IndexCalls

  // ---- running one call ahead ----

  // A call can be run ahead to a phase while nobody else holds the lock, and a delete always.
  lemma {:induction false} RunAhead(env: Env, calls: seq<Call>, states: seq<State>, schedule: seq<nat>, c: nat,
                                    goal: Phase)
    returns (states': seq<State>, schedule': seq<nat>)
    requires IsRun(env, calls, states, schedule) && c < |calls|
    requires var s := states[|schedule|];
      && |s.phases| == |calls| && IsPhase(env, calls[c], s.phases[c])
      && (calls[c].DeleteCall? || forall b :: 0 <= b < |calls| && b != c ==> !s.phases[b].Embed?)
      && (s.phases[c] == Before(0) && calls[c].CreateCall? ==> calls[c].article.id !in s.core.world.articles)
    ensures IsRun(env, calls, states', schedule')
    ensures var s, s' := states[|schedule|], states'[|schedule'|];
      && s'.core == Alone(env, s.core, calls[c], s.phases[c], goal)
      && s'.phases == s.phases[c := Reached(env, calls[c], s.phases[c], goal)]
    decreases Left(env, calls[c], states[|schedule|].phases[c])
  {
    var s := states[|schedule|];
    if s.phases[c] == goal || s.phases[c] == Finished {
      states', schedule' := states, schedule;
      assert s.phases[c := s.phases[c]] == s.phases;
    } else {
      CanStep(env, calls, s, c);
      var s' := Step(env, calls, s, c);
      OneStepMore(env, calls, states, schedule, c);
      states', schedule' := RunAhead(env, calls, states + [s'], schedule + [c], c, goal);
      assert s.phases[c := s'.phases[c]][c := Reached(env, calls[c], s.phases[c], goal)]
          == s.phases[c := Reached(env, calls[c], s.phases[c], goal)];
    }
  }

  lemma {:induction false} CanStep(env: Env, calls: seq<Call>, s: State, c: nat)
    requires c < |calls| == |s.phases| && IsPhase(env, calls[c], s.phases[c]) && s.phases[c] != Finished
    requires calls[c].DeleteCall? || forall b :: 0 <= b < |calls| && b != c ==> !s.phases[b].Embed?
    requires s.phases[c] == Before(0) && calls[c].CreateCall? ==> calls[c].article.id !in s.core.world.articles
    ensures Enabled(env, calls, s, c)
    ensures var s' := Step(env, calls, s, c);
      !(s'.phases[c] == Before(0)) && s'.phases == s.phases[c := NextPhase(env, calls[c], s.phases[c])]
  {
    var r := NextRequest(env, calls[c], s.phases[c]);
    assert r.Lock? ==> !s.phases[c].Embed?;
  }

  lemma {:induction false} OneStepMore(env: Env, calls: seq<Call>, states: seq<State>, schedule: seq<nat>, c: nat)
    requires IsRun(env, calls, states, schedule) && Enabled(env, calls, states[|schedule|], c)
    ensures IsRun(env, calls, states + [Step(env, calls, states[|schedule|], c)], schedule + [c])
  {
    var states', schedule' := states + [Step(env, calls, states[|schedule|], c)], schedule + [c];
    forall i | 0 <= i < |schedule'|
      ensures Enabled(env, calls, states'[i], schedule'[i])
      ensures states'[i + 1] == Step(env, calls, states'[i], schedule'[i])
    {
      assert i < |schedule| ==> schedule'[i] == schedule[i] && states'[i] == states[i];
      assert i < |schedule| ==> states'[i + 1] == states[i + 1];
    }
  }

  // ---- what segments of a call do to an id ----

  // The article stored under an id, and the history of its rows.
  datatype Glance = Glance(stored: Option<Article>, trace: Option<Trace>)

  function Look<T>(m: map<string, T>, d: string): Option<T> { if d in m then Some(m[d]) else None }

  function At(s: Core, d: string): Glance { Glance(Look(s.world.articles, d), Look(s.last, d)) }

  function Merged(stored: Option<Article>, a: Article): Option<Article> {
    if stored.Some? then Some(a.(storeId := stored.value.storeId)) else None
  }

  function Cleared(trace: Option<Trace>): Option<Trace> {
    if trace.Some? then Some(trace.value.(doc := false, from := trace.value.to)) else None
  }

  function Whole(a: Article): Option<Trace> { Some(Trace(a, true, 0, |PiecesOf(a)|)) }

  lemma {:induction false} CreateStarts(env: Env, s: Core, a: Article)
    ensures Alone(env, s, CreateCall(a), Before(0), Before(1)) == Serve(env, s, Insert(a))
    ensures Reached(env, CreateCall(a), Before(0), Before(1)) == Before(1)
  {
  }

  lemma {:induction false} DeleteEnds(env: Env, s: Core, d: string)
    requires IsId(d)
    ensures At(Alone(env, s, DeleteCall(d), Before(0), Finished), d) == Glance(None, Cleared(At(s, d).trace))
    ensures Reached(env, DeleteCall(d), Before(0), Finished) == Finished
  {
    OpensAlone(env, s, DeleteCall(d), Finished);
    ReachesEnd(env, DeleteCall(d), Before(0));
  }

  lemma {:induction false} CallEnds(env: Env, s: Core, call: Call)
    requires !call.DeleteCall?
    ensures var a, n := Text(env, call), |Opening(env, call)|;
      var s' := Alone(env, s, call, Before(n), Finished);
      && At(s', a.id) == Glance(Merged(At(s, a.id).stored, a.(embedded := true)), Whole(a))
      && Reached(env, call, Before(n), Finished) == Finished
  {
    EndsAlone(env, s, call);
    ReachesEnd(env, call, Before(|Opening(env, call)|));
  }

  lemma {:induction false} CreateWritesDoc(env: Env, s: Core, a: Article)
    ensures At(Alone(env, s, CreateCall(a), Before(0), Embed(3)), a.id).trace == Some(Trace(a, true, 0, 0))
    ensures Reached(env, CreateCall(a), Before(0), Embed(3)) == Embed(3)
  {
    var s' := Serve(env, s, Insert(a));
    StepAlone(env, s, CreateCall(a), Before(0), Embed(3));
    LockAlone(env, s', CreateCall(a), Embed(3));
    WritesDocAlone(env, s', CreateCall(a), Embed(3));
    DocIsWritten(env, s', a);
  }

  lemma {:induction false} CreateAddsChunks(env: Env, s: Core, a: Article)
    requires At(s, a.id).trace == Some(Trace(a, false, 0, 0)) && a.id !in s.world.articles
    ensures var s' := Alone(env, s, CreateCall(a), Embed(3), Finished);
      At(s', a.id) == Glance(None, Some(Trace(a, false, 0, |PiecesOf(a)|)))
    ensures Reached(env, CreateCall(a), Embed(3), Finished) == Finished
  {
    var call := CreateCall(a);
    AddsChunks(env, s, call, 0);
    CountsChunks(env, s, call, 0);
    ReachesEnd(env, call, Embed(3));
    AloneVia(env, s, call, Embed(3), Last);
    LastAlone(env, Alone(env, s, call, Embed(3), Last), call);
  }

  lemma {:induction false} CreateEnds(env: Env, s: Core, a: Article)
    ensures At(Alone(env, s, CreateCall(a), Before(0), Finished), a.id) ==
            Glance(Some(a.(embedded := true)), Whole(a))
    ensures Reached(env, CreateCall(a), Before(0), Finished) == Finished
  {
    StepAlone(env, s, CreateCall(a), Before(0), Finished);
    CallEnds(env, Serve(env, s, Insert(a)), CreateCall(a));
  }

  lemma {:induction false} UpdateStarts(env: Env, s: Core, a: Article)
    ensures var s' := Alone(env, s, UpdateCall(a), Before(0), Before(3));
      At(s', a.id).stored == Merged(At(s, a.id).stored, Text(env, UpdateCall(a)))
    ensures Reached(env, UpdateCall(a), Before(0), Before(3)) == Before(3)
  {
    var call := UpdateCall(a);
    OpensAlone(env, s, call, Before(3));
    StepAlone(env, s, call, Before(0), Before(3));
    StepAlone(env, s, call, Before(1), Before(3));
    StepAlone(env, s, call, Before(2), Before(3));
  }

  lemma {:induction false} UpdateReachesLast(env: Env, s: Core, a: Article)
    ensures var s' := Alone(env, s, UpdateCall(a), Before(0), Last);
      At(s', a.id).stored == Merged(At(s, a.id).stored, Text(env, UpdateCall(a)))
    ensures Reached(env, UpdateCall(a), Before(0), Last) == Last
  {
    var call := UpdateCall(a);
    var s' := Opened(env, s, call);
    OpensAlone(env, s, call, Last);
    LockAlone(env, s', call, Last);
    EmbedsAlone(env, s', call);
    ReachesEnd(env, call, Before(0));
  }

  // ---- three runs the lock allows ----

  // The rows under an id in the last state, going by its history.
  lemma {:induction false} RowsInTheEnd(env: Env, calls: seq<Call>, states: seq<State>, schedule: seq<nat>, d: string)
    requires IsRun(env, calls, states, schedule) && IsId(d)
    ensures var s := states[|schedule|].core;
      && IsSound(s.last, d) && DocsOf(s.world.tables, d) == TracedDocs(s.last, d)
      && ChunksOf(s.world.tables, d) == TracedChunks(env, s.last, d)
  {
    EveryStateKeepsInv(env, calls, states, schedule, |schedule|);
    assert IdOk(env, calls, states[|schedule|], d);
  }

  lemma {:induction false} StartIsRun(env: Env, calls: seq<Call>)
    ensures IsRun(env, calls, [Start(calls)], []) && |Start(calls).phases| == |calls|
    ensures forall c :: 0 <= c < |calls| ==> Start(calls).phases[c] == Before(0)
  {
  }

  // A delete between the insertion and the embedding of a create.
  lemma {:induction false} RunDeleteFirst(env: Env, a: Article) returns (states: seq<State>, schedule: seq<nat>)
    requires IsId(a.id)
    ensures IsRun(env, [CreateCall(a), DeleteCall(a.id)], states, schedule)
    ensures states[|schedule|].phases == [Finished, Finished]
    ensures At(states[|schedule|].core, a.id) == Glance(None, Whole(a))
  {
    var calls := [CreateCall(a), DeleteCall(a.id)];
    StartIsRun(env, calls);
    CreateStarts(env, Start(calls).core, a);
    states, schedule := RunAhead(env, calls, [Start(calls)], [], 0, Before(1));
    DeleteEnds(env, states[|schedule|].core, a.id);
    states, schedule := RunAhead(env, calls, states, schedule, 1, Finished);
    CallEnds(env, states[|schedule|].core, CreateCall(a));
    states, schedule := RunAhead(env, calls, states, schedule, 0, Finished);
  }

  // Its rows stay without an article.
  lemma {:induction false} DeleteDuringCreate(env: Env, a: Article) returns (states: seq<State>, schedule: seq<nat>)
    requires IsId(a.id)
    ensures IsRun(env, [CreateCall(a), DeleteCall(a.id)], states, schedule)
    ensures states[|schedule|].phases == [Finished, Finished]
    ensures var w := states[|schedule|].core.world;
      && a.id !in w.articles && !IsExact(env, w, a.id)
      && DocsOf(w.tables, a.id) == [DocFor(a)] && ChunksOf(w.tables, a.id) == RowsFor(env, a)
  {
    states, schedule := RunDeleteFirst(env, a);
    RowsInTheEnd(env, [CreateCall(a), DeleteCall(a.id)], states, schedule, a.id);
    assert a.id !in states[|schedule|].core.world.articles && a.id in states[|schedule|].core.last;
    assert RowsFor(env, a)[0..|PiecesOf(a)|] == RowsFor(env, a);
  }

  // A delete between the document row and the chunk rows of a create.
  lemma {:induction false} RunDeleteAmid(env: Env, a: Article) returns (states: seq<State>, schedule: seq<nat>)
    requires IsId(a.id)
    ensures IsRun(env, [CreateCall(a), DeleteCall(a.id)], states, schedule)
    ensures states[|schedule|].phases == [Finished, Finished]
    ensures At(states[|schedule|].core, a.id) == Glance(None, Some(Trace(a, false, 0, |PiecesOf(a)|)))
  {
    var calls := [CreateCall(a), DeleteCall(a.id)];
    StartIsRun(env, calls);
    CreateWritesDoc(env, Start(calls).core, a);
    states, schedule := RunAhead(env, calls, [Start(calls)], [], 0, Embed(3));
    DeleteEnds(env, states[|schedule|].core, a.id);
    states, schedule := RunAhead(env, calls, states, schedule, 1, Finished);
    CreateAddsChunks(env, states[|schedule|].core, a);
    states, schedule := RunAhead(env, calls, states, schedule, 0, Finished);
  }

  // Chunk rows stay without document row and without article.
  lemma {:induction false} DeleteDuringEmbedding(env: Env, a: Article)
    returns (states: seq<State>, schedule: seq<nat>)
    requires IsId(a.id)
    ensures IsRun(env, [CreateCall(a), DeleteCall(a.id)], states, schedule)
    ensures states[|schedule|].phases == [Finished, Finished]
    ensures var w := states[|schedule|].core.world;
      a.id !in w.articles && DocsOf(w.tables, a.id) == [] && ChunksOf(w.tables, a.id) == RowsFor(env, a)
  {
    states, schedule := RunDeleteAmid(env, a);
    RowsInTheEnd(env, [CreateCall(a), DeleteCall(a.id)], states, schedule, a.id);
    assert a.id !in states[|schedule|].core.world.articles && a.id in states[|schedule|].core.last;
    assert RowsFor(env, a)[0..|PiecesOf(a)|] == RowsFor(env, a);
  }

  // Two updates whose embeddings and last writes come in opposite orders.
  lemma {:induction false} RunFirstUpdate(env: Env, o: Article, a: Article, b: Article)
    returns (states: seq<State>, schedule: seq<nat>)
    requires IsId(o.id) && a.id == o.id
    ensures IsRun(env, [CreateCall(o), UpdateCall(a), UpdateCall(b)], states, schedule)
    ensures states[|schedule|].phases == [Finished, Before(3), Before(0)]
    ensures At(states[|schedule|].core, o.id).stored == Some(Text(env, UpdateCall(a)).(storeId := o.storeId))
  {
    var calls := [CreateCall(o), UpdateCall(a), UpdateCall(b)];
    StartIsRun(env, calls);
    CreateEnds(env, Start(calls).core, o);
    states, schedule := RunAhead(env, calls, [Start(calls)], [], 0, Finished);
    UpdateStarts(env, states[|schedule|].core, a);
    states, schedule := RunAhead(env, calls, states, schedule, 1, Before(3));
  }

  lemma {:induction false} RunSecondUpdate(env: Env, o: Article, a: Article, b: Article)
    returns (states: seq<State>, schedule: seq<nat>)
    requires IsId(o.id) && a.id == b.id == o.id
    ensures IsRun(env, [CreateCall(o), UpdateCall(a), UpdateCall(b)], states, schedule)
    ensures states[|schedule|].phases == [Finished, Before(3), Last]
    ensures At(states[|schedule|].core, o.id).stored == Some(Text(env, UpdateCall(b)).(storeId := o.storeId))
  {
    states, schedule := RunFirstUpdate(env, o, a, b);
    UpdateReachesLast(env, states[|schedule|].core, b);
    states, schedule := RunAhead(env, [CreateCall(o), UpdateCall(a), UpdateCall(b)], states, schedule, 2, Last);
  }

  lemma {:induction false} RunFirstToEnd(env: Env, o: Article, a: Article, b: Article)
    returns (states: seq<State>, schedule: seq<nat>)
    requires IsId(o.id) && a.id == b.id == o.id
    ensures IsRun(env, [CreateCall(o), UpdateCall(a), UpdateCall(b)], states, schedule)
    ensures states[|schedule|].phases == [Finished, Finished, Last]
    ensures var a' := Text(env, UpdateCall(a));
      At(states[|schedule|].core, o.id) == Glance(Some(a'.(storeId := o.storeId, embedded := true)), Whole(a'))
  {
    states, schedule := RunSecondUpdate(env, o, a, b);
    CallEnds(env, states[|schedule|].core, UpdateCall(a));
    states, schedule := RunAhead(env, [CreateCall(o), UpdateCall(a), UpdateCall(b)], states, schedule, 1, Finished);
  }

  lemma {:induction false} RunUpdates(env: Env, o: Article, a: Article, b: Article)
    returns (states: seq<State>, schedule: seq<nat>)
    requires IsId(o.id) && a.id == b.id == o.id
    ensures IsRun(env, [CreateCall(o), UpdateCall(a), UpdateCall(b)], states, schedule)
    ensures states[|schedule|].phases == [Finished, Finished, Finished]
    ensures var a', b' := Text(env, UpdateCall(a)), Text(env, UpdateCall(b));
      At(states[|schedule|].core, o.id) == Glance(Some(b'.(storeId := o.storeId, embedded := true)), Whole(a'))
  {
    states, schedule := RunFirstToEnd(env, o, a, b);
    LastAlone(env, states[|schedule|].core, UpdateCall(b));
    states, schedule := RunAhead(env, [CreateCall(o), UpdateCall(a), UpdateCall(b)], states, schedule, 2, Finished);
  }

  // The index shows the text of one and the article table that of the other.
  lemma {:induction false} UpdatesDisagree(env: Env, o: Article, a: Article, b: Article)
    returns (states: seq<State>, schedule: seq<nat>)
    requires IsId(o.id) && a.id == b.id == o.id && !SameText(a, b)
    ensures IsRun(env, [CreateCall(o), UpdateCall(a), UpdateCall(b)], states, schedule)
    ensures states[|schedule|].phases == [Finished, Finished, Finished]
    ensures var w := states[|schedule|].core.world;
      && o.id in w.articles && SameText(w.articles[o.id], b) && !IsExact(env, w, o.id)
      && DocsOf(w.tables, o.id) == [DocFor(a)] && ChunksOf(w.tables, o.id) == RowsFor(env, a)
  {
    states, schedule := RunUpdates(env, o, a, b);
    RowsInTheEnd(env, [CreateCall(o), UpdateCall(a), UpdateCall(b)], states, schedule, o.id);
    var w, a' := states[|schedule|].core.world, Text(env, UpdateCall(a));
    assert o.id in w.articles && o.id in states[|schedule|].core.last;
    assert RowsFor(env, a')[0..|PiecesOf(a')|] == RowsFor(env, a');
    RowsShowText(env, a', a);
    RowsShowText(env, a, w.articles[o.id]);
  }
}
