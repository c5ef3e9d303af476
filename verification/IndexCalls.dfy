/** A call on its own: its requests, with nothing in between, do what the operation on whole worlds does. */
module IndexCalls {
  import opened VectorIndex
  import opened Articles
  import opened IndexRaces

  // ---- a call on its own ----

  function Left(env: Env, call: Call, ph: Phase): nat
    requires IsPhase(env, call, ph)
  {
    match ph
    case Before(k) =>
      |Opening(env, call)| - k + 6 + if call.DeleteCall? then 0 else |PiecesOf(Text(env, call))|
    case Embed(k) => 5 + |PiecesOf(Text(env, call))| - k
    case Last => 1
    case Finished => 0
  }

  // What the call's requests do up to phase `goal`, if it has the store to itself.
  function Alone(env: Env, s: Core, call: Call, ph: Phase, goal: Phase): Core
    requires IsPhase(env, call, ph)
    decreases Left(env, call, ph)
  {
    if ph == goal || ph == Finished then s
    else Alone(env, Serve(env, s, NextRequest(env, call, ph)), call, NextPhase(env, call, ph), goal)
  }

  function Reached(env: Env, call: Call, ph: Phase, goal: Phase): (r: Phase)
    requires IsPhase(env, call, ph)
    ensures IsPhase(env, call, r)
    decreases Left(env, call, ph)
  {
    if ph == goal || ph == Finished then ph else Reached(env, call, NextPhase(env, call, ph), goal)
  }

  lemma {:induction false} AloneVia(env: Env, s: Core, call: Call, ph: Phase, mid: Phase)
    requires IsPhase(env, call, ph) && Reached(env, call, ph, mid) == mid
    ensures Alone(env, s, call, ph, Finished) == Alone(env, Alone(env, s, call, ph, mid), call, mid, Finished)
    decreases Left(env, call, ph)
  {
    if ph != mid && ph != Finished {
      AloneVia(env, Serve(env, s, NextRequest(env, call, ph)), call, NextPhase(env, call, ph), mid);
    }
  }

  lemma {:induction false} ReachesEnd(env: Env, call: Call, ph: Phase)
    requires IsPhase(env, call, ph)
    ensures Reached(env, call, ph, Finished) == Finished
    ensures !call.DeleteCall? && ph != Finished ==> Reached(env, call, ph, Last) == Last
    decreases Left(env, call, ph)
  {
    if ph != Finished {
      ReachesEnd(env, call, NextPhase(env, call, ph));
    }
  }

  function WithChunks(w: World, rows: seq<ChunkRow>): World {
    w.(tables := w.tables.(chunks := w.tables.chunks + rows))
  }

  lemma {:induction false} ChunkByChunk(env: Env, w: World, a: Article, k: nat)
    requires k < |PiecesOf(a)|
    ensures WithChunks(WithChunks(w, [RowAt(env, a, k)]), RowsFor(env, a)[k + 1..])
         == WithChunks(w, RowsFor(env, a)[k..])
  {
    assert RowsFor(env, a)[k..] == [RowAt(env, a, k)] + RowsFor(env, a)[k + 1..];
    assert w.tables.chunks + [RowAt(env, a, k)] + RowsFor(env, a)[k + 1..] == w.tables.chunks + RowsFor(env, a)[k..];
  }

  lemma {:induction false} StepAlone(env: Env, s: Core, call: Call, ph: Phase, goal: Phase)
    requires IsPhase(env, call, ph) && ph != goal && ph != Finished
    ensures Alone(env, s, call, ph, goal)
         == Alone(env, Serve(env, s, NextRequest(env, call, ph)), call, NextPhase(env, call, ph), goal)
    ensures Reached(env, call, ph, goal) == Reached(env, call, NextPhase(env, call, ph), goal)
  {
  }

  lemma {:induction false} OneChunkAlone(env: Env, s: Core, call: Call, k: nat) returns (s': Core)
    requires !call.DeleteCall? && k < |PiecesOf(Text(env, call))|
    ensures Alone(env, s, call, Embed(3 + k), Last) == Alone(env, s', call, Embed(4 + k), Last)
    ensures var a := Text(env, call);
      && s'.world == WithChunks(s.world, [RowAt(env, a, k)])
      && (a.id in s.last ==> a.id in s'.last && s'.last[a.id] == s.last[a.id].(to := k + 1))
  {
    s' := Serve(env, s, AddChunk(Text(env, call), k));
    StepAlone(env, s, call, Embed(3 + k), Last);
  }

  lemma {:induction false} NoMoreChunks(env: Env, s: Core, call: Call)
    requires !call.DeleteCall?
    ensures var a, n := Text(env, call), |PiecesOf(Text(env, call))|;
      && Alone(env, s, call, Embed(3 + n), Last) == s
      && WithChunks(s.world, RowsFor(env, a)[n..]) == s.world
  {
    var a, n := Text(env, call), |PiecesOf(Text(env, call))|;
    StepAlone(env, s, call, Embed(3 + n), Last);
    assert RowsFor(env, a)[n..] == [] && s.world.tables.chunks + [] == s.world.tables.chunks;
  }

  // What the chunk rows of an embedding add, from row k on: to the index, and to the history.
  lemma {:induction false} AddsChunks(env: Env, s: Core, call: Call, k: nat)
    requires !call.DeleteCall? && k <= |PiecesOf(Text(env, call))|
    ensures Alone(env, s, call, Embed(3 + k), Last).world == WithChunks(s.world, RowsFor(env, Text(env, call))[k..])
    decreases |PiecesOf(Text(env, call))| - k
  {
    if k < |PiecesOf(Text(env, call))| {
      var s' := OneChunkAlone(env, s, call, k);
      AddsChunks(env, s', call, k + 1);
      ChunkByChunk(env, s.world, Text(env, call), k);
    } else {
      NoMoreChunks(env, s, call);
    }
  }

  lemma {:induction false} CountsChunks(env: Env, s: Core, call: Call, k: nat)
    requires !call.DeleteCall? && k <= |PiecesOf(Text(env, call))|
    requires Text(env, call).id in s.last && s.last[Text(env, call).id].to == k
    ensures var a, last := Text(env, call), Alone(env, s, call, Embed(3 + k), Last).last;
      a.id in last && last[a.id] == s.last[a.id].(to := |PiecesOf(a)|)
    decreases |PiecesOf(Text(env, call))| - k
  {
    if k < |PiecesOf(Text(env, call))| {
      var s' := OneChunkAlone(env, s, call, k);
      CountsChunks(env, s', call, k + 1);
    } else {
      NoMoreChunks(env, s, call);
    }
  }

  // The old rows gone and the document row added.
  function DocWritten(env: Env, s: Core, a: Article): Core {
    Serve(env, Serve(env, Serve(env, s, DropDoc(a.id)), DropChunks(a.id)), AddDoc(a))
  }

  lemma {:induction false} WritesDocAlone(env: Env, s: Core, call: Call, goal: Phase)
    requires !call.DeleteCall? && (goal.Embed? ==> goal.k >= 3)
    ensures Alone(env, s, call, Embed(0), goal) == Alone(env, DocWritten(env, s, Text(env, call)), call, Embed(3), goal)
    ensures Reached(env, call, Embed(0), goal) == Reached(env, call, Embed(3), goal)
  {
    var a := Text(env, call);
    var s1 := Serve(env, s, DropDoc(a.id));
    StepAlone(env, s, call, Embed(0), goal);
    StepAlone(env, s1, call, Embed(1), goal);
    StepAlone(env, Serve(env, s1, DropChunks(a.id)), call, Embed(2), goal);
  }

  lemma {:induction false} DocIsWritten(env: Env, s: Core, a: Article)
    ensures var s' := DocWritten(env, s, a);
      && WithChunks(s'.world, RowsFor(env, a)) == s.world.(tables := Embedded(env, s.world.tables, a))
      && a.id in s'.last && s'.last[a.id] == Trace(a, true, 0, 0)
  {
  }

  // What an embedding does, from taking the lock to releasing it.
  lemma {:induction false} EmbedsAlone(env: Env, s: Core, call: Call)
    requires !call.DeleteCall?
    ensures var a, s' := Text(env, call), Alone(env, s, call, Embed(0), Last);
      && s'.world == s.world.(tables := Embedded(env, s.world.tables, a))
      && a.id in s'.last && s'.last[a.id] == Trace(a, true, 0, |PiecesOf(a)|)
  {
    var a := Text(env, call);
    WritesDocAlone(env, s, call, Last);
    DocIsWritten(env, s, a);
    AddsChunks(env, DocWritten(env, s, a), call, 0);
    CountsChunks(env, DocWritten(env, s, a), call, 0);
    assert RowsFor(env, a)[0..] == RowsFor(env, a);
  }

  // The requests before the lock.
  function Opened(env: Env, s: Core, call: Call): Core {
    match call
    case CreateCall(a) => Serve(env, s, Insert(a))
    case UpdateCall(a) =>
      Serve(env, Serve(env, Serve(env, s, DropDoc(a.id)), DropChunks(a.id)), Merge(Text(env, call)))
    case DeleteCall(id) => Serve(env, Serve(env, Serve(env, s, DropDoc(id)), DropChunks(id)), Remove(id))
  }

  lemma {:induction false} OpensAlone(env: Env, s: Core, call: Call, goal: Phase)
    requires goal.Before? ==> goal.k >= |Opening(env, call)|
    ensures Alone(env, s, call, Before(0), goal) ==
      Alone(env, Opened(env, s, call), call, if call.DeleteCall? then Finished else Before(|Opening(env, call)|), goal)
  {
    var rs := Opening(env, call);
    var s1 := Serve(env, s, rs[0]);
    if !call.CreateCall? {
      var s2 := Serve(env, s1, rs[1]);
      assert Alone(env, s, call, Before(0), goal) == Alone(env, s1, call, Before(1), goal);
      assert Alone(env, s1, call, Before(1), goal) == Alone(env, s2, call, Before(2), goal);
    }
  }

  lemma {:induction false} LastAlone(env: Env, s: Core, call: Call)
    requires !call.DeleteCall?
    ensures Alone(env, s, call, Last, Finished) == Serve(env, s, Merge(Text(env, call).(embedded := true)))
    ensures Reached(env, call, Last, Finished) == Finished
  {
    StepAlone(env, s, call, Last, Finished);
  }

  lemma {:induction false} LockAlone(env: Env, s: Core, call: Call, goal: Phase)
    requires !call.DeleteCall? && goal != Before(|Opening(env, call)|)
    ensures Alone(env, s, call, Before(|Opening(env, call)|), goal) == Alone(env, s, call, Embed(0), goal)
    ensures Reached(env, call, Before(|Opening(env, call)|), goal) == Reached(env, call, Embed(0), goal)
  {
    StepAlone(env, s, call, Before(|Opening(env, call)|), goal);
    assert Serve(env, s, Lock) == s;
  }

  // From the lock to the end: the embedding, then the last request.
  lemma {:induction false} EndsInTwo(env: Env, s: Core, call: Call)
    requires !call.DeleteCall?
    ensures Alone(env, s, call, Before(|Opening(env, call)|), Finished)
         == Serve(env, Alone(env, s, call, Embed(0), Last), Merge(Text(env, call).(embedded := true)))
  {
    LockAlone(env, s, call, Finished);
    ReachesEnd(env, call, Embed(0));
    AloneVia(env, s, call, Embed(0), Last);
    LastAlone(env, Alone(env, s, call, Embed(0), Last), call);
  }

  lemma {:induction false} MergeOnly(env: Env, s: Core, a: Article)
    ensures Serve(env, s, Merge(a)).world == s.world.(articles := ArticlesAfter(s.world.articles, Merge(a)))
    ensures Serve(env, s, Merge(a)).last == s.last
  {
  }

  lemma {:induction false} EndsAlone(env: Env, s: Core, call: Call)
    requires !call.DeleteCall?
    ensures var a, s' := Text(env, call), Alone(env, s, call, Before(|Opening(env, call)|), Finished);
      && s'.world == s.world.(tables := Embedded(env, s.world.tables, a),
                              articles := ArticlesAfter(s.world.articles, Merge(a.(embedded := true))))
      && a.id in s'.last && s'.last[a.id] == Trace(a, true, 0, |PiecesOf(a)|)
  {
    EndsInTwo(env, s, call);
    EmbedsAlone(env, s, call);
    MergeOnly(env, Alone(env, s, call, Embed(0), Last), Text(env, call).(embedded := true));
  }

  // One call after the other, the requests do what the operations on whole worlds do.
  lemma {:induction false} UpdateAlone(env: Env, s: Core, a: Article)
    ensures Alone(env, s, UpdateCall(a), Before(0), Finished).world == Updated(env, s.world, a)
  {
    OpensAlone(env, s, UpdateCall(a), Finished);
    EndsAlone(env, Opened(env, s, UpdateCall(a)), UpdateCall(a));
    UpdateOpens(env, s, a);
  }

  lemma {:induction false} UpdateOpens(env: Env, s: Core, a: Article)
    ensures var w, a' := s.world, Text(env, UpdateCall(a));
      && Opened(env, s, UpdateCall(a)).world
         == w.(tables := Deleted(w.tables, a.id), articles := ArticlesAfter(w.articles, Merge(a')))
      && ArticlesAfter(ArticlesAfter(w.articles, Merge(a')), Merge(a'.(embedded := true)))
         == ArticlesAfter(w.articles, Merge(a'.(embedded := true)))
  {
  }

  lemma {:induction false} CreateAlone(env: Env, s: Core, a: Article, w': World)
    requires Creates(env, s.world, a, w', Created)
    ensures Alone(env, s, CreateCall(a), Before(0), Finished).world == w'
  {
    OpensAlone(env, s, CreateCall(a), Finished);
    EndsAlone(env, Opened(env, s, CreateCall(a)), CreateCall(a));
    assert w'.articles == s.world.articles[a.id := a][a.id := a.(embedded := true)];
  }

  lemma {:induction false} DeleteAlone(env: Env, s: Core, id: string)
    ensures Alone(env, s, DeleteCall(id), Before(0), Finished).world == Removed(s.world, id)
  {
    OpensAlone(env, s, DeleteCall(id), Finished);
  }
}
