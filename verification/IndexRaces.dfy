/** Calls that overlap on one article.  Create, update and delete are many requests each, to the
    article table and to the two tables of the index.  The one lock on the way is that of the
    embedding model: `embed_article` holds it from its first embedding to its end, so no two calls
    write rows at the same time.  The clearing that starts an update or a delete takes no lock. */
module IndexRaces {
  import opened VectorIndex
  import opened Articles

  datatype Call = CreateCall(article: Article) | UpdateCall(article: Article) | DeleteCall(id: string)

  datatype Request = Insert(article: Article) | Merge(article: Article) | Remove(id: string)
                   | DropDoc(id: string) | DropChunks(id: string) | AddDoc(article: Article)
                   | AddChunk(article: Article, i: nat) | Lock | Unlock

  // History: the last embedding under an id, and what of it is there: its document row, and its
  // chunk rows from `from` to `to`.  Rows before `from` have been cleared since.
  datatype Trace = Trace(article: Article, doc: bool, from: nat, to: nat)

  datatype Core = Core(world: World, last: map<string, Trace>)

  // ---- requests ----

  function ArticlesAfter(articles: map<string, Article>, r: Request): map<string, Article> {
    match r
    case Insert(a) => articles[a.id := a]
    case Merge(a) => if a.id in articles then articles[a.id := a.(storeId := articles[a.id].storeId)] else articles
    case Remove(id) => articles - {id}
    case _ => articles
  }

  function TablesAfter(env: Env, t: Tables, r: Request): Tables {
    match r
    case DropDoc(id) => if IsId(id) then t.(docs := Without(t.docs, DocKey, id)) else t
    case DropChunks(id) => if IsId(id) then t.(chunks := Without(t.chunks, ChunkKey, id)) else t
    case AddDoc(a) => t.(docs := t.docs + [DocFor(a)])
    case AddChunk(a, i) => if i < |PiecesOf(a)| then t.(chunks := t.chunks + [RowAt(env, a, i)]) else t
    case _ => t
  }

  function Recorded(last: map<string, Trace>, r: Request): map<string, Trace> {
    match r
    case DropDoc(id) => if IsId(id) && id in last then last[id := last[id].(doc := false)] else last
    case DropChunks(id) => if IsId(id) && id in last then last[id := last[id].(from := last[id].to)] else last
    case AddDoc(a) => last[a.id := Trace(a, true, 0, 0)]
    case AddChunk(a, i) =>
      if i < |PiecesOf(a)| && a.id in last then last[a.id := last[a.id].(to := i + 1)] else last
    case _ => last
  }

  function Serve(env: Env, s: Core, r: Request): Core {
    var w := s.world;
    Core(w.(articles := ArticlesAfter(w.articles, r), tables := TablesAfter(env, w.tables, r)), Recorded(s.last, r))
  }

  // ---- calls ----

  // How far a call is: before the lock, holding it, at its last request, or through.
  datatype Phase = Before(k: nat) | Embed(k: nat) | Last | Finished

  function Target(call: Call): string {
    match call
    case CreateCall(a) => a.id
    case UpdateCall(a) => a.id
    case DeleteCall(id) => id
  }

  // The article a call embeds.
  function Text(env: Env, call: Call): Article
    requires !call.DeleteCall?
  {
    if call.CreateCall? then call.article else call.article.(contentHash := env.Hash(call.article.content))
  }

  function Opening(env: Env, call: Call): seq<Request> {
    match call
    case CreateCall(a) => [Insert(a)]
    case UpdateCall(a) => [DropDoc(a.id), DropChunks(a.id), Merge(Text(env, call))]
    case DeleteCall(id) => [DropDoc(id), DropChunks(id), Remove(id)]
  }

  predicate IsPhase(env: Env, call: Call, ph: Phase) {
    match ph
    case Before(k) => k < |Opening(env, call)| || (k == |Opening(env, call)| && !call.DeleteCall?)
    case Embed(k) => !call.DeleteCall? && k <= 3 + |PiecesOf(Text(env, call))|
    case Last => !call.DeleteCall?
    case Finished => true
  }

  function NextRequest(env: Env, call: Call, ph: Phase): Request
    requires IsPhase(env, call, ph) && ph != Finished
  {
    match ph
    case Before(k) => if k < |Opening(env, call)| then Opening(env, call)[k] else Lock
    case Embed(k) =>
      var a := Text(env, call);
      if k == 0 then DropDoc(a.id)
      else if k == 1 then DropChunks(a.id)
      else if k == 2 then AddDoc(a)
      else if k < 3 + |PiecesOf(a)| then AddChunk(a, k - 3)
      else Unlock
    case Last => Merge(Text(env, call).(embedded := true))
  }

  function NextPhase(env: Env, call: Call, ph: Phase): (next: Phase)
    requires IsPhase(env, call, ph) && ph != Finished
    ensures IsPhase(env, call, next)
  {
    match ph
    case Before(k) =>
      if k == |Opening(env, call)| then Embed(0)
      else if k + 1 == |Opening(env, call)| && call.DeleteCall? then Finished
      else Before(k + 1)
    case Embed(k) => if k < 3 + |PiecesOf(Text(env, call))| then Embed(k + 1) else Last
    case Last => Finished
  }

  // ---- runs ----

  datatype State = State(core: Core, phases: seq<Phase>)

  ghost predicate Enabled(env: Env, calls: seq<Call>, s: State, c: nat) {
    && c < |calls| == |s.phases| && IsPhase(env, calls[c], s.phases[c]) && s.phases[c] != Finished
    && var r := NextRequest(env, calls[c], s.phases[c]);
      && (r.Lock? ==> forall b :: 0 <= b < |calls| ==> !s.phases[b].Embed?)  // the lock is free
      && (r.Insert? ==> r.article.id !in s.core.world.articles)              // or the creation fails
  }

  ghost function Step(env: Env, calls: seq<Call>, s: State, c: nat): State
    requires Enabled(env, calls, s, c)
  {
    State(Serve(env, s.core, NextRequest(env, calls[c], s.phases[c])),
          s.phases[c := NextPhase(env, calls[c], s.phases[c])])
  }

  function Start(calls: seq<Call>): State {
    State(Core(Empty, map[]), seq(|calls|, _ => Before(0)))
  }

  // Any number of calls, their requests interleaved in any way the lock allows.
  ghost predicate IsRun(env: Env, calls: seq<Call>, states: seq<State>, schedule: seq<nat>) {
    && |states| == |schedule| + 1 && states[0] == Start(calls)
    && forall i :: 0 <= i < |schedule| ==>
         Enabled(env, calls, states[i], schedule[i]) && states[i + 1] == Step(env, calls, states[i], schedule[i])
  }

  // ---- what every state satisfies ----

  // The rows under an id, going by the history.
  function TracedDocs(last: map<string, Trace>, d: string): seq<DocRow> {
    if d in last && last[d].doc then [DocFor(last[d].article)] else []
  }

  predicate IsSound(last: map<string, Trace>, d: string) {
    d in last ==> last[d].article.id == d && last[d].from <= last[d].to <= |PiecesOf(last[d].article)|
  }

  function TracedChunks(env: Env, last: map<string, Trace>, d: string): seq<ChunkRow>
    requires IsSound(last, d)
  {
    if d in last then RowsFor(env, last[d].article)[last[d].from..last[d].to] else []
  }

  ghost predicate RowsAsTraced(env: Env, t: Tables, last: map<string, Trace>, d: string) {
    IsSound(last, d) && DocsOf(t, d) == TracedDocs(last, d) && ChunksOf(t, d) == TracedChunks(env, last, d)
  }

  // How far the embedding of call c is, seen in the history; other ids have complete embeddings.
  ghost predicate AtWork(env: Env, call: Call, k: nat, last: map<string, Trace>)
    requires IsPhase(env, call, Embed(k))
  {
    var d := Target(call);
    IsId(d) ==>
    && (k == 1 && d in last ==> !last[d].doc)
    && (k == 2 && d in last ==> !last[d].doc && last[d].from == last[d].to)
    && (k >= 3 ==> d in last && last[d].article == Text(env, call) && last[d].to == k - 3)
  }

  predicate IsWriting(call: Call, ph: Phase, d: string) { ph.Embed? && ph.k >= 3 && Target(call) == d }

  ghost predicate NobodyWrites(calls: seq<Call>, s: State, d: string)
    requires |s.phases| == |calls|
  {
    forall c :: 0 <= c < |calls| ==> !IsWriting(calls[c], s.phases[c], d)
  }

  ghost predicate IdOk(env: Env, calls: seq<Call>, s: State, d: string)
    requires |s.phases| == |calls|
  {
    && RowsAsTraced(env, s.core.world.tables, s.core.last, d)
    && (NobodyWrites(calls, s, d) ==> IsWhole(s.core.last, d))
    && (d in s.core.world.articles ==> s.core.world.articles[d].id == d)
  }

  ghost predicate Inv(env: Env, calls: seq<Call>, s: State) {
    && |s.phases| == |calls|
    && (forall c :: 0 <= c < |calls| ==> IsPhase(env, calls[c], s.phases[c]))
    && (forall b, c :: 0 <= b < c < |calls| ==> !(s.phases[b].Embed? && s.phases[c].Embed?))
    && (forall c :: 0 <= c < |calls| && s.phases[c].Embed? ==> AtWork(env, calls[c], s.phases[c].k, s.core.last))
    && forall d :: IsId(d) ==> IdOk(env, calls, s, d)
  }

  // ---- every request keeps it ----

  predicate Adds(r: Request) { r.AddDoc? || r.AddChunk? }

  // What the index needs of the history when rows are added: none are there before a document row,
  // and chunk rows come in order.
  ghost predicate Fits(last: map<string, Trace>, r: Request, d: string) {
    && (r.AddDoc? && r.article.id == d && d in last ==> !last[d].doc && last[d].from == last[d].to)
    && (r.AddChunk? && r.article.id == d ==>
          d in last && last[d].article == r.article && last[d].to == r.i < |PiecesOf(r.article)|)
  }

  lemma {:induction false} StaysSound(last: map<string, Trace>, r: Request, d: string)
    requires IsSound(last, d) && Fits(last, r, d)
    ensures IsSound(Recorded(last, r), d)
  {
  }

  lemma {:induction false} OneMoreDoc(docs: seq<DocRow>, a: Article, d: string)
    ensures Of(docs + [DocFor(a)], DocKey, d) == Of(docs, DocKey, d) + if a.id == d then [DocFor(a)] else []
  {
    OfConcat(docs, [DocFor(a)], DocKey, d);
    OfOwn([DocFor(a)], DocKey, a.id, d);
  }

  lemma {:induction false} DocsAfter(env: Env, t: Tables, r: Request, d: string)
    requires IsId(d)
    ensures DocsOf(TablesAfter(env, t, r), d) ==
            if r == DropDoc(d) then []
            else if r.AddDoc? && r.article.id == d then DocsOf(t, d) + [DocFor(r.article)]
            else DocsOf(t, d)
  {
    match r
    case DropDoc(id) => OfWithout(t.docs, DocKey, id, d);
    case AddDoc(a) => OneMoreDoc(t.docs, a, d);
    case _ =>
  }

  lemma {:induction false} TracedDocsAfter(last: map<string, Trace>, r: Request, d: string)
    requires IsId(d) && Fits(last, r, d)
    ensures TracedDocs(Recorded(last, r), d) ==
            if r == DropDoc(d) then []
            else if r.AddDoc? && r.article.id == d then TracedDocs(last, d) + [DocFor(r.article)]
            else TracedDocs(last, d)
  {
  }

  lemma {:induction false} OneMoreChunk(env: Env, chunks: seq<ChunkRow>, a: Article, i: nat, d: string)
    requires i < |PiecesOf(a)|
    ensures Of(chunks + [RowAt(env, a, i)], ChunkKey, d)
         == Of(chunks, ChunkKey, d) + if a.id == d then [RowAt(env, a, i)] else []
  {
    OfConcat(chunks, [RowAt(env, a, i)], ChunkKey, d);
    OfOwn([RowAt(env, a, i)], ChunkKey, a.id, d);
  }

  lemma {:induction false} AddedRow(env: Env, a: Article, from: nat, i: nat)
    requires from <= i < |PiecesOf(a)|
    ensures RowsFor(env, a)[from..i] + [RowAt(env, a, i)] == RowsFor(env, a)[from..i + 1]
  {
  }

  // Which requests change the chunk rows of d, going by the history.
  lemma {:induction false} SameSpan(last: map<string, Trace>, r: Request, d: string)
    requires IsId(d) && r != DropChunks(d) && !(Adds(r) && r.article.id == d)
    ensures var after := Recorded(last, r);
      && (d in after <==> d in last)
      && (d in last ==> after[d] == last[d].(doc := after[d].doc))
  {
  }

  lemma {:induction false} NewSpan(last: map<string, Trace>, r: Request, d: string)
    requires IsId(d) && Fits(last, r, d) && (r == DropChunks(d) || (Adds(r) && r.article.id == d))
    ensures var after := Recorded(last, r);
      if r.AddChunk? then d in after && after[d] == last[d].(to := r.i + 1)
      else d in after ==> after[d].from == after[d].to
    ensures r.AddDoc? && d in last ==> last[d].from == last[d].to
  {
  }

  lemma {:induction false} TracedChunksAfter(env: Env, last: map<string, Trace>, r: Request, d: string)
    requires IsId(d) && IsSound(last, d) && Fits(last, r, d) && IsSound(Recorded(last, r), d)
    ensures TracedChunks(env, Recorded(last, r), d) ==
            if r == DropChunks(d) then []
            else if r.AddChunk? && r.article.id == d then TracedChunks(env, last, d) + [RowAt(env, r.article, r.i)]
            else TracedChunks(env, last, d)
  {
    if r == DropChunks(d) || (Adds(r) && r.article.id == d) {
      NewSpan(last, r, d);
      if r.AddChunk? {
        AddedRow(env, r.article, last[d].from, r.i);
      }
    } else {
      SameSpan(last, r, d);
    }
  }

  lemma {:induction false} ChunksAfter(env: Env, t: Tables, r: Request, d: string)
    requires IsId(d) && (r.AddChunk? ==> r.article.id == d ==> r.i < |PiecesOf(r.article)|)
    ensures ChunksOf(TablesAfter(env, t, r), d) ==
            if r == DropChunks(d) then []
            else if r.AddChunk? && r.article.id == d then ChunksOf(t, d) + [RowAt(env, r.article, r.i)]
            else ChunksOf(t, d)
  {
    match r
    case DropChunks(id) => OfWithout(t.chunks, ChunkKey, id, d);
    case AddChunk(a, i) => if i < |PiecesOf(a)| { OneMoreChunk(env, t.chunks, a, i, d); }
    case _ =>
  }

  lemma {:induction false} RequestKeepsRows(env: Env, t: Tables, last: map<string, Trace>, r: Request, d: string)
    requires IsId(d) && RowsAsTraced(env, t, last, d) && Fits(last, r, d)
    ensures RowsAsTraced(env, TablesAfter(env, t, r), Recorded(last, r), d)
  {
    StaysSound(last, r, d);
    DocsAfter(env, t, r, d);
    TracedDocsAfter(last, r, d);
    TracedChunksAfter(env, last, r, d);
    ChunksAfter(env, t, r, d);
  }

  // ---- every step keeps it ----

  // Rows are added under the lock only.
  lemma {:induction false} OutsideAddsNothing(env: Env, call: Call, ph: Phase)
    requires IsPhase(env, call, ph) && ph != Finished && !ph.Embed?
    ensures !Adds(NextRequest(env, call, ph))
  {
  }

  // The holder of the lock finds its work as it left it: other calls only clear meanwhile.
  lemma {:induction false} ClearingKeepsWork(env: Env, call: Call, k: nat, last: map<string, Trace>, r: Request)
    requires IsPhase(env, call, Embed(k)) && AtWork(env, call, k, last) && !Adds(r)
    ensures AtWork(env, call, k, Recorded(last, r))
  {
  }

  lemma {:induction false} OwnRequestKeepsWork(env: Env, call: Call, k: nat, last: map<string, Trace>)
    requires IsPhase(env, call, Embed(k)) && AtWork(env, call, k, last) && k < 3 + |PiecesOf(Text(env, call))|
    ensures AtWork(env, call, k + 1, Recorded(last, NextRequest(env, call, Embed(k))))
  {
  }

  lemma {:induction false} OwnRequestFits(env: Env, call: Call, k: nat, last: map<string, Trace>, d: string)
    requires IsPhase(env, call, Embed(k)) && AtWork(env, call, k, last) && IsId(d)
    ensures Fits(last, NextRequest(env, call, Embed(k)), d)
  {
  }

  lemma {:induction false} StepFits(env: Env, calls: seq<Call>, s: State, c: nat, d: string)
    requires Inv(env, calls, s) && Enabled(env, calls, s, c) && IsId(d)
    ensures Fits(s.core.last, NextRequest(env, calls[c], s.phases[c]), d)
  {
    if s.phases[c].Embed? {
      OwnRequestFits(env, calls[c], s.phases[c].k, s.core.last, d);
    } else {
      OutsideAddsNothing(env, calls[c], s.phases[c]);
    }
  }

  lemma {:induction false} StepKeepsOwnWork(env: Env, calls: seq<Call>, s: State, c: nat)
    requires Inv(env, calls, s) && Enabled(env, calls, s, c) && Step(env, calls, s, c).phases[c].Embed?
    ensures AtWork(env, calls[c], Step(env, calls, s, c).phases[c].k, Step(env, calls, s, c).core.last)
  {
    if s.phases[c].Embed? {
      OwnRequestKeepsWork(env, calls[c], s.phases[c].k, s.core.last);
    }
  }

  lemma {:induction false} StepKeepsOthersWork(env: Env, calls: seq<Call>, s: State, c: nat, b: nat)
    requires Inv(env, calls, s) && Enabled(env, calls, s, c) && b < |calls| && b != c && s.phases[b].Embed?
    ensures !Step(env, calls, s, c).phases[c].Embed?
    ensures AtWork(env, calls[b], s.phases[b].k, Step(env, calls, s, c).core.last)
  {
    assert !s.phases[c].Embed?;
    OutsideAddsNothing(env, calls[c], s.phases[c]);
    ClearingKeepsWork(env, calls[b], s.phases[b].k, s.core.last, NextRequest(env, calls[c], s.phases[c]));
  }

  predicate IsWhole(last: map<string, Trace>, d: string) {
    d in last ==> last[d].to == |PiecesOf(last[d].article)|
  }

  lemma {:induction false} ClearingKeepsWhole(last: map<string, Trace>, r: Request, d: string)
    requires IsWhole(last, d) && (Adds(r) ==> r.article.id != d)
    ensures IsWhole(Recorded(last, r), d)
  {
  }

  // The last chunk row completes an embedding.
  lemma {:induction false} OwnRequestKeepsWhole(env: Env, call: Call, k: nat, last: map<string, Trace>, d: string)
    requires IsPhase(env, call, Embed(k)) && AtWork(env, call, k, last) && IsId(d)
    requires !IsWriting(call, NextPhase(env, call, Embed(k)), d)
    requires IsWriting(call, Embed(k), d) || IsWhole(last, d)
    ensures IsWhole(Recorded(last, NextRequest(env, call, Embed(k))), d)
  {
    if IsWriting(call, Embed(k), d) {
      assert NextRequest(env, call, Embed(k)) == Unlock;
    } else {
      ClearingKeepsWhole(last, NextRequest(env, call, Embed(k)), d);
    }
  }

  lemma {:induction false} StepKeepsWhole(env: Env, calls: seq<Call>, s: State, c: nat, d: string)
    requires Inv(env, calls, s) && Enabled(env, calls, s, c) && IsId(d)
    requires NobodyWrites(calls, Step(env, calls, s, c), d)
    ensures IsWhole(Step(env, calls, s, c).core.last, d)
  {
    var s', ph := Step(env, calls, s, c), s.phases[c];
    assert !IsWriting(calls[c], s'.phases[c], d);
    if !IsWriting(calls[c], ph, d) {
      forall b | 0 <= b < |calls| ensures !IsWriting(calls[b], s.phases[b], d) {
        assert !IsWriting(calls[b], s'.phases[b], d);
      }
      assert IdOk(env, calls, s, d);
    }
    if ph.Embed? {
      OwnRequestKeepsWhole(env, calls[c], ph.k, s.core.last, d);
    } else {
      OutsideAddsNothing(env, calls[c], ph);
      ClearingKeepsWhole(s.core.last, NextRequest(env, calls[c], ph), d);
    }
  }

  lemma {:induction false} RequestKeepsIds(articles: map<string, Article>, r: Request, d: string)
    requires d in articles ==> articles[d].id == d
    ensures d in ArticlesAfter(articles, r) ==> ArticlesAfter(articles, r)[d].id == d
  {
  }

  lemma {:induction false} StepKeepsMutex(env: Env, calls: seq<Call>, s: State, c: nat, a: nat, b: nat)
    requires Inv(env, calls, s) && Enabled(env, calls, s, c) && a < b < |calls|
    ensures !(Step(env, calls, s, c).phases[a].Embed? && Step(env, calls, s, c).phases[b].Embed?)
  {
    if a == c && s.phases[b].Embed? {
      StepKeepsOthersWork(env, calls, s, c, b);
    }
    if b == c && s.phases[a].Embed? {
      StepKeepsOthersWork(env, calls, s, c, a);
    }
  }

  lemma {:induction false} StepKeepsId(env: Env, calls: seq<Call>, s: State, c: nat, d: string)
    requires Inv(env, calls, s) && Enabled(env, calls, s, c) && IsId(d)
    ensures IdOk(env, calls, Step(env, calls, s, c), d)
  {
    var r := NextRequest(env, calls[c], s.phases[c]);
    assert IdOk(env, calls, s, d);
    StepFits(env, calls, s, c, d);
    RequestKeepsRows(env, s.core.world.tables, s.core.last, r, d);
    RequestKeepsIds(s.core.world.articles, r, d);
    if NobodyWrites(calls, Step(env, calls, s, c), d) {
      StepKeepsWhole(env, calls, s, c, d);
    }
  }

  lemma {:induction false} StepKeepsInv(env: Env, calls: seq<Call>, s: State, c: nat)
    requires Inv(env, calls, s) && Enabled(env, calls, s, c)
    ensures Inv(env, calls, Step(env, calls, s, c))
  {
    var s' := Step(env, calls, s, c);
    forall a, b | 0 <= a < b < |calls| ensures !(s'.phases[a].Embed? && s'.phases[b].Embed?) {
      StepKeepsMutex(env, calls, s, c, a, b);
    }
    forall b | 0 <= b < |calls| && s'.phases[b].Embed?
      ensures IsPhase(env, calls[b], s'.phases[b]) && AtWork(env, calls[b], s'.phases[b].k, s'.core.last)
    {
      if b == c {
        StepKeepsOwnWork(env, calls, s, c);
      } else {
        StepKeepsOthersWork(env, calls, s, c, b);
      }
    }
    forall d | IsId(d) ensures IdOk(env, calls, s', d) {
      StepKeepsId(env, calls, s, c, d);
    }
  }

  lemma {:induction false} StartInv(env: Env, calls: seq<Call>)
    ensures Inv(env, calls, Start(calls))
  {
    forall d | IsId(d) ensures IdOk(env, calls, Start(calls), d) {
      assert DocsOf(Empty.tables, d) == [] && ChunksOf(Empty.tables, d) == [];
    }
  }

  lemma {:induction false} EveryStateKeepsInv(env: Env, calls: seq<Call>, states: seq<State>, schedule: seq<nat>,
                                              n: nat)
    requires IsRun(env, calls, states, schedule) && n <= |schedule|
    ensures Inv(env, calls, states[n])
  {
    if n > 0 {
      EveryStateKeepsInv(env, calls, states, schedule, n - 1);
      StepKeepsInv(env, calls, states[n - 1], schedule[n - 1]);
    } else {
      StartInv(env, calls);
    }
  }
}
