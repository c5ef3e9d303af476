/** What holds over every run of article operations. */
module ArticleRuns {
  import opened Chunking
  import opened ContentHash
  import opened VectorIndex
  import opened Articles

  // `IndexFile` stands for the other writer of the index, which files documents under its own ids.
  datatype Op = Create(article: Article) | Update(article: Article) | Delete(id: string)
              | IndexFile(doc: DocRow, rows: seq<ChunkRow>)

  ghost predicate Next(env: Env, w: World, op: Op, w': World) {
    match op
    case Create(a) => exists r :: Creates(env, w, a, w', r)
    case Update(a) => w' == Updated(env, w, a)
    case Delete(id) => w' == Removed(w, id)
    case IndexFile(doc, rows) => w' == w.(tables := Inserted(w.tables, doc, rows))
  }

  ghost predicate IsRun(env: Env, worlds: seq<World>, ops: seq<Op>) {
    && |worlds| == |ops| + 1 && worlds[0] == Empty
    && forall i :: 0 <= i < |ops| ==> Next(env, worlds[i], ops[i], worlds[i + 1])
  }

  function Target(op: Op): string {
    match op
    case Create(a) => a.id
    case Update(a) => a.id
    case Delete(id) => id
    case IndexFile(doc, _) => doc.id
  }

  // ---- the chunk index agrees with the stored articles ----

  ghost predicate HasOwnRows(env: Env, t: Tables, a: Article) {
    DocsOf(t, a.id) == [DocFor(a)] && ChunksOf(t, a.id) == RowsFor(env, a)
  }

  ghost predicate HasNoRows(t: Tables, id: string) { DocsOf(t, id) == [] && ChunksOf(t, id) == [] }

  ghost predicate IdIndexed(env: Env, w: World, files: set<string>, id: string) {
    if id in w.articles then w.articles[id].id == id && id !in files && HasOwnRows(env, w.tables, w.articles[id])
    else id in files || HasNoRows(w.tables, id)
  }

  ghost predicate Indexed(env: Env, w: World, files: set<string>) {
    forall id :: IdIndexed(env, w, files, id)
  }

  // Articles have hex or UUID ids apart from those of the files, and only stored ones are updated.
  ghost predicate Proper(w: World, op: Op, files: set<string>) {
    match op
    case Create(a) => IsId(a.id) && a.id !in files
    case Update(a) => IsId(a.id) && a.id in w.articles
    case Delete(id) => IsId(id) && id !in files
    case IndexFile(doc, rows) => doc.id in files && forall i :: 0 <= i < |rows| ==> rows[i].documentId == doc.id
  }

  lemma {:induction false} RowsAreOwn(env: Env, a: Article)
    ensures forall i :: 0 <= i < |RowsFor(env, a)| ==> RowsFor(env, a)[i].documentId == DocFor(a).id
  {
  }

  lemma {:induction false} EmbeddedRows(env: Env, t: Tables, a: Article, d: string)
    ensures d != a.id ==>
              DocsOf(Embedded(env, t, a), d) == DocsOf(t, d) && ChunksOf(Embedded(env, t, a), d) == ChunksOf(t, d)
    ensures IsId(a.id) || HasNoRows(t, a.id) ==> HasOwnRows(env, Embedded(env, t, a), a)
  {
    RowsAreOwn(env, a);
    InsertedRows(t, DocFor(a), RowsFor(env, a), d);
    InsertIsExactIff(t, DocFor(a), RowsFor(env, a));
  }

  // No operation touches the rows of a document it is not about.
  lemma {:induction false} OtherRowsStay(env: Env, w: World, op: Op, w': World, d: string)
    requires Next(env, w, op, w') && d != Target(op)
    requires op.IndexFile? ==> forall i :: 0 <= i < |op.rows| ==> op.rows[i].documentId == op.doc.id
    ensures DocsOf(w'.tables, d) == DocsOf(w.tables, d) && ChunksOf(w'.tables, d) == ChunksOf(w.tables, d)
    ensures d in w'.articles <==> d in w.articles
    ensures d in w.articles ==> w'.articles[d] == w.articles[d]
  {
    match op
    case Create(a) => EmbeddedRows(env, w.tables, a, d);
    case Update(a) =>
      DeletedRows(w.tables, a.id, d);
      EmbeddedRows(env, Deleted(w.tables, a.id), a.(contentHash := env.Hash(a.content)), d);
    case Delete(id) => DeletedRows(w.tables, id, d);
    case IndexFile(doc, rows) => InsertedRows(w.tables, doc, rows, d);
  }

  // Rows depend on the id, title and content of an article only.
  lemma {:induction false} SameRows(env: Env, t: Tables, a: Article, b: Article)
    requires HasOwnRows(env, t, a) && a.id == b.id && a.title == b.title && a.content == b.content
    ensures HasOwnRows(env, t, b)
  {
    assert RowsFor(env, a) == RowsFor(env, b);
  }

  lemma {:induction false} CreateIndexes(env: Env, w: World, a: Article, w': World, files: set<string>)
    requires Next(env, w, Create(a), w') && IsId(a.id) && a.id !in files && IdIndexed(env, w, files, a.id)
    ensures IdIndexed(env, w', files, a.id)
  {
    var r :| Creates(env, w, a, w', r);
    if r.Created? {
      EmbeddedRows(env, w.tables, a, a.id);
      SameRows(env, w'.tables, a, a.(embedded := true));
    }
  }

  lemma {:induction false} UpdateIndexes(env: Env, w: World, a: Article, files: set<string>)
    requires IsId(a.id) && a.id in w.articles && IdIndexed(env, w, files, a.id)
    ensures IdIndexed(env, Updated(env, w, a), files, a.id)
  {
    var a' := a.(contentHash := env.Hash(a.content));
    EmbeddedRows(env, Deleted(w.tables, a.id), a', a.id);
    SameRows(env, Updated(env, w, a).tables, a', Updated(env, w, a).articles[a.id]);
  }

  lemma {:induction false} NextKeepsIndexed(env: Env, w: World, op: Op, w': World, files: set<string>)
    requires Next(env, w, op, w') && Proper(w, op, files) && Indexed(env, w, files)
    ensures Indexed(env, w', files)
  {
    forall d ensures IdIndexed(env, w', files, d) {
      assert IdIndexed(env, w, files, d);
      if d != Target(op) {
        OtherRowsStay(env, w, op, w', d);
      } else {
        match op
        case Create(a) => CreateIndexes(env, w, a, w', files);
        case Update(a) => UpdateIndexes(env, w, a, files);
        case Delete(id) => DeletedRows(w.tables, id, id);
        case IndexFile(_, _) =>
      }
    }
  }

  // Over every run the index holds exactly the chunks of every stored article, one document row
  // each, and nothing for ids that are neither articles nor files.
  lemma {:induction false} EveryRunIsIndexed(env: Env, worlds: seq<World>, ops: seq<Op>, files: set<string>, n: nat)
    requires IsRun(env, worlds, ops) && n <= |ops|
    requires forall i :: 0 <= i < |ops| ==> Proper(worlds[i], ops[i], files)
    ensures Indexed(env, worlds[n], files)
  {
    if n > 0 {
      EveryRunIsIndexed(env, worlds, ops, files, n - 1);
      NextKeepsIndexed(env, worlds[n - 1], ops[n - 1], worlds[n], files);
    } else {
      forall id ensures IdIndexed(env, worlds[0], files, id) {
        assert DocsOf(Tables([], []), id) == [] && ChunksOf(Tables([], []), id) == [];
      }
    }
  }

  // The exact rows: numbered from 0 with the total in each, both as 32-bit numbers, holding the
  // chunks of the content.
  lemma {:induction false} RowsAreNumbered(env: Env, w: World, files: set<string>, id: string)
    requires Indexed(env, w, files) && id in w.articles
    ensures var rows := ChunksOf(w.tables, id);
      var title, chunks := w.articles[id].title, Chunks(w.articles[id].content, 500, 50);
      && |rows| == |chunks|
      && DocsOf(w.tables, id) == [DocRow(id, title, |rows| % 0x1_0000_0000)]
      && forall i :: 0 <= i < |rows| ==>
           rows[i] == ChunkRow(id, i % 0x1_0000_0000, |rows| % 0x1_0000_0000, title, chunks[i], env.embed(chunks[i]))
  {
    assert IdIndexed(env, w, files, id);
  }

  // An update keeps the index exact precisely when its id is stored: updating an unknown id
  // stores no article but indexes its chunks.
  lemma {:induction false} UpdateKeepsIndexIffStored(env: Env, w: World, a: Article, files: set<string>)
    requires Indexed(env, w, files) && IsId(a.id) && a.id !in files
    ensures Indexed(env, Updated(env, w, a), files) <==> a.id in w.articles
  {
    var w' := Updated(env, w, a);
    assert IdIndexed(env, w, files, a.id);
    if a.id in w.articles {
      NextKeepsIndexed(env, w, Update(a), w', files);
    } else {
      EmbeddedRows(env, Deleted(w.tables, a.id), a.(contentHash := env.Hash(a.content)), a.id);
      assert !IdIndexed(env, w', files, a.id);
    }
  }

  // ---- no two articles of a store have the same normal form ----

  ghost predicate Twins(env: Env, x: Article, y: Article) {
    x.storeId == y.storeId && Normal(env.lower, x.content) == Normal(env.lower, y.content)
  }

  ghost predicate Hashed(env: Env, w: World) {
    forall id :: id in w.articles ==> w.articles[id].contentHash == env.Hash(w.articles[id].content)
  }

  ghost predicate NoTwins(env: Env, w: World) {
    forall x, y :: x in w.articles && y in w.articles && x != y ==> !Twins(env, w.articles[x], w.articles[y])
  }

  // Callers compute the hash of what they create.
  ghost predicate Honest(env: Env, op: Op) {
    op.Create? ==> op.article.contentHash == env.Hash(op.article.content)
  }

  lemma {:induction false} CreateAddsNoTwin(env: Env, w: World, a: Article, w': World, r: CreateResult)
    requires env.Valid() && Hashed(env, w) && Creates(env, w, a, w', r) && a.contentHash == env.Hash(a.content)
    ensures Hashed(env, w')
    ensures NoTwins(env, w) ==> NoTwins(env, w')
    ensures r.Duplicate? ==>
              r.existingId in w.articles && Twins(env, w.articles[r.existingId], a) && w'.articles == w.articles
    ensures !r.Duplicate? ==> forall id :: id in w.articles ==> !Twins(env, w.articles[id], a)
  {
    if !r.Duplicate? {
      forall id | id in w.articles ensures !Twins(env, w.articles[id], a) {
        assert !Matches(w, a, id);
      }
    }
  }

  // An update stores the hash of the new text, whatever hash its caller passes.
  lemma {:induction false} UpdateKeepsHashed(env: Env, w: World, a: Article)
    requires Hashed(env, w)
    ensures Hashed(env, Updated(env, w, a))
    ensures a.id in w.articles ==>
              Updated(env, w, a).articles[a.id].contentHash == env.digest(Normal(env.lower, a.content))
  {
  }

  // In every run each stored hash is that of the stored text.
  lemma {:induction false} EveryRunIsHashed(env: Env, worlds: seq<World>, ops: seq<Op>, n: nat)
    requires env.Valid() && IsRun(env, worlds, ops) && n <= |ops|
    requires forall i :: 0 <= i < |ops| ==> Honest(env, ops[i])
    ensures Hashed(env, worlds[n])
  {
    if n > 0 {
      var w, op := worlds[n - 1], ops[n - 1];
      EveryRunIsHashed(env, worlds, ops, n - 1);
      if op.Create? {
        var r :| Creates(env, w, op.article, worlds[n], r);
        CreateAddsNoTwin(env, w, op.article, worlds[n], r);
      } else if op.Update? {
        UpdateKeepsHashed(env, w, op.article);
      }
    }
  }

  // No other article of the store the updated one is in has the normal form of the new content.
  ghost predicate Unclaimed(env: Env, w: World, a: Article) {
    a.id in w.articles ==>
      forall id :: id in w.articles && id != a.id && w.articles[id].storeId == w.articles[a.id].storeId ==>
        Normal(env.lower, w.articles[id].content) != Normal(env.lower, a.content)
  }

  // Updates are not checked for duplicates: one keeps the articles apart exactly when the new
  // content has the normal form of no other article in the same store.
  lemma {:induction false} UpdateKeepsApartIff(env: Env, w: World, a: Article)
    requires NoTwins(env, w)
    ensures NoTwins(env, Updated(env, w, a)) <==> Unclaimed(env, w, a)
  {
    var w' := Updated(env, w, a);
    assert w'.articles.Keys == w.articles.Keys;
    if a.id in w.articles {
      forall id | id in w.articles && id != a.id
        ensures Twins(env, w'.articles[a.id], w'.articles[id]) <==>
          w.articles[id].storeId == w.articles[a.id].storeId &&
          Normal(env.lower, w.articles[id].content) == Normal(env.lower, a.content)
      {
      }
    }
  }

  lemma {:induction false} NextKeepsTwinFreeIff(env: Env, w: World, op: Op, w': World)
    requires env.Valid() && Next(env, w, op, w') && Honest(env, op)
    requires Hashed(env, w) && NoTwins(env, w)
    ensures NoTwins(env, w') <==> (op.Update? ==> Unclaimed(env, w, op.article))
  {
    match op
    case Create(a) =>
      var r :| Creates(env, w, a, w', r);
      CreateAddsNoTwin(env, w, a, w', r);
    case Update(a) => UpdateKeepsApartIff(env, w, a);
    case _ =>
  }

  // A run of creations, updates, deletions and file indexing in which every update so far was to a
  // text no other article of its store had leaves no two articles of a store with one normal form.
  lemma {:induction false} EveryRunIsTwinFree(env: Env, worlds: seq<World>, ops: seq<Op>, n: nat)
    requires env.Valid() && IsRun(env, worlds, ops) && n <= |ops|
    requires forall i :: 0 <= i < |ops| ==> Honest(env, ops[i])
    requires forall i :: 0 <= i < n && ops[i].Update? ==> Unclaimed(env, worlds[i], ops[i].article)
    ensures NoTwins(env, worlds[n])
  {
    if n > 0 {
      EveryRunIsTwinFree(env, worlds, ops, n - 1);
      EveryRunIsHashed(env, worlds, ops, n - 1);
      NextKeepsTwinFreeIff(env, worlds[n - 1], ops[n - 1], worlds[n]);
    }
  }

  // The exact condition over whole runs.
  lemma {:induction false} TwinFreeRunIff(env: Env, worlds: seq<World>, ops: seq<Op>)
    requires env.Valid() && IsRun(env, worlds, ops)
    requires forall i :: 0 <= i < |ops| ==> Honest(env, ops[i])
    ensures (forall n :: 0 <= n <= |ops| ==> NoTwins(env, worlds[n])) <==>
            (forall i :: 0 <= i < |ops| && ops[i].Update? ==> Unclaimed(env, worlds[i], ops[i].article))
  {
    if forall i :: 0 <= i < |ops| && ops[i].Update? ==> Unclaimed(env, worlds[i], ops[i].article) {
      forall n | 0 <= n <= |ops| ensures NoTwins(env, worlds[n]) {
        EveryRunIsTwinFree(env, worlds, ops, n);
      }
    } else {
      var i :| 0 <= i < |ops| && ops[i].Update? && !Unclaimed(env, worlds[i], ops[i].article);
      EveryRunIsHashed(env, worlds, ops, i);
      if NoTwins(env, worlds[i]) {
        NextKeepsTwinFreeIff(env, worlds[i], ops[i], worlds[i + 1]);
      }
    }
  }
}
