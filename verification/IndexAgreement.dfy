/** When the chunk index agrees with the article table while calls overlap. */
module IndexAgreement {
  import opened VectorIndex
  import opened Articles
  import opened IndexRaces
  import ArticleRuns

  // ---- one embedding at a time ----

  // In every state of every run an id has at most one document row, and its chunk rows are
  // consecutive rows of a single embedding, the same that the document row describes.
  lemma {:induction false} RowsOfOneEmbedding(env: Env, calls: seq<Call>, states: seq<State>, schedule: seq<nat>,
                                              n: nat, d: string)
    returns (a: Article, from: nat, to: nat)
    requires IsRun(env, calls, states, schedule) && n <= |schedule| && IsId(d)
    ensures from <= to <= |RowsFor(env, a)|
    ensures var t := states[n].core.world.tables;
      (DocsOf(t, d) == [] || DocsOf(t, d) == [DocFor(a)]) && ChunksOf(t, d) == RowsFor(env, a)[from..to]
  {
    EveryStateKeepsInv(env, calls, states, schedule, n);
    var last := states[n].core.last;
    assert IdOk(env, calls, states[n], d);
    if d in last {
      a, from, to := last[d].article, last[d].from, last[d].to;
    } else {
      a, from, to := Article(d, "", "", "", "", false), 0, 0;
    }
  }

  // ---- when the index agrees with the article table ----

  ghost predicate IsExact(env: Env, w: World, d: string) {
    if d in w.articles then ArticleRuns.HasOwnRows(env, w.tables, w.articles[d]) else ArticleRuns.HasNoRows(w.tables, d)
  }

  predicate SameText(a: Article, b: Article) { a.title == b.title && PiecesOf(a) == PiecesOf(b) }

  // The last embedding is of the stored text and nothing of it has been cleared since; if no article
  // is stored, all of it has.
  predicate IsCurrent(s: Core, d: string) {
    if d in s.world.articles
    then d in s.last && s.last[d].doc && s.last[d].from == 0 && SameText(s.last[d].article, s.world.articles[d])
    else d in s.last ==> !s.last[d].doc && s.last[d].from == s.last[d].to
  }

  lemma {:induction false} RowsShowText(env: Env, a: Article, b: Article)
    requires a.id == b.id
    ensures DocFor(a) == DocFor(b) && RowsFor(env, a) == RowsFor(env, b) <==> SameText(a, b)
  {
    if RowsFor(env, a) == RowsFor(env, b) {
      assert |PiecesOf(a)| == |RowsFor(env, a)| == |PiecesOf(b)|;
      forall i | 0 <= i < |PiecesOf(a)| ensures PiecesOf(a)[i] == PiecesOf(b)[i] {
        assert RowsFor(env, a)[i].text == PiecesOf(a)[i] && RowsFor(env, b)[i].text == PiecesOf(b)[i];
      }
      assert PiecesOf(a) == PiecesOf(b);
    }
  }

  // The document row says how many rows there are.
  lemma {:induction false} NoneIsMissing(env: Env, a: Article, from: nat, b: Article)
    requires from <= |PiecesOf(a)| < 0x1_0000_0000
    requires DocFor(a) == DocFor(b) && RowsFor(env, a)[from..] == RowsFor(env, b)
    ensures from == 0
  {
    assert |RowsFor(env, a)[from..]| == |PiecesOf(a)| - from && |RowsFor(env, b)| == |PiecesOf(b)|;
  }

  lemma {:induction false} OwnRowsIff(env: Env, t: Tables, e: Trace, b: Article)
    requires e.article.id == b.id && e.from <= e.to == |PiecesOf(e.article)| < 0x1_0000_0000
    requires DocsOf(t, b.id) == if e.doc then [DocFor(e.article)] else []
    requires ChunksOf(t, b.id) == RowsFor(env, e.article)[e.from..e.to]
    ensures ArticleRuns.HasOwnRows(env, t, b) <==> e.doc && e.from == 0 && SameText(e.article, b)
  {
    var rows := RowsFor(env, e.article);
    assert rows[e.from..e.to] == rows[e.from..] && rows[0..] == rows;
    RowsShowText(env, e.article, b);
    if ArticleRuns.HasOwnRows(env, t, b) {
      NoneIsMissing(env, e.article, e.from, b);
    }
  }

  lemma {:induction false} NoRowsIff(env: Env, t: Tables, e: Trace, d: string)
    requires e.from <= e.to <= |PiecesOf(e.article)|
    requires DocsOf(t, d) == if e.doc then [DocFor(e.article)] else []
    requires ChunksOf(t, d) == RowsFor(env, e.article)[e.from..e.to]
    ensures ArticleRuns.HasNoRows(t, d) <==> !e.doc && e.from == e.to
  {
  }

  // The exact condition, in every state of every run in which nobody is adding rows for the id.
  lemma {:induction false} ExactIffCurrent(env: Env, calls: seq<Call>, states: seq<State>, schedule: seq<nat>,
                                           n: nat, d: string)
    requires IsRun(env, calls, states, schedule) && n <= |schedule| && IsId(d)
    requires |states[n].phases| == |calls| && NobodyWrites(calls, states[n], d)
    requires d in states[n].core.last ==> |PiecesOf(states[n].core.last[d].article)| < 0x1_0000_0000
    ensures IsExact(env, states[n].core.world, d) <==> IsCurrent(states[n].core, d)
  {
    EveryStateKeepsInv(env, calls, states, schedule, n);
    var s := states[n].core;
    assert IdOk(env, calls, states[n], d);
    if d in s.last {
      if d in s.world.articles {
        OwnRowsIff(env, s.world.tables, s.last[d], s.world.articles[d]);
      } else {
        NoRowsIff(env, s.world.tables, s.last[d], d);
      }
    }
  }
}
