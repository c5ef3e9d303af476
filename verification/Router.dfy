/** The query pipeline: `execute` of src/router/executor.rs and `route` of src/router/mod.rs.
    What the searches and the remote nodes find is an input. */
module Router {
  import opened Outcomes
  import opened RankFusion
  import opened FusionLaws
  import opened StoreMerger
  import opened Reranker
  import opened StableSort

  /** What vector, keyword and graph search found in one store. */
  datatype StoreHits = StoreHits(storeId: string, storeType: string, vector: seq<K2KResult>,
                                 keyword: seq<K2KResult>, graph: seq<K2KResult>, entityCoverage: real)

  datatype Config = Config(vectorWeight: real, keywordWeight: real, graphWeightMax: real, k: real)

  // Keyword and graph results only join when there are any; the graph also needs a positive weight.
  function KeywordSignal(hits: StoreHits, cfg: Config): seq<Signal> {
    if hits.keyword != [] then [Signal(hits.keyword, cfg.keywordWeight)] else []
  }

  function GraphSignal(hits: StoreHits, cfg: Config): seq<Signal> {
    var graphWeight := cfg.graphWeightMax * hits.entityCoverage;
    if hits.graph != [] && graphWeight > 0.0 then [Signal(hits.graph, graphWeight)] else []
  }

  function SignalsOf(hits: StoreHits, cfg: Config): seq<Signal> {
    [Signal(hits.vector, cfg.vectorWeight)] + KeywordSignal(hits, cfg) + GraphSignal(hits, cfg)
  }

  // ---- what a search of one store returns ----

  // Everything that counts, in the order in which it is looked at.
  function FoundIn(hits: StoreHits, cfg: Config): seq<K2KResult> {
    hits.vector + hits.keyword + if cfg.graphWeightMax * hits.entityCoverage > 0.0 then hits.graph else []
  }

  // The sum of weight / (k + rank + 1) over the ranks of an article in the three lists.
  function StoreScore(hits: StoreHits, cfg: Config, id: string): real
    requires Divisible(cfg.k)
  {
    var graphWeight := cfg.graphWeightMax * hits.entityCoverage;
    Given(Signal(hits.vector, cfg.vectorWeight), cfg.k, id)
    + Given(Signal(hits.keyword, cfg.keywordWeight), cfg.k, id)
    + if graphWeight > 0.0 then Given(Signal(hits.graph, graphWeight), cfg.k, id) else 0.0
  }

  ghost predicate IsSearch(r: StoreSearchResult, hits: StoreHits, cfg: Config, topK: nat)
    requires Divisible(cfg.k)
  {
    && r.storeId == hits.storeId && r.storeType == hits.storeType
    && Fuses(r.results, FoundIn(hits, cfg), (id: string) => StoreScore(hits, cfg, id), topK)
  }

  ghost predicate AreSearches(rs: seq<StoreSearchResult>, hits: seq<StoreHits>, cfg: Config, topK: nat)
    requires Divisible(cfg.k)
  {
    |rs| == |hits| && forall i :: 0 <= i < |rs| ==> IsSearch(rs[i], hits[i], cfg, topK)
  }

  lemma {:induction false} FoundAdds(a: seq<Signal>, b: seq<Signal>)
    ensures Found(a + b) == Found(a) + Found(b)
    decreases |b|
  {
    if b == [] {
      assert a + b == a;
    } else {
      assert (a + b)[..|a + b| - 1] == a + b[..|b| - 1];
      FoundAdds(a, b[..|b| - 1]);
    }
  }

  // A list that is empty and one that is left out come to the same.
  lemma {:induction false} OneSignal(signal: Signal, joins: bool, k: real, id: string)
    requires Divisible(k) && (!joins ==> signal.results == [])
    ensures var signals := if joins then [signal] else [];
      Found(signals) == signal.results && TotalGiven(signals, k, id) == Given(signal, k, id)
  {
    assert [signal][..0] == [];
  }

  lemma {:induction false} GraphMeans(hits: StoreHits, cfg: Config, id: string)
    requires Divisible(cfg.k)
    ensures var weight := cfg.graphWeightMax * hits.entityCoverage;
      && Found(GraphSignal(hits, cfg)) == (if weight > 0.0 then hits.graph else [])
      && TotalGiven(GraphSignal(hits, cfg), cfg.k, id)
         == if weight > 0.0 then Given(Signal(hits.graph, weight), cfg.k, id) else 0.0
  {
    var weight := cfg.graphWeightMax * hits.entityCoverage;
    if weight > 0.0 {
      assert GraphSignal(hits, cfg) == if hits.graph != [] then [Signal(hits.graph, weight)] else [];
      OneSignal(Signal(hits.graph, weight), hits.graph != [], cfg.k, id);
    }
  }

  lemma {:induction false} SignalsMean(hits: StoreHits, cfg: Config, id: string)
    requires Divisible(cfg.k)
    ensures Found(SignalsOf(hits, cfg)) == FoundIn(hits, cfg)
    ensures TotalGiven(SignalsOf(hits, cfg), cfg.k, id) == StoreScore(hits, cfg, id)
  {
    var vector := Signal(hits.vector, cfg.vectorWeight);
    OneSignal(vector, true, cfg.k, id);
    OneSignal(Signal(hits.keyword, cfg.keywordWeight), hits.keyword != [], cfg.k, id);
    GraphMeans(hits, cfg, id);
    ThreeSignals([vector], KeywordSignal(hits, cfg), GraphSignal(hits, cfg), cfg.k, id);
  }

  lemma {:induction false} ThreeSignals(a: seq<Signal>, b: seq<Signal>, c: seq<Signal>, k: real, id: string)
    requires Divisible(k)
    ensures Found(a + b + c) == Found(a) + Found(b) + Found(c)
    ensures TotalGiven(a + b + c, k, id) == TotalGiven(a, k, id) + TotalGiven(b, k, id) + TotalGiven(c, k, id)
  {
    FoundAdds(a, b);
    FoundAdds(a + b, c);
    TotalAdds(a, b, k, id);
    TotalAdds(a + b, c, k, id);
  }

  lemma {:induction false} SearchMeans(hits: StoreHits, cfg: Config, topK: nat, out: seq<K2KResult>)
    requires Divisible(cfg.k)
    requires Fuses(out, Found(SignalsOf(hits, cfg)), (id: string) => TotalGiven(SignalsOf(hits, cfg), cfg.k, id), topK)
    ensures Fuses(out, FoundIn(hits, cfg), (id: string) => StoreScore(hits, cfg, id), topK)
  {
    SignalsMean(hits, cfg, "");
    var score := (id: string) => TotalGiven(SignalsOf(hits, cfg), cfg.k, id);
    var same := (id: string) => StoreScore(hits, cfg, id);
    forall id ensures score(id) == same(id) {
      SignalsMean(hits, cfg, id);
    }
    SameFusion(out, FoundIn(hits, cfg), score, same, topK);
  }

  lemma {:induction false} SameFusion(out: seq<K2KResult>, found: seq<K2KResult>, score: string -> real,
                                      same: string -> real, topK: nat)
    requires Fuses(out, found, score, topK) && forall id :: score(id) == same(id)
    ensures Fuses(out, found, same, topK)
  {
  }

  method Execute(hits: seq<StoreHits>, cfg: Config, topK: nat) returns (rs: seq<StoreSearchResult>)
    requires Divisible(cfg.k)
    ensures AreSearches(rs, hits, cfg, topK)
  {
    rs := [];
    for i := 0 to |hits|
      invariant AreSearches(rs, hits[..i], cfg, topK)
    {
      var results := MergeSignals(SignalsOf(hits[i], cfg), topK, cfg.k);
      FusionMeans(SignalsOf(hits[i], cfg), cfg.k, topK, results);
      SearchMeans(hits[i], cfg, topK, results);
      rs := rs + [StoreSearchResult(hits[i].storeId, hits[i].storeType, results)];
    }
    assert hits[..|hits|] == hits;
  }

  // ---- one pass of search, merge and rerank ----

  // The lists of the local stores and the remote ones are merged and reranked.
  ghost predicate IsPass(out: seq<K2KResult>, lib: Library, hits: seq<StoreHits>, remote: seq<StoreSearchResult>,
                         cfg: Config, topK: nat, query: string)
    requires Divisible(cfg.k)
  {
    exists rs, merged, p ::
      AreSearches(rs, hits, cfg, topK) && Merges(merged, rs + remote, topK) && Reranks(p, lib, merged, query, out)
  }

  method Pass(lib: Library, hits: seq<StoreHits>, remote: seq<StoreSearchResult>, cfg: Config, topK: nat, query: string)
    returns (out: seq<K2KResult>)
    requires Divisible(cfg.k)
    ensures IsPass(out, lib, hits, remote, cfg, topK, query)
  {
    var rs := Execute(hits, cfg, topK);
    var merged := MergeRrf(rs + remote, topK);
    out := Rerank(lib, merged, query);
  }

  // The first pass stands, unless all it found is of low confidence and the retry did better.
  ghost predicate Settles(out: seq<K2KResult>, first: seq<K2KResult>, lib: Library, search: string -> seq<StoreHits>,
                          variants: seq<string>, allLow: (seq<K2KResult>, string) -> bool, cfg: Config, topK: nat,
                          query: string)
    requires Divisible(cfg.k)
  {
    if first == [] || !allLow(first, query) || |variants| <= 1 then out == first
    else exists retried ::
      IsPass(retried, lib, search(variants[1]), [], cfg, topK, variants[1]) &&
      out == if retried != [] && !allLow(retried, variants[1]) then retried else first
  }

  method BestOfTwo(lib: Library, search: string -> seq<StoreHits>, remote: seq<StoreSearchResult>,
                   expand: string -> seq<string>, allLow: (seq<K2KResult>, string) -> bool, cfg: Config, topK: nat,
                   query: string)
    returns (out: seq<K2KResult>)
    requires Divisible(cfg.k)
    ensures exists first ::
              IsPass(first, lib, search(query), remote, cfg, topK, query) &&
              Settles(out, first, lib, search, expand(query), allLow, cfg, topK, query)
  {
    var reranked := Pass(lib, search(query), remote, cfg, topK, query);
    out := reranked;
    if reranked != [] && allLow(reranked, query) {
      var variants := expand(query);
      if |variants| > 1 {
        out := Retry(lib, search, variants[1], reranked, allLow, cfg, topK);
      }
    }
  }

  method Retry(lib: Library, search: string -> seq<StoreHits>, variant: string, reranked: seq<K2KResult>,
               allLow: (seq<K2KResult>, string) -> bool, cfg: Config, topK: nat)
    returns (out: seq<K2KResult>)
    requires Divisible(cfg.k)
    ensures exists retried ::
              IsPass(retried, lib, search(variant), [], cfg, topK, variant) &&
              out == if retried != [] && !allLow(retried, variant) then retried else reranked
  {
    var retried := Pass(lib, search(variant), [], cfg, topK, variant);
    out := if retried != [] && !allLow(retried, variant) then retried else reranked;
  }

  // `route`: a first pass; if all its results are of low confidence, a second pass with the first
  // expanded variant of the query and without the remote nodes, kept only if it has a result that
  // is not.
  method Route(lib: Library, search: string -> seq<StoreHits>, remote: seq<StoreSearchResult>,
               expand: string -> seq<string>, allLow: (seq<K2KResult>, string) -> bool, cfg: Config, topK: nat,
               query: string)
    returns (out: seq<K2KResult>)
    requires Divisible(cfg.k)
    ensures |out| <= topK && NeverRises(out)
    ensures (search(query) == [] && |remote| == 1 ==> Distinct(Cut(remote[0].results, topK))) ==> Distinct(out)
    ensures exists first ::
              IsPass(first, lib, search(query), remote, cfg, topK, query) &&
              Settles(out, first, lib, search, expand(query), allLow, cfg, topK, query)
  {
    out := BestOfTwo(lib, search, remote, expand, allLow, cfg, topK, query);
    ghost var first :| IsPass(first, lib, search(query), remote, cfg, topK, query) &&
                       Settles(out, first, lib, search, expand(query), allLow, cfg, topK, query);
    SettledIsAnswer(out, first, lib, search, remote, expand(query), allLow, cfg, topK, query);
  }

  // The answer is that of the first pass or, only if that is all of low confidence, a retry's that
  // is not; and it is of low confidence only if there is no variant or its retry is no better.
  lemma {:induction false} RetryIsBetter(out: seq<K2KResult>, first: seq<K2KResult>, lib: Library,
                                         search: string -> seq<StoreHits>, variants: seq<string>,
                                         allLow: (seq<K2KResult>, string) -> bool, cfg: Config, topK: nat,
                                         query: string)
    requires Divisible(cfg.k) && Settles(out, first, lib, search, variants, allLow, cfg, topK, query)
    ensures out == first ||
      (&& first != [] && allLow(first, query) && |variants| > 1 && out != [] && !allLow(out, variants[1])
       && IsPass(out, lib, search(variants[1]), [], cfg, topK, variants[1]))
    ensures out == first != [] && allLow(first, query) && |variants| > 1 ==>
      exists retried :: IsPass(retried, lib, search(variants[1]), [], cfg, topK, variants[1]) &&
        (retried == [] || allLow(retried, variants[1]) || retried == first)
  {
  }

  // ---- what every answer looks like ----

  // As much of a list as the answer has room for.
  function Cut(results: seq<K2KResult>, topK: nat): seq<K2KResult> {
    if |results| <= topK then results else results[..topK]
  }

  // A merge lists each article once, best first, if it is of several lists, or of one that does.
  lemma {:induction false} MergeIsAnswer(out: seq<K2KResult>, stores: seq<StoreSearchResult>, topK: nat)
    requires Merges(out, stores, topK)
    ensures |out| <= topK
    ensures |stores| == 1 ==> out == Cut(stores[0].results, topK)
    ensures |stores| != 1 ==> Distinct(out) && NeverRises(out)
  {
  }

  ghost predicate SameIds(p: seq<nat>, merged: seq<K2KResult>, out: seq<K2KResult>) {
    && |p| == |merged| == |out|
    && (forall i :: 0 <= i < |p| ==> p[i] < |p| && out[i].articleId == merged[p[i]].articleId)
    && (forall i, j :: 0 <= i < j < |p| ==> p[i] != p[j])
  }

  lemma {:induction false} StaysDistinct(p: seq<nat>, merged: seq<K2KResult>, out: seq<K2KResult>)
    requires SameIds(p, merged, out) && Distinct(merged)
    ensures Distinct(out)
  {
    forall i, j | 0 <= i < j < |out| ensures out[i].articleId != out[j].articleId {
      assert p[i] != p[j];
    }
  }

  lemma {:induction false} WasDistinct(p: seq<nat>, merged: seq<K2KResult>, out: seq<K2KResult>)
    requires SameIds(p, merged, out) && Distinct(out)
    ensures Distinct(merged)
  {
    forall a, b | 0 <= a < b < |merged| ensures merged[a].articleId != merged[b].articleId {
      HasAllBelow(p, a);
      HasAllBelow(p, b);
      var i, j :| 0 <= i < |p| && 0 <= j < |p| && p[i] == a && p[j] == b;
    }
  }

  lemma {:induction false} RerankingDistinctIff(p: seq<nat>, lib: Library, merged: seq<K2KResult>, query: string,
                                                out: seq<K2KResult>)
    requires Reranks(p, lib, merged, query, out)
    ensures Distinct(out) <==> Distinct(merged)
  {
    assert SameIds(p, merged, out);
    if Distinct(merged) {
      StaysDistinct(p, merged, out);
    } else if Distinct(out) {
      WasDistinct(p, merged, out);
    }
  }

  // Every pass gives at most topK results, best first, and lists each article once.  Only the list
  // of a lone remote node is passed on as it came, so this holds of it iff it holds of that list;
  // for a lone local store it rests on the store's own fusion, the merge being a truncation then.
  lemma {:induction false} PassIsAnswer(out: seq<K2KResult>, lib: Library, hits: seq<StoreHits>,
                                        remote: seq<StoreSearchResult>, cfg: Config, topK: nat, query: string)
    requires Divisible(cfg.k) && IsPass(out, lib, hits, remote, cfg, topK, query)
    ensures |out| <= topK && NeverRises(out)
    ensures Distinct(out) <==> (hits == [] && |remote| == 1 ==> Distinct(Cut(remote[0].results, topK)))
  {
    var rs: seq<StoreSearchResult>, merged: seq<K2KResult>, p: seq<nat> :|
      AreSearches(rs, hits, cfg, topK) && Merges(merged, rs + remote, topK) && Reranks(p, lib, merged, query, out);
    MergeIsAnswer(merged, rs + remote, topK);
    RerankingDistinctIff(p, lib, merged, query, out);
    if |rs| == 1 && remote == [] {
      assert IsSearch(rs[0], hits[0], cfg, topK) && (rs + remote)[0] == rs[0];
      assert Distinct(rs[0].results);
    }
  }

  lemma {:induction false} SettledIsAnswer(out: seq<K2KResult>, first: seq<K2KResult>, lib: Library,
                                           search: string -> seq<StoreHits>, remote: seq<StoreSearchResult>,
                                           variants: seq<string>, allLow: (seq<K2KResult>, string) -> bool,
                                           cfg: Config, topK: nat, query: string)
    requires Divisible(cfg.k) && IsPass(first, lib, search(query), remote, cfg, topK, query)
    requires Settles(out, first, lib, search, variants, allLow, cfg, topK, query)
    ensures |out| <= topK && NeverRises(out)
    ensures (search(query) == [] && |remote| == 1 ==> Distinct(Cut(remote[0].results, topK))) ==> Distinct(out)
  {
    PassIsAnswer(first, lib, search(query), remote, cfg, topK, query);
    if out != first {
      PassIsAnswer(out, lib, search(variants[1]), [], cfg, topK, variants[1]);
    }
  }

  // ---- the answer in terms of what was found ----

  // Every result is the representative of its article and shows its score and what it earns from
  // the query; an article is left out only for topK others that score at least as much.
  ghost predicate Answers(out: seq<K2KResult>, lib: Library, query: string, found: seq<K2KResult>,
                          score: string -> real, topK: nat) {
    && (forall n :: 0 <= n < |out| ==> IsBoosted(out[n], lib, query, found, score(out[n].articleId)))
    && forall i :: 0 <= i < |found| ==>
         || Listed(out, found[i].articleId)
         || (|out| == topK && forall n :: 0 <= n < |out| ==> score(found[i].articleId) <= score(out[n].articleId))
  }

  ghost predicate IsBoosted(x: K2KResult, lib: Library, query: string, found: seq<K2KResult>, score: real) {
    exists i :: Represents(found, i) && x.articleId == found[i].articleId && x.title == found[i].title &&
                x.content == found[i].content && Earns(lib, found[i], query, x.confidence - score)
  }

  // A fused result: representative i with its score, provenance aside.
  ghost predicate IsFused(x: K2KResult, found: seq<K2KResult>, score: real) {
    exists i :: Represents(found, i) && x.confidence == score &&
                x == found[i].(confidence := score, provenance := x.provenance)
  }

  lemma {:induction false} FusedIsBoosted(x: K2KResult, y: K2KResult, lib: Library, query: string,
                                          found: seq<K2KResult>, score: real)
    requires IsFused(x, found, score)
    requires y == x.(confidence := y.confidence) && Earns(lib, x, query, y.confidence - x.confidence)
    ensures IsBoosted(y, lib, query, found, score)
  {
    var i :| Represents(found, i) && x == found[i].(confidence := score, provenance := x.provenance);
    assert Earns(lib, found[i], query, y.confidence - score);
  }

  lemma {:induction false} ListedAfterReranking(p: seq<nat>, lib: Library, merged: seq<K2KResult>, query: string,
                                                out: seq<K2KResult>, id: string)
    requires Reranks(p, lib, merged, query, out) && Listed(merged, id)
    ensures Listed(out, id)
  {
    var i :| 0 <= i < |merged| && merged[i].articleId == id;
    HasAllBelow(p, i);
    var j :| 0 <= j < |p| && p[j] == i;
    assert out[j].articleId == id;
  }

  lemma {:induction false} RerankingAnswers(p: seq<nat>, lib: Library, merged: seq<K2KResult>, query: string,
                                            out: seq<K2KResult>, found: seq<K2KResult>, score: string -> real,
                                            topK: nat)
    requires Reranks(p, lib, merged, query, out) && ListsBest(merged, found, score, topK)
    requires forall n :: 0 <= n < |merged| ==> IsFused(merged[n], found, score(merged[n].articleId))
    ensures Answers(out, lib, query, found, score, topK)
  {
    forall n | 0 <= n < |out|
      ensures out[n].articleId == merged[p[n]].articleId && score(out[n].articleId) == merged[p[n]].confidence
      ensures IsBoosted(out[n], lib, query, found, score(out[n].articleId))
    {
      assert IsFused(merged[p[n]], found, score(merged[p[n]].articleId));
      FusedIsBoosted(merged[p[n]], out[n], lib, query, found, score(merged[p[n]].articleId));
    }
    forall i | 0 <= i < |found|
      ensures Listed(out, found[i].articleId) ||
              (|out| == topK && forall n :: 0 <= n < |out| ==> score(found[i].articleId) <= score(out[n].articleId))
    {
      if Listed(merged, found[i].articleId) {
        ListedAfterReranking(p, lib, merged, query, out, found[i].articleId);
      }
    }
  }

  // The answer of a pass over one local store, end to end.
  lemma {:induction false} LoneStoreAnswers(out: seq<K2KResult>, lib: Library, hits: StoreHits, cfg: Config, topK: nat,
                                            query: string)
    requires Divisible(cfg.k) && IsPass(out, lib, [hits], [], cfg, topK, query)
    ensures Answers(out, lib, query, FoundIn(hits, cfg), (id: string) => StoreScore(hits, cfg, id), topK)
  {
    var rs: seq<StoreSearchResult>, merged: seq<K2KResult>, p: seq<nat> :|
      AreSearches(rs, [hits], cfg, topK) && Merges(merged, rs + [], topK) && Reranks(p, lib, merged, query, out);
    assert IsSearch(rs[0], [hits][0], cfg, topK) && rs + [] == rs;
    assert merged == rs[0].results;
    var found, score := FoundIn(hits, cfg), (id: string) => StoreScore(hits, cfg, id);
    forall n | 0 <= n < |merged| ensures IsFused(merged[n], found, score(merged[n].articleId)) {
      assert IsShown(merged[n], found, score(merged[n].articleId));
    }
    RerankingAnswers(p, lib, merged, query, out, found, score, topK);
  }

  lemma {:induction false} MergedIsFused(x: K2KResult, stores: seq<StoreSearchResult>, score: real)
    requires IsMerged(x, stores, score)
    ensures IsFused(x, Joined(stores), score)
  {
    var s: nat, r: nat :| ShowsMerged(x, stores, s, r, score);
    JoinedAt(stores, s, r);
    var i := |Joined(stores[..s])| + r;
    assert Represents(Joined(stores), i) && x == Joined(stores)[i].(confidence := score, provenance := x.provenance);
  }

  lemma {:induction false} ManyStoresAnswer(p: seq<nat>, lib: Library, merged: seq<K2KResult>, query: string,
                                            out: seq<K2KResult>, stores: seq<StoreSearchResult>, topK: nat)
    requires Reranks(p, lib, merged, query, out) && Merges(merged, stores, topK) && |stores| != 1
    ensures Answers(out, lib, query, Joined(stores), (id: string) => MergedScore(stores, id), topK)
  {
    var score := (id: string) => MergedScore(stores, id);
    forall n | 0 <= n < |merged| ensures IsFused(merged[n], Joined(stores), score(merged[n].articleId)) {
      MergedIsFused(merged[n], stores, MergedScore(stores, merged[n].articleId));
    }
    RerankingAnswers(p, lib, merged, query, out, Joined(stores), score, topK);
  }

  // And over several lists, of local stores and remote nodes.
  lemma {:induction false} StoresAnswer(out: seq<K2KResult>, lib: Library, hits: seq<StoreHits>,
                                        remote: seq<StoreSearchResult>, cfg: Config, topK: nat, query: string)
    returns (rs: seq<StoreSearchResult>)
    requires Divisible(cfg.k) && IsPass(out, lib, hits, remote, cfg, topK, query) && |hits| + |remote| != 1
    ensures AreSearches(rs, hits, cfg, topK)
    ensures Answers(out, lib, query, Joined(rs + remote), (id: string) => MergedScore(rs + remote, id), topK)
  {
    var merged: seq<K2KResult>, p: seq<nat>;
    rs, merged, p :|
      AreSearches(rs, hits, cfg, topK) && Merges(merged, rs + remote, topK) && Reranks(p, lib, merged, query, out);
    ManyStoresAnswer(p, lib, merged, query, out, rs + remote, topK);
  }
}
