/** Merging the lists of several stores: `merge_rrf` of src/router/merger.rs. */
module StoreMerger {
  import opened Outcomes
  import opened RankFusion
  import opened FusionLaws

  const RRF_K: real := 60.0

  datatype StoreSearchResult = StoreSearchResult(storeId: string, storeType: string, results: seq<K2KResult>)

  // Every store is a signal of weight 1.
  function AsSignals(stores: seq<StoreSearchResult>): seq<Signal> {
    seq(|stores|, i requires 0 <= i < |stores| => Signal(stores[i].results, 1.0))
  }

  lemma {:induction false} RrfDivisible()
    ensures Divisible(RRF_K)
  {
  }

  // What a merge may return: the prefix of a lone store's list, or the best of a ranking.
  ghost predicate IsMerge(out: seq<K2KResult>, stores: seq<StoreSearchResult>, topK: nat) {
    RrfDivisible();
    if |stores| == 1 then out == stores[0].results[..if |stores[0].results| <= topK then |stores[0].results| else topK]
    else exists ranked :: IsRanking(ranked, Occurrences(AsSignals(stores), RRF_K), true) && out == Top(ranked, topK)
  }

  // ---- the merge in plain terms ----

  // All results, store after store.
  function Joined(stores: seq<StoreSearchResult>): seq<K2KResult> {
    if stores == [] then [] else Joined(stores[..|stores| - 1]) + stores[|stores| - 1].results
  }

  // The sum of 1 / (60 + rank + 1) over the ranks of an article in the lists of all stores.
  function MergedScore(stores: seq<StoreSearchResult>, id: string): real {
    assert Divisible(60.0);
    if stores == [] then 0.0
    else
      MergedScore(stores[..|stores| - 1], id) + Given(Signal(stores[|stores| - 1].results, 1.0), 60.0, id)
  }

  lemma {:induction false} JoinedAt(stores: seq<StoreSearchResult>, s: nat, r: nat)
    requires s < |stores| && r < |stores[s].results|
    ensures |Joined(stores[..s])| + r < |Joined(stores)|
    ensures Joined(stores)[|Joined(stores[..s])| + r] == stores[s].results[r]
  {
    var n := |stores| - 1;
    if s < n {
      JoinedAt(stores[..n], s, r);
      assert stores[..n][..s] == stores[..s];
    }
  }

  ghost predicate IsFirst(found: seq<K2KResult>, i: nat)
    requires i < |found|
  {
    forall j :: 0 <= j < i ==> found[j].articleId != found[i].articleId
  }

  // The merged list shows result r of store s: with its own provenance if it is the first of its
  // article, and else with its store and its rank as provenance.
  ghost predicate ShowsMerged(x: K2KResult, stores: seq<StoreSearchResult>, s: nat, r: nat, score: real) {
    s < |stores| && r < |stores[s].results| &&
    var found, i, result := Joined(stores), |Joined(stores[..s])| + r, stores[s].results[r];
    && Represents(found, i)
    && x == result.(confidence := score,
                    provenance := match result.provenance
                      case None => if IsFirst(found, i) then None else Some(Provenance(result.storeId, "", r, score))
                      case Some(p) => Some(if IsFirst(found, i) then p.(rrfScore := score)
                                           else Provenance(result.storeId, p.storeType, r, score)))
  }

  ghost predicate IsMerged(x: K2KResult, stores: seq<StoreSearchResult>, score: real) {
    exists s: nat, r: nat :: ShowsMerged(x, stores, s, r, score)
  }

  // The first topK of a lone store's list; otherwise the articles of all lists by merged score.
  ghost predicate Merges(out: seq<K2KResult>, stores: seq<StoreSearchResult>, topK: nat) {
    if |stores| == 1 then
      out <= stores[0].results && |out| == if |stores[0].results| <= topK then |stores[0].results| else topK
    else
      && ListsBest(out, Joined(stores), (id: string) => MergedScore(stores, id), topK)
      && forall n :: 0 <= n < |out| ==> IsMerged(out[n], stores, MergedScore(stores, out[n].articleId))
  }

  lemma {:induction false} SignalsAreStores(stores: seq<StoreSearchResult>, id: string)
    ensures Found(AsSignals(stores)) == Joined(stores)
    ensures Divisible(RRF_K) && TotalGiven(AsSignals(stores), RRF_K, id) == MergedScore(stores, id)
  {
    RrfDivisible();
    if stores != [] {
      SignalsAreStores(stores[..|stores| - 1], id);
      AsSignalsUpTo(stores, |stores| - 1);
    }
  }

  lemma {:induction false} AsSignalsUpTo(stores: seq<StoreSearchResult>, n: nat)
    requires n <= |stores|
    ensures AsSignals(stores)[..n] == AsSignals(stores[..n])
  {
  }

  // What rewriting leaves of occurrence i, up to the score.
  ghost predicate IsRestamp(c: K2KResult, occs: seq<Occurrence>, i: int)
    requires 0 <= i < |occs|
  {
    var r := occs[i].result;
    if forall j :: 0 <= j < i ==> occs[j].result.articleId != r.articleId then c == r
    else
      && c.provenance.Some?
      && var storeType := match r.provenance case None => "" case Some(p) => p.storeType;
        c == r.(provenance := Some(Provenance(r.storeId, storeType, occs[i].rank, c.provenance.value.rrfScore)))
  }

  lemma {:induction false} LastIsRestamp(occs: seq<Occurrence>, id: string, i: int)
    requires occs != [] && var init := occs[..|occs| - 1];
      && IsEarliestBest(init, id, i) && Chosen(init, id, true).Some?
      && IsRestamp(Chosen(init, id, true).value, init, i)
      && occs[|occs| - 1].result.articleId == id && occs[|occs| - 1].result.confidence > init[i].result.confidence
    ensures IsEarliestBest(occs, id, |occs| - 1) && IsRestamp(Chosen(occs, id, true).value, occs, |occs| - 1)
  {
    assert occs[i].result.articleId == id;
  }

  lemma {:induction false} SameRestamp(occs: seq<Occurrence>, id: string, i: int)
    requires occs != [] && var init := occs[..|occs| - 1];
      && IsEarliestBest(init, id, i) && Chosen(init, id, true).Some?
      && IsRestamp(Chosen(init, id, true).value, init, i)
      && Chosen(init, id, true).value.confidence == init[i].result.confidence
      && !(occs[|occs| - 1].result.articleId == id && occs[|occs| - 1].result.confidence > init[i].result.confidence)
    ensures IsEarliestBest(occs, id, i) && IsRestamp(Chosen(occs, id, true).value, occs, i)
  {
  }

  lemma {:induction false} ChosenIsRestamp(occs: seq<Occurrence>, id: string)
    requires Chosen(occs, id, true).Some?
    ensures exists i :: IsEarliestBest(occs, id, i) && IsRestamp(Chosen(occs, id, true).value, occs, i)
  {
    var n := |occs| - 1;
    var init := occs[..n];
    if Chosen(init, id, true).None? {
      NotMentioned(init, id, true);
      assert IsEarliestBest(occs, id, n);
    } else {
      ChosenIsRestamp(init, id);
      var i :| IsEarliestBest(init, id, i) && IsRestamp(Chosen(init, id, true).value, init, i);
      if occs[n].result.articleId == id && occs[n].result.confidence > init[i].result.confidence {
        LastIsRestamp(occs, id, i);
      } else {
        SameRestamp(occs, id, i);
      }
    }
  }

  lemma {:induction false} StampShows(c: K2KResult, stores: seq<StoreSearchResult>, occs: seq<Occurrence>, i: nat,
                                      s: nat, r: nat, score: real)
    requires AreResults(occs, Joined(stores)) && i < |occs| && IsRestamp(c, occs, i) && Represents(Joined(stores), i)
    requires s < |stores| && r < |stores[s].results| && i == |Joined(stores[..s])| + r
    requires occs[i].rank == r && occs[i].result == stores[s].results[r]
    ensures ShowsMerged(Stamp((score, c)), stores, s, r, score)
  {
    assert IsFirst(Joined(stores), i) <==>
      forall j :: 0 <= j < i ==> occs[j].result.articleId != occs[i].result.articleId;
  }

  lemma {:induction false} ChosenIsShown(stores: seq<StoreSearchResult>, id: string, score: real)
    requires Divisible(RRF_K)
    requires Chosen(Occurrences(AsSignals(stores), RRF_K), id, true).Some?
    ensures var c := Chosen(Occurrences(AsSignals(stores), RRF_K), id, true).value;
      IsMerged(Stamp((score, c)), stores, score)
  {
    var signals := AsSignals(stores);
    var occs := Occurrences(signals, RRF_K);
    var c := Chosen(occs, id, true).value;
    ChosenIsRestamp(occs, id);
    var i :| IsEarliestBest(occs, id, i) && IsRestamp(c, occs, i);
    OccurrencesAreFound(signals, RRF_K);
    SignalsAreStores(stores, id);
    EarliestBestRepresents(occs, Joined(stores), id, i);
    var s, r := OccurrenceAt(signals, RRF_K, i);
    AsSignalsUpTo(stores, s);
    SignalsAreStores(stores[..s], id);
    StampShows(c, stores, occs, i, s, r, score);
  }

  lemma {:induction false} MergeListsBest(ranked: seq<(real, K2KResult)>, stores: seq<StoreSearchResult>, topK: nat)
    requires Divisible(RRF_K) && IsRanking(ranked, Occurrences(AsSignals(stores), RRF_K), true)
    ensures ListsBest(Top(ranked, topK), Joined(stores), (id: string) => MergedScore(stores, id), topK)
  {
    var signals, score := AsSignals(stores), (id: string) => MergedScore(stores, id);
    forall id ensures score(id) == Score(Occurrences(signals, RRF_K), id) {
      SignalsAreStores(stores, id);
      ScoreIsSumOverSignals(signals, RRF_K, id);
    }
    SignalsAreStores(stores, "");
    OccurrencesAreFound(signals, RRF_K);
    TopListsBest(ranked, Occurrences(signals, RRF_K), true, Joined(stores), score, topK);
  }

  lemma {:induction false} EntryIsMerged(x: (real, K2KResult), stores: seq<StoreSearchResult>)
    requires Divisible(RRF_K) && var occs := Occurrences(AsSignals(stores), RRF_K);
      Chosen(occs, x.1.articleId, true) == Some(x.1) && x.0 == Score(occs, x.1.articleId)
    ensures IsMerged(Stamp(x), stores, MergedScore(stores, Stamp(x).articleId))
  {
    SignalsAreStores(stores, x.1.articleId);
    ScoreIsSumOverSignals(AsSignals(stores), RRF_K, x.1.articleId);
    ChosenIsShown(stores, x.1.articleId, x.0);
  }

  lemma {:induction false} TopIsMerged(ranked: seq<(real, K2KResult)>, stores: seq<StoreSearchResult>, topK: nat)
    requires Divisible(RRF_K) && IsRanking(ranked, Occurrences(AsSignals(stores), RRF_K), true)
    ensures var out := Top(ranked, topK);
      forall n :: 0 <= n < |out| ==> IsMerged(out[n], stores, MergedScore(stores, out[n].articleId))
  {
    var out := Top(ranked, topK);
    forall n | 0 <= n < |out| ensures IsMerged(out[n], stores, MergedScore(stores, out[n].articleId)) {
      EntryIsMerged(ranked[n], stores);
      assert out[n] == Stamp(ranked[n]);
    }
  }

  lemma {:induction false} MergeMeans(stores: seq<StoreSearchResult>, topK: nat, out: seq<K2KResult>)
    requires IsMerge(out, stores, topK)
    ensures Merges(out, stores, topK)
  {
    if |stores| != 1 {
      RrfDivisible();
      var ranked: seq<(real, K2KResult)> :|
        IsRanking(ranked, Occurrences(AsSignals(stores), RRF_K), true) && out == Top(ranked, topK);
      MergeListsBest(ranked, stores, topK);
      TopIsMerged(ranked, stores, topK);
    }
  }

  method MergeRrf(stores: seq<StoreSearchResult>, topK: nat) returns (out: seq<K2KResult>)
    ensures IsMerge(out, stores, topK) && Merges(out, stores, topK)
  {
    RrfDivisible();
    if |stores| == 1 {
      var results := stores[0].results;
      return results[..if |results| <= topK then |results| else topK];
    }
    ghost var signals := AsSignals(stores);
    var table: Table := map[];
    for i := 0 to |stores|
      invariant Tabulates(table, Occurrences(signals[..i], RRF_K), true)
    {
      table := AddStore(table, stores[i].results, Occurrences(signals[..i], RRF_K));
      assert signals[..i + 1][..i] == signals[..i];
      assert signals[..i + 1][i] == Signal(stores[i].results, 1.0);
    }
    assert signals[..|signals|] == signals;
    out := RankTable(table, topK, Occurrences(signals, RRF_K), true);
    MergeMeans(stores, topK, out);
  }

  method AddStore(before: Table, results: seq<K2KResult>, ghost occs: seq<Occurrence>) returns (table: Table)
    requires Divisible(RRF_K) && Tabulates(before, occs, true)
    ensures Tabulates(table, occs + Positions(Signal(results, 1.0), RRF_K, |results|), true)
  {
    table := before;
    ghost var signal := Signal(results, 1.0);
    assert occs + Positions(signal, RRF_K, 0) == occs;
    for rank := 0 to |results|
      invariant Tabulates(table, occs + Positions(signal, RRF_K, rank), true)
    {
      var occ := Occurrence(1.0 / Denominator(RRF_K, rank), rank, results[rank]);
      UpdateTabulates(table, occs + Positions(signal, RRF_K, rank), occ, true);
      assert occs + Positions(signal, RRF_K, rank + 1) == occs + Positions(signal, RRF_K, rank) + [occ];
      table := Update(table, occ, true);
    }
  }

  function Bare(r: K2KResult): K2KResult { r.(provenance := None) }

  // Rewriting provenance never changes which result is chosen.
  lemma {:induction false} RestampingKeepsChoice(occs: seq<Occurrence>, id: string)
    ensures Chosen(occs, id, true).Some? <==> Chosen(occs, id, false).Some?
    ensures Chosen(occs, id, true).Some? ==> Bare(Chosen(occs, id, true).value) == Bare(Chosen(occs, id, false).value)
  {
    if occs != [] {
      RestampingKeepsChoice(occs[..|occs| - 1], id);
    }
  }

  // The same results in the same order, provenance aside.
  ghost predicate SameButProvenance(a: seq<K2KResult>, b: seq<K2KResult>) {
    |a| == |b| && forall i :: 0 <= i < |a| ==> Bare(a[i]) == Bare(b[i])
  }

  lemma {:induction false} TopsAgree(merged: seq<(real, K2KResult)>, ranked: seq<(real, K2KResult)>, topK: nat)
    requires |merged| == |ranked|
    requires forall i :: 0 <= i < |merged| ==> ranked[i].0 == merged[i].0 && Bare(ranked[i].1) == Bare(merged[i].1)
    ensures SameButProvenance(Top(merged, topK), Top(ranked, topK))
  {
  }

  // For any number of stores but one, the merge is the fusion of the same lists with weight 1 and
  // k = 60: the same articles in the same order, with the same scores and the same
  // representatives, provenance aside.
  lemma {:induction false} MergeIsFusion(stores: seq<StoreSearchResult>, topK: nat, out: seq<K2KResult>)
    returns (ranked: seq<(real, K2KResult)>)
    requires |stores| != 1 && IsMerge(out, stores, topK)
    ensures Divisible(RRF_K) && IsRanking(ranked, Occurrences(AsSignals(stores), RRF_K), false)
    ensures SameButProvenance(out, Top(ranked, topK))
  {
    RrfDivisible();
    var merged :| IsRanking(merged, Occurrences(AsSignals(stores), RRF_K), true) && out == Top(merged, topK);
    ranked := PlainRanking(merged, Occurrences(AsSignals(stores), RRF_K));
    TopsAgree(merged, ranked, topK);
  }

  lemma {:induction false} PlainRanking(merged: seq<(real, K2KResult)>, occs: seq<Occurrence>)
    returns (ranked: seq<(real, K2KResult)>)
    requires IsRanking(merged, occs, true)
    ensures IsRanking(ranked, occs, false) && |ranked| == |merged|
    ensures forall i :: 0 <= i < |merged| ==> ranked[i].0 == merged[i].0 && Bare(ranked[i].1) == Bare(merged[i].1)
  {
    forall id
      ensures Chosen(occs, id, true).Some? <==> Chosen(occs, id, false).Some?
      ensures Chosen(occs, id, true).Some? ==> Bare(Chosen(occs, id, true).value) == Bare(Chosen(occs, id, false).value)
    {
      RestampingKeepsChoice(occs, id);
    }
    ranked := seq(|merged|, i requires 0 <= i < |merged| =>
        (merged[i].0, Chosen(occs, merged[i].1.articleId, false).value));
    forall i | 0 <= i < |merged|
      ensures ranked[i].0 == merged[i].0 && Bare(ranked[i].1) == Bare(merged[i].1)
      ensures ranked[i].1.articleId == merged[i].1.articleId
    {
      assert Chosen(occs, merged[i].1.articleId, true) == Some(merged[i].1);
    }
    forall id | Chosen(occs, id, false).Some? ensures Ranked(ranked, id) {
      assert Ranked(merged, id);
      var i :| 0 <= i < |merged| && merged[i].1.articleId == id;
      assert ranked[i].1.articleId == id;
    }
  }
}
