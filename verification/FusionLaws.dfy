/** What rank fusion guarantees about scores and about the list it returns. */
module FusionLaws {
  import opened Outcomes
  import opened StableSort
  import opened RankFusion

  // ---- the returned list ----

  ghost predicate Listed(out: seq<K2KResult>, id: string) {
    exists i :: 0 <= i < |out| && out[i].articleId == id
  }

  // A mentioned article is listed, unless the list is full of articles scoring at least as much.
  lemma {:induction false} DroppedScoresNoMore(ranked: seq<(real, K2KResult)>, occs: seq<Occurrence>, restamp: bool,
                                               topK: nat, id: string)
    requires IsRanking(ranked, occs, restamp) && Chosen(occs, id, restamp).Some?
    ensures var out := Top(ranked, topK);
      Listed(out, id) || (|out| == topK && forall i :: 0 <= i < |out| ==> Score(occs, id) <= out[i].confidence)
  {
    var out := Top(ranked, topK);
    assert Ranked(ranked, id);
    var j :| 0 <= j < |ranked| && ranked[j].1.articleId == id;
    assert j < |out| ==> out[j].articleId == id;
  }

  // For every order in which the hash map yields its entries: no article twice, at most topK
  // results, scores that never rise, and no dropped article scoring above a kept one.
  lemma {:induction false} TopIsBest(ranked: seq<(real, K2KResult)>, occs: seq<Occurrence>, restamp: bool, topK: nat)
    requires IsRanking(ranked, occs, restamp)
    ensures var out := Top(ranked, topK);
      && |out| <= topK
      && (forall i, j :: 0 <= i < j < |out| ==>
             out[i].articleId != out[j].articleId && out[i].confidence >= out[j].confidence)
      && (forall i :: 0 <= i < |out| ==> out[i].confidence == Score(occs, out[i].articleId))
      && (forall id :: Chosen(occs, id, restamp).Some? ==>
            Listed(out, id) || (|out| == topK && forall i :: 0 <= i < |out| ==> Score(occs, id) <= out[i].confidence))
  {
    forall id | Chosen(occs, id, restamp).Some?
      ensures var out := Top(ranked, topK);
        Listed(out, id) || (|out| == topK && forall i :: 0 <= i < |out| ==> Score(occs, id) <= out[i].confidence)
    {
      DroppedScoresNoMore(ranked, occs, restamp, topK, id);
    }
  }

  // Two rankings of the same occurrences list the same articles with the same scores and
  // representatives; only the order of ties may differ.
  lemma {:induction false} RankingsAgree(r1: seq<(real, K2KResult)>, r2: seq<(real, K2KResult)>,
                                         occs: seq<Occurrence>, restamp: bool)
    requires IsRanking(r1, occs, restamp) && IsRanking(r2, occs, restamp)
    ensures forall x :: x in r1 <==> x in r2
  {
    EntriesCarryOver(r1, r2, occs, restamp);
    EntriesCarryOver(r2, r1, occs, restamp);
  }

  lemma {:induction false} EntriesCarryOver(r1: seq<(real, K2KResult)>, r2: seq<(real, K2KResult)>,
                                            occs: seq<Occurrence>, restamp: bool)
    requires IsRanking(r1, occs, restamp) && IsRanking(r2, occs, restamp)
    ensures forall x :: x in r1 ==> x in r2
  {
    forall x | x in r1 ensures x in r2 {
      var i :| 0 <= i < |r1| && r1[i] == x;
      assert Chosen(occs, x.1.articleId, restamp) == Some(x.1);
      assert Ranked(r2, x.1.articleId);
      var j :| 0 <= j < |r2| && r2[j].1.articleId == x.1.articleId;
      assert r2[j] == x;
    }
  }

  // The representative is an occurrence of the article with the greatest confidence, and among
  // those the earliest.
  lemma {:induction false} ChosenIsEarliestBest(occs: seq<Occurrence>, id: string)
    requires Chosen(occs, id, false).Some?
    ensures exists i :: IsEarliestBest(occs, id, i) && Chosen(occs, id, false) == Some(occs[i].result)
  {
    var n := |occs| - 1;
    var init := occs[..n];
    if Chosen(init, id, false).None? {
      NotMentioned(init, id, false);
      assert IsEarliestBest(occs, id, n);
    } else {
      ChosenIsEarliestBest(init, id);
      var i :| IsEarliestBest(init, id, i) && Chosen(init, id, false) == Some(init[i].result);
      if occs[n].result.articleId == id && occs[n].result.confidence > init[i].result.confidence {
        assert IsEarliestBest(occs, id, n);
      } else {
        assert IsEarliestBest(occs, id, i);
      }
    }
  }

  ghost predicate IsEarliestBest(occs: seq<Occurrence>, id: string, i: int) {
    && 0 <= i < |occs| && occs[i].result.articleId == id
    && forall j :: 0 <= j < |occs| && occs[j].result.articleId == id ==>
         occs[j].result.confidence <= occs[i].result.confidence &&
         (j < i ==> occs[j].result.confidence < occs[i].result.confidence)
  }

  lemma {:induction false} NotMentioned(occs: seq<Occurrence>, id: string, restamp: bool)
    requires Chosen(occs, id, restamp).None?
    ensures forall j :: 0 <= j < |occs| ==> occs[j].result.articleId != id
  {
    if occs != [] {
      NotMentioned(occs[..|occs| - 1], id, restamp);
    }
  }

  // ---- scores as sums over signals ----

  lemma {:induction false} ScoreAdds(a: seq<Occurrence>, b: seq<Occurrence>, id: string)
    ensures Score(a + b, id) == Score(a, id) + Score(b, id)
    decreases |b|
  {
    if b == [] {
      assert a + b == a;
    } else {
      assert (a + b)[..|a + b| - 1] == a + b[..|b| - 1];
      ScoreAdds(a, b[..|b| - 1], id);
    }
  }

  // What one signal gives an article: weight / (k + rank + 1) for each rank it appears at.
  function Contribution(signal: Signal, k: real, id: string, n: nat): real
    requires Divisible(k) && n <= |signal.results|
  {
    if n == 0 then 0.0
    else
      assert Denominator(k, n - 1) != 0.0;
      var share := if signal.results[n - 1].articleId == id then signal.weight / (k + (n - 1) as real + 1.0) else 0.0;
      Contribution(signal, k, id, n - 1) + share
  }

  function Given(signal: Signal, k: real, id: string): real
    requires Divisible(k)
  {
    Contribution(signal, k, id, |signal.results|)
  }

  lemma {:induction false} PositionsScore(signal: Signal, k: real, id: string, n: nat)
    requires Divisible(k) && n <= |signal.results|
    ensures Score(Positions(signal, k, n), id) == Contribution(signal, k, id, n)
  {
    if n != 0 {
      PositionsScore(signal, k, id, n - 1);
      assert Positions(signal, k, n)[..|Positions(signal, k, n)| - 1] == Positions(signal, k, n - 1);
    }
  }

  function TotalGiven(signals: seq<Signal>, k: real, id: string): real
    requires Divisible(k)
  {
    if signals == [] then 0.0
    else TotalGiven(signals[..|signals| - 1], k, id) + Given(signals[|signals| - 1], k, id)
  }

  // The fused score is the sum of weight / (k + rank + 1) over the signals and ranks.
  lemma {:induction false} ScoreIsSumOverSignals(signals: seq<Signal>, k: real, id: string)
    requires Divisible(k)
    ensures Score(Occurrences(signals, k), id) == TotalGiven(signals, k, id)
  {
    if signals != [] {
      var init, last := signals[..|signals| - 1], signals[|signals| - 1];
      ScoreIsSumOverSignals(init, k, id);
      PositionsScore(last, k, id, |last.results|);
      ScoreAdds(Occurrences(init, k), Positions(last, k, |last.results|), id);
    }
  }

  lemma {:induction false} TotalAdds(a: seq<Signal>, b: seq<Signal>, k: real, id: string)
    requires Divisible(k)
    ensures TotalGiven(a + b, k, id) == TotalGiven(a, k, id) + TotalGiven(b, k, id)
    decreases |b|
  {
    if b == [] {
      assert a + b == a;
    } else {
      assert (a + b)[..|a + b| - 1] == a + b[..|b| - 1];
      TotalAdds(a, b[..|b| - 1], k, id);
    }
  }

  lemma {:induction false} TotalWithout(t: seq<Signal>, i: nat, k: real, id: string)
    requires Divisible(k) && i < |t|
    ensures TotalGiven(t, k, id) == TotalGiven(t[..i] + t[i + 1..], k, id) + Given(t[i], k, id)
  {
    var x := t[i];
    assert t == t[..i] + ([x] + t[i + 1..]);
    TotalAdds(t[..i], [x] + t[i + 1..], k, id);
    TotalAdds([x], t[i + 1..], k, id);
    TotalAdds(t[..i], t[i + 1..], k, id);
    assert [x][..0] == [];
  }

  lemma {:induction false} TotalOfPermutation(s: seq<Signal>, t: seq<Signal>, k: real, id: string)
    requires Divisible(k) && multiset(s) == multiset(t)
    ensures TotalGiven(s, k, id) == TotalGiven(t, k, id)
    decreases |s|
  {
    if s == [] {
      assert |multiset(t)| == |t| == 0;
    } else {
      var i := RemoveShared(s, t);
      TotalOfPermutation(s[..|s| - 1], t[..i] + t[i + 1..], k, id);
      TotalWithout(t, i, k, id);
    }
  }

  // Reordering the signals changes no score.
  lemma {:induction false} ScoreIgnoresSignalOrder(s: seq<Signal>, t: seq<Signal>, k: real, id: string)
    requires Divisible(k) && multiset(s) == multiset(t)
    ensures Score(Occurrences(s, k), id) == Score(Occurrences(t, k), id)
  {
    ScoreIsSumOverSignals(s, k, id);
    ScoreIsSumOverSignals(t, k, id);
    TotalOfPermutation(s, t, k, id);
  }

  // ---- the returned list, read off the signals ----

  // All results, signal after signal.
  function Found(signals: seq<Signal>): seq<K2KResult> {
    if signals == [] then [] else Found(signals[..|signals| - 1]) + signals[|signals| - 1].results
  }

  lemma {:induction false} PositionsAre(signal: Signal, k: real, n: nat)
    requires Divisible(k) && n <= |signal.results|
    ensures |Positions(signal, k, n)| == n
    ensures forall r :: 0 <= r < n ==>
              Positions(signal, k, n)[r].rank == r && Positions(signal, k, n)[r].result == signal.results[r]
  {
    if n != 0 {
      PositionsAre(signal, k, n - 1);
    }
  }

  lemma {:induction false} OccurrencesAreFound(signals: seq<Signal>, k: real)
    requires Divisible(k)
    ensures |Occurrences(signals, k)| == |Found(signals)|
    ensures forall i :: 0 <= i < |Found(signals)| ==> Occurrences(signals, k)[i].result == Found(signals)[i]
  {
    if signals != [] {
      var last := signals[|signals| - 1];
      OccurrencesAreFound(signals[..|signals| - 1], k);
      PositionsAre(last, k, |last.results|);
    }
  }

  // Occurrence i is result r of signal s.
  lemma {:induction false} OccurrenceAt(signals: seq<Signal>, k: real, i: nat) returns (s: nat, r: nat)
    requires Divisible(k) && i < |Occurrences(signals, k)|
    ensures s < |signals| && r < |signals[s].results| && i == |Found(signals[..s])| + r
    ensures Occurrences(signals, k)[i].rank == r && Occurrences(signals, k)[i].result == signals[s].results[r]
  {
    var n := |signals| - 1;
    OccurrencesAreFound(signals[..n], k);
    if i >= |Found(signals[..n])| {
      s, r := n, i - |Found(signals[..n])|;
      PositionsAre(signals[n], k, |signals[n].results|);
    } else {
      s, r := OccurrenceAt(signals[..n], k, i);
      assert signals[..n][..s] == signals[..s];
    }
  }

  // Of all results for its article, result i is the most confident, and the earliest of those.
  ghost predicate Represents(found: seq<K2KResult>, i: int) {
    && 0 <= i < |found|
    && forall j :: 0 <= j < |found| && found[j].articleId == found[i].articleId ==>
         found[j].confidence <= found[i].confidence && (j < i ==> found[j].confidence < found[i].confidence)
  }

  // The list shows result i with the given score, in its provenance too if it has one.
  ghost predicate Shows(x: K2KResult, found: seq<K2KResult>, i: int, score: real) {
    && Represents(found, i)
    && x == found[i].(confidence := score,
                      provenance := match found[i].provenance
                                    case None => None
                                    case Some(p) => Some(p.(rrfScore := score)))
  }

  ghost predicate IsShown(x: K2KResult, found: seq<K2KResult>, score: real) { exists i :: Shows(x, found, i, score) }

  // At most topK results, best first, each article once; an article that was found is listed
  // unless the list is full of articles that score at least as much.
  ghost predicate ListsBest(out: seq<K2KResult>, found: seq<K2KResult>, score: string -> real, topK: nat) {
    && |out| <= topK
    && (forall i, j :: 0 <= i < j < |out| ==>
          out[i].articleId != out[j].articleId && out[i].confidence >= out[j].confidence)
    && forall i :: 0 <= i < |found| ==>
         || Listed(out, found[i].articleId)
         || (|out| == topK && forall n :: 0 <= n < |out| ==> score(found[i].articleId) <= out[n].confidence)
  }

  // The whole of what a fusion returns, in terms of what was found and of the score of an article.
  ghost predicate Fuses(out: seq<K2KResult>, found: seq<K2KResult>, score: string -> real, topK: nat) {
    && ListsBest(out, found, score, topK)
    && forall n :: 0 <= n < |out| ==> IsShown(out[n], found, score(out[n].articleId))
  }

  ghost predicate AreResults(occs: seq<Occurrence>, found: seq<K2KResult>) {
    |occs| == |found| && forall i :: 0 <= i < |found| ==> occs[i].result == found[i]
  }

  lemma {:induction false} MentionedIsChosen(occs: seq<Occurrence>, found: seq<K2KResult>, restamp: bool, i: nat)
    requires AreResults(occs, found) && i < |found|
    ensures Chosen(occs, found[i].articleId, restamp).Some?
  {
    if Chosen(occs, found[i].articleId, restamp).None? {
      NotMentioned(occs, found[i].articleId, restamp);
    }
  }

  lemma {:induction false} TopListsBest(ranked: seq<(real, K2KResult)>, occs: seq<Occurrence>, restamp: bool,
                                        found: seq<K2KResult>, score: string -> real, topK: nat)
    requires IsRanking(ranked, occs, restamp) && AreResults(occs, found)
    requires forall id :: score(id) == Score(occs, id)
    ensures ListsBest(Top(ranked, topK), found, score, topK)
  {
    TopIsBest(ranked, occs, restamp, topK);
    var out := Top(ranked, topK);
    forall i | 0 <= i < |found|
      ensures Listed(out, found[i].articleId) ||
              (|out| == topK && forall n :: 0 <= n < |out| ==> score(found[i].articleId) <= out[n].confidence)
    {
      MentionedIsChosen(occs, found, restamp, i);
      DroppedScoresNoMore(ranked, occs, restamp, topK, found[i].articleId);
    }
  }

  lemma {:induction false} EarliestBestRepresents(occs: seq<Occurrence>, found: seq<K2KResult>, id: string, i: int)
    requires AreResults(occs, found) && IsEarliestBest(occs, id, i)
    ensures Represents(found, i) && found[i].articleId == id
  {
    forall j | 0 <= j < |found| && found[j].articleId == found[i].articleId
      ensures found[j].confidence <= found[i].confidence && (j < i ==> found[j].confidence < found[i].confidence)
    {
      assert occs[j].result.articleId == id;
    }
  }

  lemma {:induction false} TopFuses(ranked: seq<(real, K2KResult)>, occs: seq<Occurrence>, found: seq<K2KResult>,
                                    score: string -> real, topK: nat)
    requires IsRanking(ranked, occs, false) && AreResults(occs, found)
    requires forall id :: score(id) == Score(occs, id)
    ensures Fuses(Top(ranked, topK), found, score, topK)
  {
    TopListsBest(ranked, occs, false, found, score, topK);
    var out := Top(ranked, topK);
    forall n | 0 <= n < |out| ensures IsShown(out[n], found, score(out[n].articleId)) {
      var id := ranked[n].1.articleId;
      ChosenIsEarliestBest(occs, id);
      var i :| IsEarliestBest(occs, id, i) && Chosen(occs, id, false) == Some(occs[i].result);
      EarliestBestRepresents(occs, found, id, i);
      assert Shows(out[n], found, i, score(out[n].articleId));
    }
  }

  // What `MergeSignals` promises, in plain terms: it fuses all results of the signals by the sums
  // of weight / (k + rank + 1).
  lemma {:induction false} FusionMeans(signals: seq<Signal>, k: real, topK: nat, out: seq<K2KResult>)
    requires Divisible(k)
    requires exists ranked :: IsRanking(ranked, Occurrences(signals, k), false) && out == Top(ranked, topK)
    ensures Fuses(out, Found(signals), (id: string) => TotalGiven(signals, k, id), topK)
  {
    var ranked :| IsRanking(ranked, Occurrences(signals, k), false) && out == Top(ranked, topK);
    var score := (id: string) => TotalGiven(signals, k, id);
    forall id ensures score(id) == Score(Occurrences(signals, k), id) {
      ScoreIsSumOverSignals(signals, k, id);
    }
    OccurrencesAreFound(signals, k);
    TopFuses(ranked, Occurrences(signals, k), Found(signals), score, topK);
  }

  // ---- conservation ----

  function Shares(occs: seq<Occurrence>): real {
    if occs == [] then 0.0 else Shares(occs[..|occs| - 1]) + occs[|occs| - 1].share
  }

  function ScoresOf(ids: seq<string>, occs: seq<Occurrence>): real {
    if ids == [] then 0.0 else ScoresOf(ids[..|ids| - 1], occs) + Score(occs, ids[|ids| - 1])
  }

  lemma {:induction false} OneShare(ids: seq<string>, occs: seq<Occurrence>)
    requires occs != [] && forall i, j :: 0 <= i < j < |ids| ==> ids[i] != ids[j]
    ensures ScoresOf(ids, occs) == ScoresOf(ids, occs[..|occs| - 1])
              + if occs[|occs| - 1].result.articleId in ids then occs[|occs| - 1].share else 0.0
  {
    if ids != [] {
      var init, x := ids[..|ids| - 1], ids[|ids| - 1];
      assert ids == init + [x];
      OneShare(init, occs);
    }
  }

  lemma {:induction false} NoScores(ids: seq<string>)
    ensures ScoresOf(ids, []) == 0.0
  {
    if ids != [] {
      NoScores(ids[..|ids| - 1]);
    }
  }

  lemma {:induction false} ScoresAreConserved(ids: seq<string>, occs: seq<Occurrence>)
    requires forall i, j :: 0 <= i < j < |ids| ==> ids[i] != ids[j]
    requires forall i :: 0 <= i < |occs| ==> occs[i].result.articleId in ids
    ensures ScoresOf(ids, occs) == Shares(occs)
  {
    if occs == [] {
      NoScores(ids);
    } else {
      ScoresAreConserved(ids, occs[..|occs| - 1]);
      OneShare(ids, occs);
    }
  }

  function RankedTotal(ranked: seq<(real, K2KResult)>): real {
    if ranked == [] then 0.0 else RankedTotal(ranked[..|ranked| - 1]) + ranked[|ranked| - 1].0
  }

  function IdsOf(ranked: seq<(real, K2KResult)>): seq<string> {
    seq(|ranked|, i requires 0 <= i < |ranked| => ranked[i].1.articleId)
  }

  lemma {:induction false} RankedTotalIsScores(ranked: seq<(real, K2KResult)>, occs: seq<Occurrence>)
    requires forall i :: 0 <= i < |ranked| ==> ranked[i].0 == Score(occs, ranked[i].1.articleId)
    ensures RankedTotal(ranked) == ScoresOf(IdsOf(ranked), occs)
  {
    if ranked != [] {
      var init := ranked[..|ranked| - 1];
      RankedTotalIsScores(init, occs);
      assert IdsOf(ranked)[..|ranked| - 1] == IdsOf(init);
    }
  }

  // Nothing is lost or made up: before the cut to topK the fused scores of all articles add up to
  // the shares of all list positions.
  lemma {:induction false} RankingConserves(ranked: seq<(real, K2KResult)>, occs: seq<Occurrence>, restamp: bool)
    requires IsRanking(ranked, occs, restamp)
    ensures RankedTotal(ranked) == Shares(occs)
  {
    var ids := IdsOf(ranked);
    forall i | 0 <= i < |occs| ensures occs[i].result.articleId in ids {
      var id := occs[i].result.articleId;
      if Chosen(occs, id, restamp).None? {
        NotMentioned(occs, id, restamp);
      }
      assert Ranked(ranked, id);
      var j :| 0 <= j < |ranked| && ranked[j].1.articleId == id;
      assert ids[j] == id;
    }
    RankedTotalIsScores(ranked, occs);
    ScoresAreConserved(ids, occs);
  }

  // ---- dominance ----

  ghost predicate NoRepeats(signal: Signal) {
    forall i, j :: 0 <= i < j < |signal.results| ==> signal.results[i].articleId != signal.results[j].articleId
  }

  ghost predicate AppearsAt(signal: Signal, id: string, r: int) {
    0 <= r < |signal.results| && signal.results[r].articleId == id
  }

  ghost predicate Appears(signal: Signal, id: string) { exists r :: AppearsAt(signal, id, r) }

  // Wherever b appears in the signal, a appears at or above it.
  ghost predicate AtOrAbove(signal: Signal, a: string, b: string) {
    forall r :: AppearsAt(signal, b, r) ==> exists q :: q <= r && AppearsAt(signal, a, q)
  }

  lemma {:induction false} ContributionUpTo(signal: Signal, k: real, id: string, n: nat)
    requires Divisible(k) && n <= |signal.results| && NoRepeats(signal)
    ensures (forall r :: 0 <= r < n ==> !AppearsAt(signal, id, r)) ==> Contribution(signal, k, id, n) == 0.0
    ensures forall r :: 0 <= r < n && AppearsAt(signal, id, r) ==>
              Contribution(signal, k, id, n) == signal.weight / Denominator(k, r)
  {
    if n != 0 {
      ContributionUpTo(signal, k, id, n - 1);
      if AppearsAt(signal, id, n - 1) {
        assert forall r :: 0 <= r < n - 1 ==> !AppearsAt(signal, id, r);
      }
    }
  }

  lemma {:induction false} RatiosOrdered(p: real, q: real, x: real, y: real)
    requires p * x == q * y && 0.0 < x <= y && q >= 0.0
    ensures p >= q
    ensures q > 0.0 && x < y ==> p > q
  {
    assert q * x <= q * y;
    assert q > 0.0 && x < y ==> q * x < q * y;
    assert p <= q ==> p * x <= q * x;
    assert p < q ==> p * x < q * x;
  }

  lemma {:induction false} SmallerDenominator(w: real, x: real, y: real)
    requires w >= 0.0 && 0.0 < x <= y
    ensures w / x >= w / y >= 0.0
    ensures w > 0.0 ==> w / y > 0.0 && (x < y ==> w / x > w / y)
  {
    var p, q := w / x, w / y;
    assert p * x == w && q * y == w;
    assert q >= 0.0 && (w > 0.0 ==> q > 0.0);
    RatiosOrdered(p, q, x, y);
  }

  lemma {:induction false} GivenAt(signal: Signal, k: real, id: string, r: int)
    requires Divisible(k) && NoRepeats(signal) && AppearsAt(signal, id, r)
    ensures Given(signal, k, id) == signal.weight / Denominator(k, r)
  {
    ContributionUpTo(signal, k, id, |signal.results|);
  }

  lemma {:induction false} GivenNothing(signal: Signal, k: real, id: string)
    requires Divisible(k) && NoRepeats(signal) && !Appears(signal, id)
    ensures Given(signal, k, id) == 0.0
  {
    ContributionUpTo(signal, k, id, |signal.results|);
  }

  lemma {:induction false} BothAppear(signal: Signal, k: real, a: string, q: int, b: string, r: int)
    requires k > -1.0 && Divisible(k) && signal.weight >= 0.0 && NoRepeats(signal)
    requires AppearsAt(signal, a, q) && AppearsAt(signal, b, r) && q <= r
    ensures Given(signal, k, a) >= Given(signal, k, b)
    ensures a != b && signal.weight > 0.0 ==> Given(signal, k, a) > Given(signal, k, b)
  {
    GivenAt(signal, k, a, q);
    GivenAt(signal, k, b, r);
    SmallerDenominator(signal.weight, Denominator(k, q), Denominator(k, r));
  }

  lemma {:induction false} OneAppears(signal: Signal, k: real, a: string, q: int, b: string)
    requires k > -1.0 && Divisible(k) && signal.weight >= 0.0 && NoRepeats(signal)
    requires AppearsAt(signal, a, q) && !Appears(signal, b)
    ensures Given(signal, k, a) >= 0.0 == Given(signal, k, b)
    ensures signal.weight > 0.0 ==> Given(signal, k, a) > 0.0
  {
    GivenAt(signal, k, a, q);
    GivenNothing(signal, k, b);
    SmallerDenominator(signal.weight, Denominator(k, q), Denominator(k, q));
  }

  lemma {:induction false} SignalDominates(signal: Signal, k: real, a: string, b: string)
    requires k > -1.0 && Divisible(k) && signal.weight >= 0.0 && NoRepeats(signal) && AtOrAbove(signal, a, b)
    ensures Given(signal, k, a) >= Given(signal, k, b)
    ensures a != b && signal.weight > 0.0 && Appears(signal, a) ==> Given(signal, k, a) > Given(signal, k, b)
  {
    if Appears(signal, b) {
      var r :| AppearsAt(signal, b, r);
      var q :| q <= r && AppearsAt(signal, a, q);
      BothAppear(signal, k, a, q, b, r);
    } else if Appears(signal, a) {
      var q :| AppearsAt(signal, a, q);
      OneAppears(signal, k, a, q, b);
    } else {
      GivenNothing(signal, k, a);
      GivenNothing(signal, k, b);
    }
  }

  // An article that every signal ranks at or above another scores at least as much, and more as
  // soon as a signal with positive weight mentions it at all.
  lemma {:induction false} BetterRankedScoresMore(signals: seq<Signal>, k: real, a: string, b: string)
    requires k > -1.0 && Divisible(k)
    requires forall i :: 0 <= i < |signals| ==>
               signals[i].weight >= 0.0 && NoRepeats(signals[i]) && AtOrAbove(signals[i], a, b)
    ensures Score(Occurrences(signals, k), a) >= Score(Occurrences(signals, k), b)
    ensures a != b && (exists i :: 0 <= i < |signals| && signals[i].weight > 0.0 && Appears(signals[i], a)) ==>
              Score(Occurrences(signals, k), a) > Score(Occurrences(signals, k), b)
  {
    if signals != [] {
      var n := |signals| - 1;
      BetterRankedScoresMore(signals[..n], k, a, b);
      SignalDominates(signals[n], k, a, b);
      ScoreIsSumOverSignals(signals, k, a);
      ScoreIsSumOverSignals(signals, k, b);
      ScoreIsSumOverSignals(signals[..n], k, a);
      ScoreIsSumOverSignals(signals[..n], k, b);
    }
  }
}
