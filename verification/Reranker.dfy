/** The reranker of src/retrieval/reranker.rs: bounded boosts, then a stable sort. */
module Reranker {
  import opened Outcomes
  import opened StableSort
  import opened RankFusion
  import Text

  // What the reranker takes from the standard library.
  datatype Library = Library(toLowercase: string -> string)

  predicate OccursAt(s: string, part: string, i: nat) {
    i + |part| <= |s| && s[i..i + |part|] == part
  }

  // `str::contains`.
  predicate Contains(s: string, part: string) {
    exists i: nat :: i <= |s| && OccursAt(s, part, i)
  }

  // Length in UTF-8 bytes, as `str::len` counts.
  function ByteLen(s: string): nat {
    if s == [] then 0
    else
      var n := s[|s| - 1] as int;
      ByteLen(s[..|s| - 1]) + if n < 0x80 then 1 else if n < 0x800 then 2 else if n < 0x1_0000 then 3 else 4
  }

  lemma {:induction false} ContainsIff(s: string, part: string)
    ensures Contains(s, part) <==> exists u, v :: s == u + part + v
  {
    if Contains(s, part) {
      var i: nat :| i <= |s| && OccursAt(s, part, i);
      assert s == s[..i] + part + s[i + |part|..];
    } else if u, v :| s == u + part + v {
      assert OccursAt(s, part, |u|);
    }
  }

  // How many characters of s have at least the given code.
  function AtLeast(s: string, code: int): nat { |set i: nat | i < |s| && s[i] as int >= code| }

  lemma {:induction false} AtLeastSnoc(s: string, code: int)
    requires s != []
    ensures AtLeast(s, code) == AtLeast(s[..|s| - 1], code) + if s[|s| - 1] as int >= code then 1 else 0
  {
    var n := |s| - 1;
    var before := set i: nat | i < n && s[..n][i] as int >= code;
    var after := set i: nat | i < |s| && s[i] as int >= code;
    assert after == if s[n] as int >= code then before + {n} else before;
  }

  // One byte for each character, and one more from each of the codes 0x80, 0x800 and 0x10000 on.
  lemma {:induction false} ByteLenCounts(s: string)
    ensures ByteLen(s) == |s| + AtLeast(s, 0x80) + AtLeast(s, 0x800) + AtLeast(s, 0x1_0000)
  {
    if s != [] {
      ByteLenCounts(s[..|s| - 1]);
      AtLeastSnoc(s, 0x80);
      AtLeastSnoc(s, 0x800);
      AtLeastSnoc(s, 0x1_0000);
    }
  }

  function Matching(ws: seq<string>, title: string): nat {
    if ws == [] then 0
    else Matching(ws[..|ws| - 1], title) + if Contains(title, ws[|ws| - 1]) then 1 else 0
  }

  const MAX_BOOST: real := 0.4

  // The query's words of more than two bytes.
  function LongWords(ws: seq<string>): seq<string> {
    if ws == [] then []
    else LongWords(ws[..|ws| - 1]) + if ByteLen(ws[|ws| - 1]) > 2 then [ws[|ws| - 1]] else []
  }

  // 0.15 for the whole query in the content; 0.2 for the whole query in the title, or else 0.1
  // times the share of its long words found there; 0.05 or 0.02 for recency.
  function BoostOf(lib: Library, result: K2KResult, query: string): real {
    var title, content, q := lib.toLowercase(result.title), lib.toLowercase(result.content), lib.toLowercase(query);
    var words := LongWords(Text.Words(q));
    var phrase := if Contains(content, q) then 0.15 else 0.0;
    var heading :=
      if Contains(title, q) then 0.2
      else if words == [] then 0.0
      else 0.1 * (Matching(words, title) as real / |words| as real);
    phrase + heading + Recency(result.modifiedDaysAgo)
  }

  function Recency(daysAgo: Option<int>): real {
    if daysAgo.None? then 0.0
    else if daysAgo.value < 7 then 0.05
    else if daysAgo.value < 30 then 0.02
    else 0.0
  }

  lemma {:induction false} MatchingBound(ws: seq<string>, title: string)
    ensures Matching(ws, title) <= |ws|
  {
    if ws != [] {
      MatchingBound(ws[..|ws| - 1], title);
    }
  }

  lemma {:induction false} ShareBound(part: nat, whole: nat)
    requires part <= whole && whole > 0
    ensures 0.0 <= part as real / whole as real <= 1.0
  {
    var q := part as real / whole as real;
    assert q * whole as real == part as real;
  }

  lemma {:induction false} BoostIsBounded(lib: Library, result: K2KResult, query: string)
    ensures 0.0 <= BoostOf(lib, result, query) <= MAX_BOOST
  {
    var words := LongWords(Text.Words(lib.toLowercase(query)));
    MatchingBound(words, lib.toLowercase(result.title));
    if words != [] {
      ShareBound(Matching(words, lib.toLowercase(result.title)), |words|);
    }
  }

  // ---- what a reranking is ----

  // The positions of the words of more than two bytes, and of those of them found in the title.
  function LongAt(ws: seq<string>): set<nat> { set i: nat | i < |ws| && ByteLen(ws[i]) > 2 }

  function FoundAt(ws: seq<string>, title: string): set<nat> {
    set i: nat | i < |ws| && ByteLen(ws[i]) > 2 && Contains(title, ws[i])
  }

  // The confidence that query phrase, query words and recency earn a result.
  predicate Earns(lib: Library, r: K2KResult, query: string, gain: real) {
    var title, content, q := lib.toLowercase(r.title), lib.toLowercase(r.content), lib.toLowercase(query);
    var long, found := |LongAt(Text.Words(q))|, |FoundAt(Text.Words(q), title)|;
    gain ==
      (if Contains(content, q) then 0.15 else 0.0)
      + (if Contains(title, q) then 0.2 else if long == 0 then 0.0 else 0.1 * (found as real / long as real))
      + (match r.modifiedDaysAgo
         case None => 0.0
         case Some(days) => if days < 7 then 0.05 else if days < 30 then 0.02 else 0.0)
  }

  // Result i is result p[i] of the old list, its confidence raised by what it earns; confidences
  // never rise along the list, and ties keep their order.
  ghost predicate Reranks(p: seq<nat>, lib: Library, results: seq<K2KResult>, query: string, out: seq<K2KResult>) {
    && |p| == |results| == |out|
    && (forall i :: 0 <= i < |p| ==>
          p[i] < |results| && out[i] == results[p[i]].(confidence := out[i].confidence) &&
          Earns(lib, results[p[i]], query, out[i].confidence - results[p[i]].confidence))
    && (forall i, j :: 0 <= i < j < |p| ==>
          p[i] != p[j] && out[i].confidence >= out[j].confidence &&
          (out[i].confidence == out[j].confidence ==> p[i] < p[j]))
  }

  lemma {:induction false} LongCount(ws: seq<string>)
    ensures |LongAt(ws)| == |LongWords(ws)|
  {
    if ws == [] {
      assert LongAt(ws) == {};
    } else {
      var n := |ws| - 1;
      LongCount(ws[..n]);
      assert LongAt(ws) == LongAt(ws[..n]) + if ByteLen(ws[n]) > 2 then {n} else {};
    }
  }

  lemma {:induction false} MatchingSnoc(ws: seq<string>, w: string, title: string)
    ensures Matching(ws + [w], title) == Matching(ws, title) + if Contains(title, w) then 1 else 0
  {
    assert (ws + [w])[..|ws|] == ws;
  }

  lemma {:induction false} FoundSnoc(ws: seq<string>, title: string)
    requires ws != []
    ensures var n := |ws| - 1;
      && n !in FoundAt(ws[..n], title)
      && FoundAt(ws, title)
         == FoundAt(ws[..n], title) + if ByteLen(ws[n]) > 2 && Contains(title, ws[n]) then {n} else {}
  {
    var n := |ws| - 1;
    forall i ensures i in FoundAt(ws, title) && i != n <==> i in FoundAt(ws[..n], title) {
      assert 0 <= i < n ==> ws[..n][i] == ws[i];
    }
  }

  lemma {:induction false} FoundCount(ws: seq<string>, title: string)
    ensures |FoundAt(ws, title)| == Matching(LongWords(ws), title)
  {
    if ws == [] {
      assert FoundAt(ws, title) == {};
    } else {
      var n := |ws| - 1;
      FoundCount(ws[..n], title);
      MatchingSnoc(LongWords(ws[..n]), ws[n], title);
      FoundSnoc(ws, title);
      assert LongWords(ws[..n]) + [] == LongWords(ws[..n]);
    }
  }

  lemma {:induction false} BoostIsEarned(lib: Library, r: K2KResult, query: string)
    ensures Earns(lib, r, query, BoostOf(lib, r, query))
  {
    var ws := Text.Words(lib.toLowercase(query));
    LongCount(ws);
    FoundCount(ws, lib.toLowercase(r.title));
  }

  method QueryWords(query: string) returns (words: seq<string>)
    ensures words == LongWords(Text.Words(query))
  {
    var all := Text.Words(query);
    words := [];
    for i := 0 to |all|
      invariant words == LongWords(all[..i])
    {
      assert all[..i + 1][..i] == all[..i];
      if ByteLen(all[i]) > 2 {
        words := words + [all[i]];
      }
    }
    assert all[..|all|] == all;
  }

  method Boost(lib: Library, result: K2KResult, query: string, words: seq<string>) returns (boost: real)
    requires words == LongWords(Text.Words(lib.toLowercase(query)))
    ensures boost == BoostOf(lib, result, query) && Earns(lib, result, query, boost)
  {
    var queryLower := lib.toLowercase(query);
    boost := 0.0;
    if Contains(lib.toLowercase(result.content), queryLower) {
      boost := boost + 0.15;
    }
    var title := lib.toLowercase(result.title);
    if Contains(title, queryLower) {
      boost := boost + 0.2;
    } else {
      var matches := 0;
      for i := 0 to |words|
        invariant matches == Matching(words[..i], title)
      {
        assert words[..i + 1][..i] == words[..i];
        if Contains(title, words[i]) {
          matches := matches + 1;
        }
      }
      assert words[..|words|] == words;
      if words != [] {
        boost := boost + 0.1 * (matches as real / |words| as real);
      }
    }
    if result.modifiedDaysAgo.Some? {
      if result.modifiedDaysAgo.value < 7 {
        boost := boost + 0.05;
      } else if result.modifiedDaysAgo.value < 30 {
        boost := boost + 0.02;
      }
    }
    BoostIsEarned(lib, result, query);
  }

  // Every result paired with its confidence plus its boost, in the old order.
  function Scored(lib: Library, results: seq<K2KResult>, query: string): seq<(real, K2KResult)> {
    seq(|results|, i requires 0 <= i < |results| =>
        (results[i].confidence + BoostOf(lib, results[i], query), results[i]))
  }

  lemma {:induction false} ScoredInit(lib: Library, results: seq<K2KResult>, query: string)
    requires results != []
    ensures var last := results[|results| - 1];
      Scored(lib, results, query)
      == Scored(lib, results[..|results| - 1], query) + [(last.confidence + BoostOf(lib, last, query), last)]
  {
  }

  function Rescore(x: (real, K2KResult)): K2KResult { x.1.(confidence := x.0) }

  function Rescored(s: seq<(real, K2KResult)>): seq<K2KResult> {
    seq(|s|, i requires 0 <= i < |s| => Rescore(s[i]))
  }

  function Reranked(lib: Library, results: seq<K2KResult>, query: string): seq<K2KResult> {
    Rescored(SortDown(Scored(lib, results, query)))
  }

  method Rerank(lib: Library, results: seq<K2KResult>, query: string) returns (out: seq<K2KResult>)
    ensures out == Reranked(lib, results, query)
    ensures exists p :: Reranks(p, lib, results, query, out)
  {
    var words := QueryWords(lib.toLowercase(query));
    var scored: seq<(real, K2KResult)> := [];
    for i := 0 to |results|
      invariant scored == Scored(lib, results[..i], query)
    {
      var boost := Boost(lib, results[i], query, words);
      assert results[..i + 1][..i] == results[..i];
      ScoredInit(lib, results[..i + 1], query);
      scored := scored + [(results[i].confidence + boost, results[i])];
    }
    assert results[..|results|] == results;
    out := Rescored(SortDown(scored));
    var p := RerankedReranks(lib, results, query);
  }

  lemma {:induction false} ScoredEarns(lib: Library, results: seq<K2KResult>, query: string, i: nat)
    requires i < |results|
    ensures var x := Scored(lib, results, query)[i];
      x.1 == results[i] && Rescore(x) == results[i].(confidence := x.0) && Earns(lib, x.1, query, x.0 - x.1.confidence)
  {
    BoostIsEarned(lib, results[i], query);
  }

  lemma {:induction false} RescoredEarns(lib: Library, results: seq<K2KResult>, query: string, p: seq<nat>,
                                         ranked: seq<(real, K2KResult)>, i: nat)
    requires Reorders(p, Scored(lib, results, query), ranked) && i < |p|
    ensures var x := Rescored(ranked)[i];
      && p[i] < |results| && x.confidence == ranked[i].0 && x == results[p[i]].(confidence := x.confidence)
      && Earns(lib, results[p[i]], query, x.confidence - results[p[i]].confidence)
  {
    ScoredEarns(lib, results, query, p[i]);
  }

  lemma {:induction false} RescoredInOrder(scored: seq<(real, K2KResult)>, ranked: seq<(real, K2KResult)>, p: seq<nat>)
    requires Reorders(p, scored, ranked) && SortedDown(ranked)
    ensures var out := Rescored(ranked);
      forall i, j :: 0 <= i < j < |p| ==>
        p[i] != p[j] && out[i].confidence >= out[j].confidence &&
        (out[i].confidence == out[j].confidence ==> p[i] < p[j])
  {
  }

  lemma {:induction false} RerankedReranks(lib: Library, results: seq<K2KResult>, query: string) returns (p: seq<nat>)
    ensures Reranks(p, lib, results, query, Reranked(lib, results, query))
  {
    var scored := Scored(lib, results, query);
    var ranked := SortDown(scored);
    SortDownSorts(scored);
    p := SortDownReorders(scored);
    var out := Rescored(ranked);
    RescoredInOrder(scored, ranked, p);
    forall i | 0 <= i < |p|
      ensures p[i] < |results| && out[i] == results[p[i]].(confidence := out[i].confidence)
      ensures Earns(lib, results[p[i]], query, out[i].confidence - results[p[i]].confidence)
    {
      RescoredEarns(lib, results, query, p, ranked, i);
    }
  }

  // With the same confidence and age, a result whose title has the query comes before one whose
  // title has neither the query nor any long word of it, whatever their contents.
  lemma {:induction false} TitleMatchOutranks(p: seq<nat>, lib: Library, results: seq<K2KResult>, query: string,
                                              out: seq<K2KResult>, i: nat, j: nat)
    requires Reranks(p, lib, results, query, out) && i < |out| && j < |out|
    requires var a, b := results[p[i]], results[p[j]]; var q, title := lib.toLowercase(query), lib.toLowercase(b.title);
      && a.confidence == b.confidence && a.modifiedDaysAgo == b.modifiedDaysAgo
      && Contains(lib.toLowercase(a.title), q) && !Contains(title, q)
      && forall w :: w in Text.Words(q) && ByteLen(w) > 2 ==> !Contains(title, w)
    ensures i < j && out[i].confidence >= out[j].confidence + 0.05
  {
    var ws, title := Text.Words(lib.toLowercase(query)), lib.toLowercase(results[p[j]].title);
    assert FoundAt(ws, title) == {};
  }

  ghost predicate Distinct(results: seq<K2KResult>) {
    forall i, j :: 0 <= i < j < |results| ==> results[i].articleId != results[j].articleId
  }

  ghost predicate NeverRises(results: seq<K2KResult>) {
    forall i, j :: 0 <= i < j < |results| ==> results[i].confidence >= results[j].confidence
  }

  lemma {:induction false} RankedIsBoosted(lib: Library, results: seq<K2KResult>, query: string, i: nat)
    requires i < |SortDown(Scored(lib, results, query))|
    ensures var x := SortDown(Scored(lib, results, query))[i];
      x.1 in results && x.1.confidence <= x.0 <= x.1.confidence + MAX_BOOST
  {
    var scored := Scored(lib, results, query);
    SortDownSorts(scored);
    assert SortDown(scored)[i] in multiset(SortDown(scored));
    var k :| 0 <= k < |scored| && scored[k] == SortDown(scored)[i];
    BoostIsBounded(lib, results[k], query);
  }

  // Reranking returns the same results, in order of their new confidence.
  lemma {:induction false} RerankingKeepsResults(lib: Library, results: seq<K2KResult>, query: string)
    ensures var ranked := SortDown(Scored(lib, results, query));
      var out := Reranked(lib, results, query);
      && |out| == |results| == |ranked| && NeverRises(out)
      && multiset(Originals(ranked)) == multiset(results)
      && forall i :: 0 <= i < |out| ==> out[i] == Rescore(ranked[i])
  {
    var scored := Scored(lib, results, query);
    SortDownSorts(scored);
    OriginalsOfPermutation(SortDown(scored), scored);
    OriginalsOfScored(lib, results, query);
  }

  // No confidence rises by more than 0.4, so no result overtakes one more than 0.4 ahead of it.
  lemma {:induction false} OvertakingIsBounded(lib: Library, results: seq<K2KResult>, query: string, i: nat, j: nat)
    requires i < j < |SortDown(Scored(lib, results, query))|
    ensures var ranked := SortDown(Scored(lib, results, query));
      ranked[j].1.confidence <= ranked[i].1.confidence + MAX_BOOST
  {
    SortDownSorts(Scored(lib, results, query));
    RankedIsBoosted(lib, results, query, i);
    RankedIsBoosted(lib, results, query, j);
  }

  lemma {:induction false} RerankingKeepsDistinct(lib: Library, results: seq<K2KResult>, query: string)
    requires Distinct(results)
    ensures Distinct(Reranked(lib, results, query))
  {
    var scored := Scored(lib, results, query);
    SortDownSorts(scored);
    var out := Reranked(lib, results, query);
    forall i, j | 0 <= i < j < |out| ensures out[i].articleId != out[j].articleId {
      DistinctAfterPermuting(scored, SortDown(scored), i, j);
    }
  }

  // Results whose boosted confidence ties keep the order they came in.
  lemma {:induction false} RerankingIsStable(lib: Library, results: seq<K2KResult>, query: string, v: real)
    ensures WithScore(SortDown(Scored(lib, results, query)), v) == WithScore(Scored(lib, results, query), v)
  {
    SortDownIsStable(Scored(lib, results, query), v);
  }

  lemma {:induction false} OriginalsOfScored(lib: Library, results: seq<K2KResult>, query: string)
    ensures Originals(Scored(lib, results, query)) == results
  {
    if results != [] {
      var n := |results| - 1;
      OriginalsOfScored(lib, results[..n], query);
      ScoredInit(lib, results, query);
      assert results == results[..n] + [results[n]];
    }
  }

  function Originals(s: seq<(real, K2KResult)>): seq<K2KResult> {
    if s == [] then [] else Originals(s[..|s| - 1]) + [s[|s| - 1].1]
  }

  lemma {:induction false} OriginalsAdd(s: seq<(real, K2KResult)>, t: seq<(real, K2KResult)>)
    ensures Originals(s + t) == Originals(s) + Originals(t)
    decreases |t|
  {
    if t == [] {
      assert s + t == s;
    } else {
      assert (s + t)[..|s + t| - 1] == s + t[..|t| - 1];
      OriginalsAdd(s, t[..|t| - 1]);
    }
  }

  lemma {:induction false} OriginalsWithout(t: seq<(real, K2KResult)>, i: nat)
    requires i < |t|
    ensures multiset(Originals(t)) == multiset(Originals(t[..i] + t[i + 1..])) + multiset{t[i].1}
  {
    var x := t[i];
    assert t == t[..i] + ([x] + t[i + 1..]);
    OriginalsAdd(t[..i], [x] + t[i + 1..]);
    OriginalsAdd([x], t[i + 1..]);
    OriginalsAdd(t[..i], t[i + 1..]);
    assert [x][..0] == [] && Originals([x]) == [x.1];
  }

  lemma {:induction false} OriginalsOfPermutation(s: seq<(real, K2KResult)>, t: seq<(real, K2KResult)>)
    requires multiset(s) == multiset(t)
    ensures multiset(Originals(s)) == multiset(Originals(t))
    decreases |s|
  {
    if s == [] {
      assert |multiset(t)| == |t| == 0;
    } else {
      var i := RemoveShared(s, t);
      OriginalsOfPermutation(s[..|s| - 1], t[..i] + t[i + 1..]);
      OriginalsWithout(t, i);
    }
  }
}
