/** Weighted Reciprocal Rank Fusion: `merge_signals` of src/retrieval/hybrid.rs.

    Scores and weights are real numbers.  A result list is first read as a sequence of
    occurrences, one per position; every score and representative is defined on that sequence. */
module RankFusion {
  import opened Outcomes
  import opened StableSort

  datatype Provenance = Provenance(storeId: string, storeType: string, originalRank: nat, rrfScore: real)

  datatype K2KResult = K2KResult(articleId: string, storeId: string, title: string, content: string,
                                 confidence: real, modifiedDaysAgo: Option<int>, provenance: Option<Provenance>)

  datatype Signal = Signal(results: seq<K2KResult>, weight: real)

  datatype Occurrence = Occurrence(share: real, rank: nat, result: K2KResult)

  function Denominator(k: real, rank: nat): real { k + rank as real + 1.0 }

  // No list position makes the denominator zero.
  ghost predicate Divisible(k: real) { forall rank: nat :: Denominator(k, rank) != 0.0 }

  // The first n positions of a list, each worth weight / (k + rank + 1).
  function Positions(signal: Signal, k: real, n: nat): seq<Occurrence>
    requires Divisible(k) && n <= |signal.results|
  {
    if n == 0 then []
    else
      var occ := Occurrence(signal.weight / Denominator(k, n - 1), n - 1, signal.results[n - 1]);
      Positions(signal, k, n - 1) + [occ]
  }

  function Occurrences(signals: seq<Signal>, k: real): seq<Occurrence>
    requires Divisible(k)
  {
    if signals == [] then []
    else
      var last := signals[|signals| - 1];
      Occurrences(signals[..|signals| - 1], k) + Positions(last, k, |last.results|)
  }

  // The fused score of an article: the sum of the shares of its occurrences.
  function Score(occs: seq<Occurrence>, id: string): real {
    if occs == [] then 0.0
    else
      var last := occs[|occs| - 1];
      Score(occs[..|occs| - 1], id) + if last.result.articleId == id then last.share else 0.0
  }

  // The result that stands for an article: the earliest one, until a strictly more confident
  // one comes.  With `restamp` a newcomer's provenance is rewritten, as the store merger does.
  function Chosen(occs: seq<Occurrence>, id: string, restamp: bool): Option<K2KResult> {
    if occs == [] then None
    else
      var last := occs[|occs| - 1];
      var before := Chosen(occs[..|occs| - 1], id, restamp);
      if last.result.articleId != id then before
      else if before == None then Some(last.result)
      else if last.result.confidence > before.value.confidence
      then Some(if restamp then Restamped(last.result, last.rank, Score(occs, id)) else last.result)
      else before
  }

  function Restamped(r: K2KResult, rank: nat, score: real): K2KResult {
    var storeType := if r.provenance.Some? then r.provenance.value.storeType else "";
    r.(provenance := Some(Provenance(r.storeId, storeType, rank, score)))
  }

  type Table = map<string, (real, K2KResult)>

  // The hash map after the occurrences have been processed.
  ghost predicate Tabulates(table: Table, occs: seq<Occurrence>, restamp: bool) {
    forall id ::
      if id in table then Chosen(occs, id, restamp) == Some(table[id].1) && table[id].0 == Score(occs, id)
      else Chosen(occs, id, restamp) == None && Score(occs, id) == 0.0
  }

  // All mentioned articles with their scores and representatives, best score first.
  ghost predicate IsRanking(ranked: seq<(real, K2KResult)>, occs: seq<Occurrence>, restamp: bool) {
    && SortedDown(ranked)
    && (forall i :: 0 <= i < |ranked| ==>
          Chosen(occs, ranked[i].1.articleId, restamp) == Some(ranked[i].1) &&
          ranked[i].0 == Score(occs, ranked[i].1.articleId))
    && (forall i, j :: 0 <= i < j < |ranked| ==> ranked[i].1.articleId != ranked[j].1.articleId)
    && (forall id :: Chosen(occs, id, restamp).Some? ==> Ranked(ranked, id))
  }

  ghost predicate Ranked(ranked: seq<(real, K2KResult)>, id: string) {
    exists i :: 0 <= i < |ranked| && ranked[i].1.articleId == id
  }

  // A kept result shows its fused score, in its provenance too when it has one.
  function Stamp(x: (real, K2KResult)): K2KResult {
    var r := x.1.(confidence := x.0);
    if r.provenance.Some? then r.(provenance := Some(r.provenance.value.(rrfScore := x.0))) else r
  }

  function Top(ranked: seq<(real, K2KResult)>, topK: nat): seq<K2KResult> {
    var n := if |ranked| <= topK then |ranked| else topK;
    seq(n, i requires 0 <= i < n => Stamp(ranked[i]))
  }

  // ---- the table ----

  function Update(table: Table, occ: Occurrence, restamp: bool): Table {
    var id := occ.result.articleId;
    var entry := if id in table then table[id] else (0.0, occ.result);
    var total := entry.0 + occ.share;
    if occ.result.confidence > entry.1.confidence
    then table[id := (total, if restamp then Restamped(occ.result, occ.rank, total) else occ.result)]
    else table[id := (total, entry.1)]
  }

  lemma {:induction false} UpdateTabulates(table: Table, occs: seq<Occurrence>, occ: Occurrence, restamp: bool)
    requires Tabulates(table, occs, restamp)
    ensures Tabulates(Update(table, occ, restamp), occs + [occ], restamp)
  {
    assert (occs + [occ])[..|occs + [occ]| - 1] == occs;
  }

  lemma {:induction false} ChosenHasId(occs: seq<Occurrence>, id: string, restamp: bool)
    ensures Chosen(occs, id, restamp).Some? ==> Chosen(occs, id, restamp).value.articleId == id
  {
    if occs != [] {
      ChosenHasId(occs[..|occs| - 1], id, restamp);
    }
  }

  ghost predicate Drained(items: seq<(real, K2KResult)>, table: Table, left: set<string>) {
    && (forall i :: 0 <= i < |items| ==>
          items[i].1.articleId in table && items[i].1.articleId !in left && items[i] == table[items[i].1.articleId])
    && (forall i, j :: 0 <= i < j < |items| ==> items[i].1.articleId != items[j].1.articleId)
    && (forall id :: id in table && id !in left ==> Ranked(items, id))
  }

  // `into_values().collect()`: every entry once, in whatever order the hash map yields them.
  method Drain(table: Table) returns (items: seq<(real, K2KResult)>)
    requires forall id :: id in table ==> table[id].1.articleId == id
    ensures Drained(items, table, {})
  {
    items := [];
    var left := table.Keys;
    while left != {}
      invariant left <= table.Keys && Drained(items, table, left)
      decreases left
    {
      var id :| id in left;
      ghost var before := items;
      items := items + [table[id]];
      left := left - {id};
      forall d | d in table && d !in left ensures Ranked(items, d) {
        if d == id {
          assert items[|items| - 1].1.articleId == id;
        } else {
          assert Ranked(before, d);
          var i :| 0 <= i < |before| && before[i].1.articleId == d;
          assert items[i].1.articleId == d;
        }
      }
    }
  }

  lemma {:induction false} SortedDrainIsRanking(items: seq<(real, K2KResult)>, table: Table,
                                                occs: seq<Occurrence>, restamp: bool)
    requires Tabulates(table, occs, restamp) && Drained(items, table, {})
    ensures IsRanking(SortDown(items), occs, restamp)
  {
    var ranked := SortDown(items);
    SortDownSorts(items);
    forall i | 0 <= i < |ranked|
      ensures ranked[i] in items
    {
      assert ranked[i] in multiset(ranked);
    }
    forall i, j | 0 <= i < j < |ranked|
      ensures ranked[i].1.articleId != ranked[j].1.articleId
    {
      DistinctAfterPermuting(items, ranked, i, j);
    }
    forall id | Chosen(occs, id, restamp).Some? ensures Ranked(ranked, id) {
      var i :| 0 <= i < |items| && items[i].1.articleId == id;
      assert items[i] in multiset(items);
      assert items[i] in ranked;
    }
  }

  lemma {:induction false} DistinctAfterPermuting(s: seq<(real, K2KResult)>, t: seq<(real, K2KResult)>, i: nat, j: nat)
    requires multiset(s) == multiset(t) && i < j < |t|
    requires forall a, b :: 0 <= a < b < |s| ==> s[a].1.articleId != s[b].1.articleId
    ensures t[i].1.articleId != t[j].1.articleId
  {
    assert t[i] in multiset(s) && t[j] in multiset(s);
    var a :| 0 <= a < |s| && s[a] == t[i];
    var b :| 0 <= b < |s| && s[b] == t[j];
    if t[i].1.articleId == t[j].1.articleId {
      assert a == b;
      TwiceInMultiset(t, i, j);
      OnceInMultiset(s, a);
    }
  }

  lemma {:induction false} TwiceInMultiset<T>(t: seq<T>, i: nat, j: nat)
    requires i < j < |t| && t[i] == t[j]
    ensures multiset(t)[t[i]] >= 2
  {
    assert t == t[..i] + [t[i]] + t[i + 1..j] + [t[j]] + t[j + 1..];
  }

  lemma {:induction false} OnceInMultiset<T>(s: seq<T>, a: nat)
    requires a < |s| && forall b :: 0 <= b < |s| && b != a ==> s[b] != s[a]
    ensures multiset(s)[s[a]] == 1
  {
    assert s == s[..a] + [s[a]] + s[a + 1..];
    assert s[a] !in s[..a] && s[a] !in s[a + 1..];
  }

  // Collect, sort, keep the best and stamp them.
  method RankTable(table: Table, topK: nat, ghost occs: seq<Occurrence>, ghost restamp: bool)
    returns (out: seq<K2KResult>)
    requires Tabulates(table, occs, restamp)
    ensures exists ranked :: IsRanking(ranked, occs, restamp) && out == Top(ranked, topK)
  {
    forall id | id in table ensures table[id].1.articleId == id { ChosenHasId(occs, id, restamp); }
    var items := Drain(table);
    SortedDrainIsRanking(items, table, occs, restamp);
    out := Top(SortDown(items), topK);
  }

  method MergeSignals(signals: seq<Signal>, topK: nat, k: real) returns (out: seq<K2KResult>)
    requires Divisible(k)
    ensures exists ranked :: IsRanking(ranked, Occurrences(signals, k), false) && out == Top(ranked, topK)
  {
    var table: Table := map[];
    for i := 0 to |signals|
      invariant Tabulates(table, Occurrences(signals[..i], k), false)
    {
      var signal := signals[i];
      ghost var before := Occurrences(signals[..i], k);
      assert before + Positions(signal, k, 0) == before;
      for rank := 0 to |signal.results|
        invariant Tabulates(table, before + Positions(signal, k, rank), false)
      {
        var occ := Occurrence(signal.weight / Denominator(k, rank), rank, signal.results[rank]);
        UpdateTabulates(table, before + Positions(signal, k, rank), occ, false);
        assert before + Positions(signal, k, rank + 1) == before + Positions(signal, k, rank) + [occ];
        table := Update(table, occ, false);
      }
      assert signals[..i + 1][..i] == signals[..i];
    }
    assert signals[..|signals|] == signals;
    out := RankTable(table, topK, Occurrences(signals, k), false);
  }
}
