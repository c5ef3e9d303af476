/** How good the stored strengths are as Jaccard similarities: at the moment a relation is written,
    and over every run of extractions. */
module EntityRuns {
  import opened Outcomes
  import opened Sets
  import opened EntityGraph

  // ---- at the moment of writing ----

  ghost predicate NoDuplicates(ids: seq<string>) { forall i, j :: 0 <= i < j < |ids| ==> ids[i] != ids[j] }

  function Jaccard(a: set<string>, b: set<string>): real
    requires a + b != {}
  {
    |a * b| as real / |a + b| as real
  }

  lemma {:induction false} HitsOfDistinct(ids: seq<string>, s: set<string>)
    requires NoDuplicates(ids)
    ensures Hits(ids, s) == |AsSet(ids) * s| && |AsSet(ids)| == |ids|
  {
    if ids == [] {
      assert AsSet(ids) == {} && AsSet(ids) * s == {};
    } else {
      var init, last := ids[..|ids| - 1], ids[|ids| - 1];
      HitsOfDistinct(init, s);
      AsSetSnoc(ids);
      assert last !in AsSet(init);
      OneMoreIn(AsSet(init), s, last);
    }
  }

  lemma {:induction false} RatioIsShare(part: nat, whole: nat)
    requires 0 < part <= whole
    ensures 0.0 < part as real / whole as real <= 1.0
    ensures part as real / whole as real == 1.0 <==> part == whole
  {
    var q := part as real / whole as real;
    assert q * whole as real == part as real;
  }

  // For distinct entity ids the stored strength is |A n B| / |A u B|, lies in (0, 1], and is 1
  // exactly when the two articles have the same entities.
  lemma {:induction false} StrengthIsJaccard(ids: seq<string>, b: set<string>)
    requires NoDuplicates(ids) && Hits(ids, b) > 0
    ensures AsSet(ids) + b != {}
    ensures Strength(|ids|, |b|, Hits(ids, b)) == Jaccard(AsSet(ids), b)
    ensures 0.0 < Strength(|ids|, |b|, Hits(ids, b)) <= 1.0
    ensures Strength(|ids|, |b|, Hits(ids, b)) == 1.0 <==> AsSet(ids) == b
  {
    var a := AsSet(ids);
    HitsOfDistinct(ids, b);
    SizesOfUnion(a, b);
    SubsetSize(a * b, a + b);
    assert |a + b| > 0;
    RatioIsShare(|a * b|, |a + b|);
    if |a * b| == |a + b| {
      assert a <= a + b && b <= a + b && a * b == a + b;
    }
    if a == b {
      assert a * b == a + b;
    }
  }

  lemma {:induction false} DuplicatesShrink(ids: seq<string>)
    ensures |AsSet(ids)| <= |ids|
    ensures |AsSet(ids)| == |ids| ==> NoDuplicates(ids)
  {
    if ids == [] {
      assert AsSet(ids) == {};
    } else {
      var init, last := ids[..|ids| - 1], ids[|ids| - 1];
      DuplicatesShrink(init);
      AsSetSnoc(ids);
      assert last in init ==> AsSet(ids) == AsSet(init);
    }
  }

  lemma {:induction false} AllHit(ids: seq<string>, s: set<string>)
    requires forall x :: x in ids ==> x in s
    ensures Hits(ids, s) == |ids|
  {
    if ids != [] {
      AllHit(ids[..|ids| - 1], s);
    }
  }

  ghost predicate IsJaccard(strength: real, a: set<string>, b: set<string>) {
    a + b != {} && strength == Jaccard(a, b)
  }

  // The strength stored for an article that mentions b is its similarity to one that mentions a.
  ghost predicate AgreesWithJaccard(ids: seq<string>, a: set<string>, b: set<string>) {
    IsJaccard(Strength(|ids|, |b|, Hits(ids, b)), a, b)
  }

  lemma {:induction false} JaccardOfPart(part: set<string>, whole: set<string>)
    requires part <= whole && part != {}
    ensures whole + part != {} && Jaccard(whole, part) <= 1.0
    ensures Jaccard(whole, part) == 1.0 <==> part == whole
  {
    assert whole * part == part && whole + part == whole;
    SubsetSize(part, whole);
    RatioIsShare(|part|, |whole|);
  }

  // An article that mentions just what is listed gets strength 1, or more if there are repeats.
  lemma {:induction false} StrengthOfListed(ids: seq<string>)
    requires ids != []
    ensures Hits(ids, AsSet(ids)) == |ids|
    ensures Strength(|ids|, |AsSet(ids)|, |ids|) >= 1.0
    ensures Strength(|ids|, |AsSet(ids)|, |ids|) == 1.0 ==> NoDuplicates(ids)
  {
    AllHit(ids, AsSet(ids));
    DuplicatesShrink(ids);
    assert ids[0] in AsSet(ids);
    AtLeastOne(|ids|, |AsSet(ids)|);
  }

  lemma {:induction false} AtLeastOne(n: nat, k: nat)
    requires 0 < k <= n
    ensures Strength(n, k, n) >= 1.0 && (Strength(n, k, n) == 1.0 ==> k == n)
  {
    var q := n as real / k as real;
    assert q * k as real == n as real;
  }

  // The exact condition at the moment of writing.  The listed entities are stored before the
  // strengths are computed, so the article then mentions `stored` and the list together.  The
  // strength is its Jaccard similarity to every possible other article iff no entity is listed twice
  // and none was stored but not listed.  Otherwise an article that mentions just what is listed gets
  // too high a strength.
  lemma {:induction false} JaccardIffListIsComplete(ids: seq<string>, stored: set<string>)
    requires ids != []
    ensures (forall b: set<string> :: Hits(ids, b) > 0 ==> AgreesWithJaccard(ids, stored + AsSet(ids), b)) <==>
            NoDuplicates(ids) && stored <= AsSet(ids)
    ensures !(NoDuplicates(ids) && stored <= AsSet(ids)) ==>
      Strength(|ids|, |AsSet(ids)|, Hits(ids, AsSet(ids))) > Jaccard(stored + AsSet(ids), AsSet(ids))
  {
    var listed := AsSet(ids);
    var a := stored + listed;
    if NoDuplicates(ids) && stored <= listed {
      assert a == listed;
      forall b: set<string> | Hits(ids, b) > 0 ensures AgreesWithJaccard(ids, a, b) {
        StrengthIsJaccard(ids, b);
      }
    } else {
      assert ids[0] in listed;
      StrengthOfListed(ids);
      JaccardOfPart(listed, a);
      assert !AgreesWithJaccard(ids, a, listed);
    }
  }

  // A list without repeats that covers what the article mentioned before writes similarities of the
  // sets stored then.
  lemma {:induction false} ProcessedIsJaccard(g: Graph, article: string, xs: seq<Extracted>, b: string)
    requires NoDuplicates(Ids(xs)) && Mentioned(g.mentions, article) <= AsSet(Ids(xs))
    requires Writes(article, Ids(xs), Processed(g, article, xs).mentions, (article, b))
    ensures var after := Processed(g, article, xs);
      var mine, theirs := Mentioned(after.mentions, article), Mentioned(after.mentions, b);
      && (article, b) in after.related
      && var strength := after.related[(article, b)].strength;
        && IsJaccard(strength, mine, theirs) && 0.0 < strength <= 1.0 && (strength == 1.0 <==> mine == theirs)
  {
    ProcessedRelations(g, article, xs, (article, b));
    ProcessedMentions(g, article, xs, article);
    assert Mentioned(Processed(g, article, xs).mentions, article) == AsSet(Ids(xs));
    StrengthIsJaccard(Ids(xs), Mentioned(Processed(g, article, xs).mentions, b));
  }

  // Stored edges that a new extraction does not name stay, and count for the other article only:
  // A mentioned e1 and e2 and B e1; extracting just e1 from A again stores strength 1 for B.
  lemma {:induction false} StaleEdgeRaisesStrength()
    ensures var before := [Mention("A", "e1", "", 1.0), Mention("A", "e2", "", 1.0), Mention("B", "e1", "", 1.0)];
      Mentioned(before, "A") == {"e1", "e2"} && Mentioned(before, "B") == {"e1"}
    ensures Ids([Extracted("e1", None, 1.0)]) == ["e1"] && {"e1", "e2"} + AsSet(["e1"]) == {"e1", "e2"}
    ensures RelationTo(["e1"], {"e1"}) == Relation(1, 1.0) && Jaccard({"e1", "e2"}, {"e1"}) == 0.5
  {
    var before := [Mention("A", "e1", "", 1.0), Mention("A", "e2", "", 1.0), Mention("B", "e1", "", 1.0)];
    assert before[0].entity in Mentioned(before, "A") && before[1].entity in Mentioned(before, "A");
    assert before[2].entity in Mentioned(before, "B");
    StaleStrength();
  }

  lemma {:induction false} StaleStrength()
    ensures RelationTo(["e1"], {"e1"}) == Relation(1, 1.0) && Jaccard({"e1", "e2"}, {"e1"}) == 0.5
  {
    assert ["e1"][..0] == [];
    assert {"e1", "e2"} * {"e1"} == {"e1"} && {"e1", "e2"} + {"e1"} == {"e1", "e2"};
  }

  // ---- over every run of extractions ----

  datatype Extraction = Extraction(article: string, found: seq<Extracted>)

  ghost predicate IsRun(gs: seq<Graph>, steps: seq<Extraction>) {
    && |gs| == |steps| + 1 && gs[0] == Graph(map[], [], map[])
    && forall i :: 0 <= i < |steps| ==> gs[i + 1] == Processed(gs[i], steps[i].article, steps[i].found)
  }

  function EntitiesOf(g: Graph, article: string): set<string> { Mentioned(g.mentions, article) }

  // Step i writes the pair's relation.
  predicate WritesAt(gs: seq<Graph>, steps: seq<Extraction>, i: nat, p: (string, string))
    requires i < |steps| < |gs|
  {
    Writes(steps[i].article, Ids(steps[i].found), gs[i + 1].mentions, p)
  }

  // Step i is the last before state n to write it.
  ghost predicate LastWritten(gs: seq<Graph>, steps: seq<Extraction>, i: nat, n: nat, p: (string, string))
    requires n <= |steps| < |gs|
  {
    i < n && WritesAt(gs, steps, i, p) && forall j :: i < j < n ==> !WritesAt(gs, steps, j, p)
  }

  function WrittenAt(gs: seq<Graph>, steps: seq<Extraction>, i: nat, p: (string, string)): Relation
    requires i < |steps| < |gs|
  {
    RelationTo(Ids(steps[i].found), EntitiesOf(gs[i + 1], p.1))
  }

  // What one step does to a pair's relation, and to the entities of an article.
  ghost predicate RelatesAt(gs: seq<Graph>, steps: seq<Extraction>, k: nat, p: (string, string))
    requires k < |steps| < |gs|
  {
    && (p in gs[k + 1].related <==> p in gs[k].related || WritesAt(gs, steps, k, p))
    && (p in gs[k + 1].related ==>
          gs[k + 1].related[p] == if WritesAt(gs, steps, k, p) then WrittenAt(gs, steps, k, p) else gs[k].related[p])
  }

  ghost predicate GrowsAt(gs: seq<Graph>, steps: seq<Extraction>, k: nat, x: string)
    requires k < |steps| < |gs|
  {
    EntitiesOf(gs[k + 1], x) == EntitiesOf(gs[k], x) + if x == steps[k].article then AsSet(Ids(steps[k].found)) else {}
  }

  ghost predicate IsRecord(gs: seq<Graph>, steps: seq<Extraction>) {
    && |gs| == |steps| + 1 && gs[0] == Graph(map[], [], map[])
    && (forall k: nat, p :: k < |steps| ==> RelatesAt(gs, steps, k, p))
    && (forall k: nat, x :: k < |steps| ==> GrowsAt(gs, steps, k, x))
  }

  lemma {:induction false} StepRecords(gs: seq<Graph>, steps: seq<Extraction>, k: nat, p: (string, string), x: string)
    requires IsRun(gs, steps) && k < |steps|
    ensures RelatesAt(gs, steps, k, p) && GrowsAt(gs, steps, k, x)
  {
    ProcessedRelations(gs[k], steps[k].article, steps[k].found, p);
    ProcessedMentions(gs[k], steps[k].article, steps[k].found, x);
  }

  lemma {:induction false} RunIsRecord(gs: seq<Graph>, steps: seq<Extraction>)
    requires IsRun(gs, steps)
    ensures IsRecord(gs, steps)
  {
    forall k: nat, p | k < |steps| ensures RelatesAt(gs, steps, k, p) {
      StepRecords(gs, steps, k, p, "");
    }
    forall k: nat, x | k < |steps| ensures GrowsAt(gs, steps, k, x) {
      StepRecords(gs, steps, k, ("", ""), x);
    }
  }

  // Every relation is as its last writer left it, computed from the list of that step and from
  // what the other article mentioned then.
  lemma {:induction false} RelationIsLastWritten(gs: seq<Graph>, steps: seq<Extraction>, i: nat, n: nat,
                                                 p: (string, string))
    requires IsRecord(gs, steps) && n <= |steps| && LastWritten(gs, steps, i, n, p)
    ensures p in gs[n].related && gs[n].related[p] == WrittenAt(gs, steps, i, p)
    decreases n
  {
    assert RelatesAt(gs, steps, n - 1, p);
    if i < n - 1 {
      RelationIsLastWritten(gs, steps, i, n - 1, p);
    }
  }

  // No relation is there that was not written.
  lemma {:induction false} EveryRelationWasWritten(gs: seq<Graph>, steps: seq<Extraction>, n: nat, p: (string, string))
    returns (i: nat)
    requires IsRecord(gs, steps) && n <= |steps| && p in gs[n].related
    ensures LastWritten(gs, steps, i, n, p)
  {
    assert RelatesAt(gs, steps, n - 1, p);
    if WritesAt(gs, steps, n - 1, p) {
      i := n - 1;
    } else {
      i := EveryRelationWasWritten(gs, steps, n - 1, p);
    }
  }

  lemma {:induction false} EntitiesGrow(gs: seq<Graph>, steps: seq<Extraction>, m: nat, n: nat, article: string)
    requires IsRecord(gs, steps) && m <= n <= |steps|
    ensures EntitiesOf(gs[m], article) <= EntitiesOf(gs[n], article)
    decreases n
  {
    if m < n {
      EntitiesGrow(gs, steps, m, n - 1, article);
      assert GrowsAt(gs, steps, n - 1, article);
    }
  }

  // s / t equals i / u exactly if what i has more than s is to what u has more than t as s is to t.
  lemma {:induction false} SameRatioIff(s: nat, t: nat, i: nat, u: nat)
    requires t > 0 && u > 0
    ensures s as real / t as real == i as real / u as real <==> (i - s) * t == (u - t) * s
  {
    var p, q := s as real / t as real, i as real / u as real;
    assert p * t as real == s as real && q * u as real == i as real;
    assert p == q ==> s as real * u as real == i as real * t as real;
    assert s as real * u as real == i as real * t as real ==> p == q by {
      if s as real * u as real == i as real * t as real {
        assert (p - q) * (t as real * u as real) == 0.0;
        assert t as real * u as real > 0.0;
      }
    }
    assert s * u == i * t <==> s as real * u as real == i as real * t as real;
  }

  // What the strength of a relation to an article with the entities b was divided by.
  function Whole(ids: seq<string>, b: set<string>): int { |ids| + |b| - Hits(ids, b) }

  lemma {:induction false} WrittenIsRatio(ids: seq<string>, b: set<string>)
    requires Hits(ids, b) > 0
    ensures b != {} && Whole(ids, b) > 0
    ensures RelationTo(ids, b).strength == RelationTo(ids, b).shared as real / Whole(ids, b) as real
  {
    HitsAtMostAll(ids, b);
    HitsSomething(ids, b);
    assert |b| > 0;
  }

  // The list of step i has no repeat and covers what the article mentioned before.
  ghost predicate IsComplete(gs: seq<Graph>, steps: seq<Extraction>, i: nat)
    requires i < |steps| < |gs|
  {
    NoDuplicates(Ids(steps[i].found)) && EntitiesOf(gs[i], steps[i].article) <= AsSet(Ids(steps[i].found))
  }

  // The relations a complete list writes are the similarities of the sets stored then.
  lemma {:induction false} CompleteCountsSets(gs: seq<Graph>, steps: seq<Extraction>, i: nat, p: (string, string))
    requires IsRecord(gs, steps) && i < |steps| && WritesAt(gs, steps, i, p) && IsComplete(gs, steps, i)
    ensures var ids, a, b := Ids(steps[i].found), EntitiesOf(gs[i + 1], p.0), EntitiesOf(gs[i + 1], p.1);
      && Hits(ids, b) == |a * b| && Whole(ids, b) == |a + b|
      && IsJaccard(WrittenAt(gs, steps, i, p).strength, a, b)
  {
    var ids, a, b := Ids(steps[i].found), EntitiesOf(gs[i + 1], p.0), EntitiesOf(gs[i + 1], p.1);
    assert GrowsAt(gs, steps, i, p.0);
    assert a == AsSet(ids);
    HitsOfDistinct(ids, b);
    SizesOfUnion(a, b);
    StrengthIsJaccard(ids, b);
  }

  lemma {:induction false} RatioIsJaccardIff(r: Relation, t: int, a: set<string>, b: set<string>)
    requires t > 0 && b != {} && r.strength == r.shared as real / t as real
    ensures IsJaccard(r.strength, a, b) <==> (|a * b| - r.shared) * t == (|a + b| - t) * r.shared
  {
    var e :| e in b;
    assert e in a + b;
    SameRatioIff(r.shared, t, |a * b|, |a + b|);
  }

  lemma {:induction false} RecordedStrength(gs: seq<Graph>, steps: seq<Extraction>, i: nat, n: nat, p: (string, string))
    requires IsRecord(gs, steps) && n <= |steps| && LastWritten(gs, steps, i, n, p)
    ensures p in gs[n].related && gs[n].related[p] == WrittenAt(gs, steps, i, p)
    ensures var b := EntitiesOf(gs[i + 1], p.1); var t := Whole(Ids(steps[i].found), b);
      && t > 0 && EntitiesOf(gs[n], p.1) != {}
      && gs[n].related[p].strength == gs[n].related[p].shared as real / t as real
  {
    RelationIsLastWritten(gs, steps, i, n, p);
    WrittenIsRatio(Ids(steps[i].found), EntitiesOf(gs[i + 1], p.1));
    EntitiesGrow(gs, steps, i + 1, n, p.1);
  }

  // The exact condition for a stored relation, in every state of every run.  Let s / t be what its
  // last writer computed; for a complete list these are the sizes of the intersection and of the
  // union of the two entity sets at that moment.  Later extractions of either article let the sets
  // grow without rewriting the relation.  It is the Jaccard similarity of the sets as they are now
  // iff what the intersection has gained is to what the union has gained as s is to t.
  lemma {:induction false} StrengthStaysIff(gs: seq<Graph>, steps: seq<Extraction>, i: nat, n: nat, p: (string, string))
    requires IsRun(gs, steps) && n <= |steps| && LastWritten(gs, steps, i, n, p)
    ensures p in gs[n].related
    ensures var s, t := gs[n].related[p].shared, Whole(Ids(steps[i].found), EntitiesOf(gs[i + 1], p.1));
      var a, b := EntitiesOf(gs[n], p.0), EntitiesOf(gs[n], p.1);
      IsJaccard(gs[n].related[p].strength, a, b) <==> (|a * b| - s) * t == (|a + b| - t) * s
    ensures IsComplete(gs, steps, i) ==>
      var a, b := EntitiesOf(gs[i + 1], p.0), EntitiesOf(gs[i + 1], p.1);
      gs[n].related[p].shared == |a * b| && Whole(Ids(steps[i].found), b) == |a + b|
  {
    RunIsRecord(gs, steps);
    RecordedStrength(gs, steps, i, n, p);
    var t := Whole(Ids(steps[i].found), EntitiesOf(gs[i + 1], p.1));
    RatioIsJaccardIff(gs[n].related[p], t, EntitiesOf(gs[n], p.0), EntitiesOf(gs[n], p.1));
    if IsComplete(gs, steps, i) {
      CompleteCountsSets(gs, steps, i, p);
    }
  }

  // ---- one more extraction ----

  // Growing one of two sets by n keeps their similarity iff it gains in the same proportion.
  lemma {:induction false} GrowthKeepsRatioIff(a: set<string>, b: set<string>, more: set<string>)
    requires a + b != {}
    ensures a + (b + more) != {}
    ensures Jaccard(a, b + more) == Jaccard(a, b) <==>
            |(more - b) * a| * |a + b| == |(more - b) - a| * |a * b|
  {
    var n := more - b;
    assert b + more == b + n;
    assert a * (b + n) == a * b + n * a && (a * b) * (n * a) == {};
    assert a + (b + n) == (a + b) + (n - a) && (a + b) * (n - a) == {};
    SizesOfUnion(a * b, n * a);
    SizesOfUnion(a + b, n - a);
    assert |a + b| > 0 && |a + (b + n)| > 0;
    SameRatioIff(|a * b|, |a + b|, |a * (b + n)|, |a + (b + n)|);
  }

  lemma {:induction false} JaccardIsSymmetric(a: set<string>, b: set<string>)
    requires a + b != {}
    ensures b + a != {} && Jaccard(a, b) == Jaccard(b, a)
  {
    assert a * b == b * a && a + b == b + a;
  }

  // What a caller can check before an extraction of the other article: a strength that is right now
  // stays right iff the new entities, those the article shares against those it does not, come in
  // the proportion of the intersection to the union.
  lemma {:induction false} OtherExtractionKeepsIff(g: Graph, xs: seq<Extracted>, p: (string, string))
    requires p.0 != p.1 && p in g.related && IsJaccard(g.related[p].strength, EntitiesOf(g, p.0), EntitiesOf(g, p.1))
    ensures var after, a, b := Processed(g, p.1, xs), EntitiesOf(g, p.0), EntitiesOf(g, p.1);
      var news := AsSet(Ids(xs)) - b;
      && p in after.related
      && (IsJaccard(after.related[p].strength, EntitiesOf(after, p.0), EntitiesOf(after, p.1)) <==>
          |news * a| * |a + b| == |news - a| * |a * b|)
  {
    ProcessedRelations(g, p.1, xs, p);
    ProcessedMentions(g, p.1, xs, p.0);
    ProcessedMentions(g, p.1, xs, p.1);
    GrowthKeepsRatioIff(EntitiesOf(g, p.0), EntitiesOf(g, p.1), AsSet(Ids(xs)));
  }

  // An extraction of the article itself rewrites the relation if it hits one of the other's
  // entities.  If it does not, the strength stays right iff nothing new is listed, or the two
  // articles share nothing.
  lemma {:induction false} OwnExtractionKeepsIff(g: Graph, xs: seq<Extracted>, p: (string, string))
    requires p.0 != p.1 && p in g.related && IsJaccard(g.related[p].strength, EntitiesOf(g, p.0), EntitiesOf(g, p.1))
    requires Hits(Ids(xs), EntitiesOf(g, p.1)) == 0
    ensures var after, a, b := Processed(g, p.0, xs), EntitiesOf(g, p.0), EntitiesOf(g, p.1);
      && p in after.related
      && (IsJaccard(after.related[p].strength, EntitiesOf(after, p.0), EntitiesOf(after, p.1)) <==>
          AsSet(Ids(xs)) <= a || a * b == {})
  {
    var a, b, listed := EntitiesOf(g, p.0), EntitiesOf(g, p.1), AsSet(Ids(xs));
    ProcessedRelations(g, p.0, xs, p);
    ProcessedMentions(g, p.0, xs, p.0);
    ProcessedMentions(g, p.0, xs, p.1);
    NoHitNoShare(Ids(xs), b);
    UnsharedGrowth(a, b, listed);
  }

  lemma {:induction false} UnsharedGrowth(a: set<string>, b: set<string>, listed: set<string>)
    requires a + b != {} && listed * b == {}
    ensures a + listed + b != {}
    ensures Jaccard(a + listed, b) == Jaccard(a, b) <==> listed <= a || a * b == {}
  {
    JaccardIsSymmetric(b, a);
    GrowthKeepsRatioIff(b, a, listed);
    JaccardIsSymmetric(b, a + listed);
    NothingSharedGained(a, b, listed);
  }

  lemma {:induction false} NoHitNoShare(ids: seq<string>, s: set<string>)
    requires Hits(ids, s) == 0
    ensures AsSet(ids) * s == {}
  {
    if ids != [] {
      NoHitNoShare(ids[..|ids| - 1], s);
      AsSetSnoc(ids);
    }
  }

  lemma {:induction false} NothingSharedGained(a: set<string>, b: set<string>, listed: set<string>)
    requires listed * b == {}
    ensures |(listed - a) * b| * |b + a| == |(listed - a) - b| * |b * a| <==> listed <= a || a * b == {}
  {
    var n := listed - a;
    assert n * b == {} && n - b == n && b * a == a * b;
    assert forall x :: x in listed ==> x in a || x in n;
    assert |n| * |a * b| == 0 <==> |n| == 0 || |a * b| == 0;
  }

  // ---- a run in which a strength goes stale ----

  lemma {:induction false} RunOf(steps: seq<Extraction>) returns (gs: seq<Graph>)
    ensures IsRun(gs, steps)
  {
    if steps == [] {
      gs := [Graph(map[], [], map[])];
    } else {
      var n := |steps| - 1;
      var init := RunOf(steps[..n]);
      gs := init + [Processed(init[n], steps[n].article, steps[n].found)];
      forall i | 0 <= i < |steps| ensures gs[i + 1] == Processed(gs[i], steps[i].article, steps[i].found) {
        assert i < n ==> steps[..n][i] == steps[i];
      }
    }
  }

  function Just(id: string): Extracted { Extracted(id, None, 1.0) }

  // Three complete lists in a row: B mentions e1, then A does, then B mentions e2 as well.
  function Grown(): seq<Extraction> {
    [Extraction("B", [Just("e1")]), Extraction("A", [Just("e1")]), Extraction("B", [Just("e1"), Just("e2")])]
  }

  lemma {:induction false} EntitiesOfGrown(gs: seq<Graph>, x: string)
    requires IsRecord(gs, Grown())
    ensures EntitiesOf(gs[0], x) == {}
    ensures EntitiesOf(gs[1], x) == if x == "B" then {"e1"} else {}
    ensures EntitiesOf(gs[2], x) == if x == "B" || x == "A" then {"e1"} else {}
    ensures EntitiesOf(gs[3], x) == if x == "B" then {"e1", "e2"} else if x == "A" then {"e1"} else {}
  {
    var steps := Grown();
    assert Ids(steps[0].found) == ["e1"] && Ids(steps[1].found) == ["e1"] && Ids(steps[2].found) == ["e1", "e2"];
    assert GrowsAt(gs, steps, 0, x) && GrowsAt(gs, steps, 1, x) && GrowsAt(gs, steps, 2, x);
  }

  lemma {:induction false} GrownIsComplete(gs: seq<Graph>)
    requires IsRecord(gs, Grown())
    ensures forall i :: 0 <= i < 3 ==> IsComplete(gs, Grown(), i)
  {
    EntitiesOfGrown(gs, "A");
    EntitiesOfGrown(gs, "B");
    var steps := Grown();
    assert Ids(steps[0].found) == ["e1"] && Ids(steps[1].found) == ["e1"] && Ids(steps[2].found) == ["e1", "e2"];
  }

  lemma {:induction false} GrownWritesOnce(gs: seq<Graph>)
    requires IsRecord(gs, Grown())
    ensures LastWritten(gs, Grown(), 1, 3, ("A", "B"))
    ensures WrittenAt(gs, Grown(), 1, ("A", "B")) == Relation(1, 1.0)
  {
    EntitiesOfGrown(gs, "B");
    assert Ids(Grown()[1].found) == ["e1"];
    StaleStrength();
  }

  // The relation of A to B is not rewritten by B's second extraction and keeps strength 1, although
  // every list is complete and the similarity is one half in the end.
  lemma {:induction false} CompleteListsGoStale() returns (gs: seq<Graph>)
    ensures IsRun(gs, Grown()) && forall i :: 0 <= i < 3 ==> IsComplete(gs, Grown(), i)
    ensures ("A", "B") in gs[3].related && gs[3].related[("A", "B")] == Relation(1, 1.0)
    ensures IsJaccard(0.5, EntitiesOf(gs[3], "A"), EntitiesOf(gs[3], "B"))
  {
    gs := RunOf(Grown());
    RunIsRecord(gs, Grown());
    GrownIsComplete(gs);
    GrownWritesOnce(gs);
    RelationIsLastWritten(gs, Grown(), 1, 3, ("A", "B"));
    EntitiesOfGrown(gs, "A");
    EntitiesOfGrown(gs, "B");
    HalfOfGrown();
  }

  lemma {:induction false} HalfOfGrown()
    ensures IsJaccard(0.5, {"e1"}, {"e1", "e2"})
  {
    assert {"e1"} * {"e1", "e2"} == {"e1"} && {"e1"} + {"e1", "e2"} == {"e1", "e2"};
  }
}
