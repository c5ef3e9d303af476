/** The mention graph between articles and entities: edge creation and the two counting queries of
    src/store/mod.rs, and the processing of extracted entities, with the Jaccard strengths, of
    src/knowledge/articles.rs. */
module EntityGraph {
  import opened Outcomes
  import opened StableSort

  datatype Mention = Mention(article: string, entity: string, excerpt: string, confidence: real)

  predicate Joins(m: Mention, article: string, entity: string) { m.article == article && m.entity == entity }

  // At most one edge per pair of article and entity.
  ghost predicate UniqueEdges(ms: seq<Mention>) {
    forall i, j :: 0 <= i < j < |ms| ==> !Joins(ms[i], ms[j].article, ms[j].entity)
  }

  function Mentioners(ms: seq<Mention>, entity: string): set<string> {
    set m | m in ms && m.entity == entity :: m.article
  }

  function Mentioned(ms: seq<Mention>, article: string): set<string> {
    set m | m in ms && m.article == article :: m.entity
  }

  function WithoutPair(ms: seq<Mention>, article: string, entity: string): seq<Mention> {
    if ms == [] then []
    else
      var last := ms[|ms| - 1];
      WithoutPair(ms[..|ms| - 1], article, entity) + if Joins(last, article, entity) then [] else [last]
  }

  lemma {:induction false} WithoutPairKeepsOthers(ms: seq<Mention>, article: string, entity: string)
    ensures forall m :: m in WithoutPair(ms, article, entity) <==> m in ms && !Joins(m, article, entity)
  {
    if ms != [] {
      var init, last := ms[..|ms| - 1], ms[|ms| - 1];
      assert ms == init + [last];
      WithoutPairKeepsOthers(init, article, entity);
    }
  }

  lemma {:induction false} AppendUnique(ms: seq<Mention>, m: Mention)
    requires UniqueEdges(ms) && forall x :: x in ms ==> !Joins(x, m.article, m.entity)
    ensures UniqueEdges(ms + [m])
  {
    forall i, j | 0 <= i < j < |ms + [m]| ensures !Joins((ms + [m])[i], (ms + [m])[j].article, (ms + [m])[j].entity) {
      assert ms[i] in ms;
    }
  }

  lemma {:induction false} LastIsNew(init: seq<Mention>, last: Mention)
    requires UniqueEdges(init + [last])
    ensures UniqueEdges(init)
    ensures forall x :: x in init ==> !Joins(x, last.article, last.entity)
  {
    var ms := init + [last];
    forall x | x in init ensures !Joins(x, last.article, last.entity) {
      var i :| 0 <= i < |init| && init[i] == x;
      assert !Joins(ms[i], ms[|init|].article, ms[|init|].entity);
    }
    forall i, j | 0 <= i < j < |init| ensures !Joins(init[i], init[j].article, init[j].entity) {
      assert !Joins(ms[i], ms[j].article, ms[j].entity);
    }
  }

  lemma {:induction false} WithoutPairStaysUnique(ms: seq<Mention>, article: string, entity: string)
    requires UniqueEdges(ms)
    ensures UniqueEdges(WithoutPair(ms, article, entity))
  {
    if ms != [] {
      assert ms == ms[..|ms| - 1] + [ms[|ms| - 1]];
      LastIsNew(ms[..|ms| - 1], ms[|ms| - 1]);
      WithoutPairStaysUnique(ms[..|ms| - 1], article, entity);
      WithoutPairKeepsOthers(ms[..|ms| - 1], article, entity);
      if !Joins(ms[|ms| - 1], article, entity) {
        AppendUnique(WithoutPair(ms[..|ms| - 1], article, entity), ms[|ms| - 1]);
      }
    }
  }

  // How many of the listed ids are in s, repeats counted.
  function Hits(ids: seq<string>, s: set<string>): nat {
    if ids == [] then 0 else Hits(ids[..|ids| - 1], s) + if ids[|ids| - 1] in s then 1 else 0
  }

  // shared / (mine + theirs - shared), or 0 when there is nothing to divide by.
  function Strength(mine: nat, theirs: nat, shared: nat): real {
    var denominator := mine as real + theirs as real - shared as real;
    if denominator > 0.0 then shared as real / denominator else 0.0
  }

  datatype Relation = Relation(shared: nat, strength: real)

  // The relation to an article that mentions the entities b.
  function RelationTo(ids: seq<string>, b: set<string>): Relation {
    Relation(Hits(ids, b), Strength(|ids|, |b|, Hits(ids, b)))
  }

  // What the model found in a text; `id` is what its type and name are slugged to.
  datatype Extracted = Extracted(id: string, excerpt: Option<string>, confidence: real)

  function Ids(xs: seq<Extracted>): seq<string> { seq(|xs|, i requires 0 <= i < |xs| => xs[i].id) }

  function EdgeFor(article: string, x: Extracted): Mention {
    Mention(article, x.id, if x.excerpt.Some? then x.excerpt.value else "", x.confidence)
  }

  // The edge the list leaves for an entity: that of its last mention.
  function LastEdge(article: string, xs: seq<Extracted>, entity: string): Option<Mention> {
    if xs == [] then None
    else if xs[|xs| - 1].id == entity then Some(EdgeFor(article, xs[|xs| - 1]))
    else LastEdge(article, xs[..|xs| - 1], entity)
  }

  function Times(ids: seq<string>, e: string): nat {
    if ids == [] then 0 else Times(ids[..|ids| - 1], e) + if ids[|ids| - 1] == e then 1 else 0
  }

  function AsSet(ids: seq<string>): set<string> { set x | x in ids }

  lemma {:induction false} AsSetSnoc(ids: seq<string>)
    requires ids != []
    ensures AsSet(ids) == AsSet(ids[..|ids| - 1]) + {ids[|ids| - 1]}
  {
    assert ids == ids[..|ids| - 1] + [ids[|ids| - 1]];
  }

  lemma {:induction false} IdsSnoc(xs: seq<Extracted>, n: nat)
    requires n < |xs|
    ensures Ids(xs[..n + 1]) == Ids(xs[..n]) + [xs[n].id] && AsSet(Ids(xs[..n + 1])) == AsSet(Ids(xs[..n])) + {xs[n].id}
    ensures Times(Ids(xs[..n + 1]), xs[n].id) == Times(Ids(xs[..n]), xs[n].id) + 1
    ensures forall e :: e != xs[n].id ==> Times(Ids(xs[..n + 1]), e) == Times(Ids(xs[..n]), e)
  {
    var before, after := Ids(xs[..n]), Ids(xs[..n + 1]);
    assert after == before + [xs[n].id];
    assert after[..|after| - 1] == before;
    AsSetSnoc(after);
  }

  /** What extraction changes: the entities with their mention counts, the edges, and the relations
      between articles. */
  datatype Graph = Graph(entities: map<string, nat>, mentions: seq<Mention>, related: map<(string, string), Relation>)

  function Counted(counts: map<string, nat>, e: string): map<string, nat> {
    counts[e := if e in counts then counts[e] + 1 else 1]
  }

  function WithEdge(ms: seq<Mention>, m: Mention): seq<Mention> {
    WithoutPair(ms, m.article, m.entity) + [m]
  }

  // After the loop over the list: every entity stored or counted once more, its edge rewritten.
  function Stored(g: Graph, article: string, xs: seq<Extracted>): Graph {
    if xs == [] then g
    else
      var before, x := Stored(g, article, xs[..|xs| - 1]), xs[|xs| - 1];
      before.(entities := Counted(before.entities, x.id), mentions := WithEdge(before.mentions, EdgeFor(article, x)))
  }

  // The pairs whose relation is written: the article with every other that mentions a listed entity.
  predicate Writes(article: string, ids: seq<string>, ms: seq<Mention>, p: (string, string)) {
    p.0 == article && p.1 != article && Hits(ids, Mentioned(ms, p.1)) > 0
  }

  function WrittenPairs(article: string, ids: seq<string>, ms: seq<Mention>): set<(string, string)> {
    set m | m in ms && Writes(article, ids, ms, (article, m.article)) :: (article, m.article)
  }

  function RelatedAfter(related: map<(string, string), Relation>, article: string, ids: seq<string>,
                        ms: seq<Mention>): map<(string, string), Relation> {
    map p | p in related.Keys + WrittenPairs(article, ids, ms) ::
      if Writes(article, ids, ms, p) then RelationTo(ids, Mentioned(ms, p.1)) else related[p]
  }

  // The whole of `process_extracted_entities`.
  function Processed(g: Graph, article: string, xs: seq<Extracted>): Graph {
    if xs == [] then g
    else
      var stored := Stored(g, article, xs);
      stored.(related := RelatedAfter(stored.related, article, Ids(xs), stored.mentions))
  }

  class GraphStore {
    var articles: set<string>
    var entities: map<string, nat>  // with their mention counts
    var mentions: seq<Mention>
    var related: map<(string, string), Relation>

    // Edges are unique and join stored records.
    ghost predicate Valid()
      reads this
    {
      && UniqueEdges(mentions)
      && forall m :: m in mentions ==> m.article in articles && m.entity in entities
    }

    function Now(): Graph
      reads this
    {
      Graph(entities, mentions, related)
    }

    // `create_mentions_edge`: removes the pair's edge, if any, before adding the new one.
    method CreateMentionsEdge(article: string, entity: string, excerpt: string, confidence: real)
      requires Valid() && article in articles && entity in entities
      modifies this`mentions
      ensures Valid() && mentions == WithEdge(old(mentions), Mention(article, entity, excerpt, confidence))
      ensures forall m :: m in mentions <==>
                m == Mention(article, entity, excerpt, confidence) || (m in old(mentions) && !Joins(m, article, entity))
    {
      WithoutPairKeepsOthers(mentions, article, entity);
      WithoutPairStaysUnique(mentions, article, entity);
      var kept := WithoutPair(mentions, article, entity);
      AppendUnique(kept, Mention(article, entity, excerpt, confidence));
      mentions := kept + [Mention(article, entity, excerpt, confidence)];
    }

    // The loop of `process_extracted_entities`.
    method StoreExtracted(article: string, xs: seq<Extracted>)
      requires Valid() && article in articles
      modifies this`entities, this`mentions
      ensures Valid() && Now() == Stored(old(Now()), article, xs)
      ensures AreCounted(entities, old(entities), Ids(xs))
      ensures forall m :: m in mentions <==> Leaves(m, article, xs, old(mentions))
    {
      for i := 0 to |xs|
        invariant Valid() && Now() == Stored(old(Now()), article, xs[..i])
      {
        assert xs[..i + 1][..i] == xs[..i];
        entities := Counted(entities, xs[i].id);
        var excerpt := if xs[i].excerpt.Some? then xs[i].excerpt.value else "";
        CreateMentionsEdge(article, xs[i].id, excerpt, xs[i].confidence);
      }
      assert xs[..|xs|] == xs;
      StoredMeans(old(Now()), article, xs);
    }

    method ProcessExtracted(article: string, xs: seq<Extracted>)
      requires Valid() && article in articles
      modifies this`entities, this`mentions, this`related
      ensures Valid() && Now() == Processed(old(Now()), article, xs)
    {
      if xs == [] {
        return;
      }
      StoreExtracted(article, xs);
      ComputeRelated(article, Ids(xs));
    }

    // Counts, for every other article, the listed entities it mentions.
    method CountShared(article: string, entityIds: seq<string>) returns (counts: map<string, nat>)
      requires Valid()
      ensures forall a :: a in counts <==> a != article && Hits(entityIds, Mentioned(mentions, a)) > 0
      ensures forall a :: a in counts ==> counts[a] == Hits(entityIds, Mentioned(mentions, a))
    {
      counts := map[];
      for i := 0 to |entityIds|
        invariant forall a :: a in counts <==> a != article && Hits(entityIds[..i], Mentioned(mentions, a)) > 0
        invariant forall a :: a in counts ==> counts[a] == Hits(entityIds[..i], Mentioned(mentions, a))
      {
        assert entityIds[..i + 1][..i] == entityIds[..i];
        ghost var before := counts;
        var others := Mentioners(mentions, entityIds[i]);
        counts := AddAll(counts, others - {article});
        forall a ensures a in others <==> entityIds[i] in Mentioned(mentions, a) {
          MentionIsMutual(mentions, a, entityIds[i]);
        }
      }
      assert entityIds[..|entityIds|] == entityIds;
    }

    // `compute_related_to_edges`: rewrites the relation to every other article that shares a listed
    // entity, and no other.
    method ComputeRelated(article: string, entityIds: seq<string>)
      requires Valid()
      modifies this`related
      ensures related == RelatedAfter(old(related), article, entityIds, mentions)
    {
      var counts := CountShared(article, entityIds);
      var todo := counts.Keys;
      while todo != {}
        invariant todo <= counts.Keys
        invariant forall p :: p in related <==> p in old(related) || (p.0 == article && p.1 in counts.Keys - todo)
        invariant forall p :: p in related ==>
                    related[p] == if p.0 == article && p.1 in counts.Keys - todo
                                  then RelationTo(entityIds, Mentioned(mentions, p.1)) else old(related)[p]
        decreases todo
      {
        var other :| other in todo;
        var theirs := |Mentioned(mentions, other)|;
        related := related[(article, other) := Relation(counts[other], Strength(|entityIds|, theirs, counts[other]))];
        todo := todo - {other};
      }
      RelatedAfterMeans(old(related), article, entityIds, mentions);
    }

    // `list_co_mentioned_entities`: counts the edges of the entity's articles to other entities,
    // and lists those in descending order, ties in whatever order the map yields them.
    method CoMentions(entity: string) returns (out: seq<(real, string)>)
      requires Valid()
      ensures SortedDown(out)
      ensures multiset(out) == multiset(CoMentioned(mentions, entity))
    {
      var counts := CountEdges(entity, Mentioners(mentions, entity));
      forall f ensures EdgeCount(mentions, Mentioners(mentions, entity), f) == |Both(mentions, entity, f)| {
        CoMentionCount(mentions, entity, f);
      }
      var rows := DrainCounts(counts);
      CountsAreCoMentions(mentions, entity, counts);
      SortDownSorts(rows);
      out := SortDown(rows);
    }

    method DrainCounts(counts: map<string, nat>) returns (rows: seq<(real, string)>)
      ensures multiset(rows) == multiset(Rows(counts, counts.Keys))
    {
      var todo := counts.Keys;
      rows := [];
      while todo != {}
        invariant todo <= counts.Keys
        invariant multiset(rows) == multiset(Rows(counts, counts.Keys - todo))
        decreases todo
      {
        var f :| f in todo;
        RowsOneMore(counts, counts.Keys - todo, f);
        assert counts.Keys - (todo - {f}) == counts.Keys - todo + {f};
        rows, todo := rows + [(counts[f] as real, f)], todo - {f};
      }
    }

    method CountEdges(entity: string, ids: set<string>) returns (counts: map<string, nat>)
      ensures forall f :: f in counts <==> f != entity && EdgeCount(mentions, ids, f) > 0
      ensures forall f :: f in counts ==> counts[f] == EdgeCount(mentions, ids, f)
    {
      counts := map[];
      for i := 0 to |mentions|
        invariant forall f :: f in counts <==> f != entity && EdgeCount(mentions[..i], ids, f) > 0
        invariant forall f :: f in counts ==> counts[f] == EdgeCount(mentions[..i], ids, f)
      {
        assert mentions[..i + 1][..i] == mentions[..i];
        var m := mentions[i];
        if m.article in ids && m.entity != entity {
          counts := counts[m.entity := if m.entity in counts then counts[m.entity] + 1 else 1];
        }
      }
      assert mentions[..|mentions|] == mentions;
    }
  }

  lemma {:induction false} MentionIsMutual(ms: seq<Mention>, article: string, entity: string)
    ensures article in Mentioners(ms, entity) <==> entity in Mentioned(ms, article)
  {
    if article in Mentioners(ms, entity) {
      var m :| m in ms && m.entity == entity && m.article == article;
      assert m.entity in Mentioned(ms, article);
    }
    if entity in Mentioned(ms, article) {
      var m :| m in ms && m.entity == entity && m.article == article;
      assert m.article in Mentioners(ms, entity);
    }
  }

  // Adds one to the count of every article in the set.
  function AddAll(counts: map<string, nat>, more: set<string>): map<string, nat> {
    map a | a in counts.Keys + more ::
      (if a in counts then counts[a] else 0) + (if a in more then 1 else 0)
  }

  // The articles that mention both entities.
  function Both(ms: seq<Mention>, e: string, f: string): set<string> { Mentioners(ms, e) * Mentioners(ms, f) }

  // Every other entity that shares an article with e, with the number of such articles.
  function CoMentioned(ms: seq<Mention>, e: string): set<(real, string)> {
    set m | m in ms && m.entity != e && Both(ms, e, m.entity) != {} :: (|Both(ms, e, m.entity)| as real, m.entity)
  }

  function Rows(counts: map<string, nat>, keys: set<string>): set<(real, string)>
    requires keys <= counts.Keys
  {
    set f | f in keys :: (counts[f] as real, f)
  }

  lemma {:induction false} RowsOneMore(counts: map<string, nat>, keys: set<string>, f: string)
    requires keys <= counts.Keys && f in counts && f !in keys
    ensures Rows(counts, keys + {f}) == Rows(counts, keys) + {(counts[f] as real, f)}
    ensures (counts[f] as real, f) !in Rows(counts, keys)
  {
  }

  lemma {:induction false} CountsAreCoMentions(ms: seq<Mention>, e: string, counts: map<string, nat>)
    requires forall f :: f in counts <==> f != e && |Both(ms, e, f)| > 0
    requires forall f :: f in counts ==> counts[f] == |Both(ms, e, f)|
    ensures Rows(counts, counts.Keys) == CoMentioned(ms, e)
  {
    forall f | f in counts ensures (counts[f] as real, f) in CoMentioned(ms, e) {
      var a :| a in Both(ms, e, f);
      var m :| m in ms && m.entity == f && m.article == a;
    }
  }

  // The edges after processing a list: the pairs it names have its last edge, the rest are as before.
  ghost predicate Leaves(m: Mention, article: string, xs: seq<Extracted>, before: seq<Mention>) {
    var edge := LastEdge(article, xs, m.entity);
    if m.article == article && edge.Some? then Some(m) == edge else m in before
  }

  lemma {:induction false} LeavesOneMore(article: string, xs: seq<Extracted>, i: nat, before: seq<Mention>)
    requires i < |xs|
    ensures forall m :: Leaves(m, article, xs[..i + 1], before) <==>
              m == EdgeFor(article, xs[i]) || (Leaves(m, article, xs[..i], before) && !Joins(m, article, xs[i].id))
  {
    var ys := xs[..i + 1];
    assert ys[..i] == xs[..i] && ys[|ys| - 1] == xs[i];
    forall m ensures Leaves(m, article, ys, before) <==>
                       m == EdgeFor(article, xs[i]) ||
                       (Leaves(m, article, xs[..i], before) && !Joins(m, article, xs[i].id))
    {
      assert LastEdge(article, ys, m.entity) ==
        if xs[i].id == m.entity then Some(EdgeFor(article, xs[i])) else LastEdge(article, xs[..i], m.entity);
    }
  }

  // A listed entity is stored, and counted as often as it is listed.
  predicate IsCounted(after: map<string, nat>, before: map<string, nat>, ids: seq<string>, e: string) {
    && (e in after <==> e in before || e in AsSet(ids))
    && (e in after ==> after[e] == (if e in before then before[e] else 0) + Times(ids, e))
  }

  ghost predicate AreCounted(after: map<string, nat>, before: map<string, nat>, ids: seq<string>) {
    forall e :: IsCounted(after, before, ids, e)
  }

  lemma {:induction false} NotListedNotCounted(ids: seq<string>, e: string)
    requires e !in AsSet(ids)
    ensures Times(ids, e) == 0
  {
    if ids != [] {
      AsSetSnoc(ids);
      NotListedNotCounted(ids[..|ids| - 1], e);
    }
  }

  lemma {:induction false} CountedOnce(counts: map<string, nat>, before: map<string, nat>, xs: seq<Extracted>, i: nat)
    requires i < |xs| && AreCounted(counts, before, Ids(xs[..i]))
    ensures AreCounted(Counted(counts, xs[i].id), before, Ids(xs[..i + 1]))
  {
    var after, more := Counted(counts, xs[i].id), Ids(xs[..i + 1]);
    forall e ensures IsCounted(after, before, more, e) {
      assert IsCounted(counts, before, Ids(xs[..i]), e);
      IdsSnoc(xs, i);
      if e !in counts {
        NotListedNotCounted(Ids(xs[..i]), e);
      }
    }
  }

  lemma {:induction false} LastEdgeOfListed(article: string, xs: seq<Extracted>, entity: string)
    ensures var edge := LastEdge(article, xs, entity);
      (edge.Some? <==> entity in AsSet(Ids(xs))) && (edge.Some? ==> Joins(edge.value, article, entity))
  {
    if xs != [] {
      var n := |xs| - 1;
      assert xs[..n + 1] == xs;
      IdsSnoc(xs, n);
      LastEdgeOfListed(article, xs[..n], entity);
    }
  }

  lemma {:induction false} MentionedAfter(before: seq<Mention>, after: seq<Mention>, article: string,
                                          xs: seq<Extracted>, b: string)
    requires forall m :: m in after <==> Leaves(m, article, xs, before)
    ensures Mentioned(after, b) == Mentioned(before, b) + if b == article then AsSet(Ids(xs)) else {}
  {
    forall e ensures e in Mentioned(after, b) <==>
                     e in Mentioned(before, b) || (b == article && e in AsSet(Ids(xs)))
    {
      LastEdgeOfListed(article, xs, e);
      var edge := LastEdge(article, xs, e);
      if b == article && edge.Some? {
        assert edge.value in after;
      } else if e in Mentioned(before, b) {
        var m :| m in before && m.article == b && m.entity == e;
        assert m in after;
      }
    }
  }

  lemma {:induction false} StoredMeans(g: Graph, article: string, xs: seq<Extracted>)
    ensures AreCounted(Stored(g, article, xs).entities, g.entities, Ids(xs))
    ensures forall m :: m in Stored(g, article, xs).mentions <==> Leaves(m, article, xs, g.mentions)
    ensures Stored(g, article, xs).related == g.related
  {
    if xs != [] {
      var n := |xs| - 1;
      var before, edge := Stored(g, article, xs[..n]), EdgeFor(article, xs[n]);
      assert xs[..n + 1] == xs;
      StoredMeans(g, article, xs[..n]);
      CountedOnce(before.entities, g.entities, xs, n);
      LeavesOneMore(article, xs, n, g.mentions);
      WithoutPairKeepsOthers(before.mentions, article, xs[n].id);
      assert forall m :: m in WithEdge(before.mentions, edge) <==>
                         m == edge || m in WithoutPair(before.mentions, article, xs[n].id);
    }
  }

  lemma {:induction false} HitsSomething(ids: seq<string>, s: set<string>)
    ensures Hits(ids, s) > 0 ==> s != {}
  {
    if ids != [] {
      HitsSomething(ids[..|ids| - 1], s);
    }
  }

  lemma {:induction false} PairIsWritten(article: string, ids: seq<string>, ms: seq<Mention>, p: (string, string))
    ensures p in WrittenPairs(article, ids, ms) <==> Writes(article, ids, ms, p)
  {
    if Writes(article, ids, ms, p) {
      HitsSomething(ids, Mentioned(ms, p.1));
      var e :| e in Mentioned(ms, p.1);
      var m :| m in ms && m.article == p.1 && m.entity == e;
      assert p == (article, m.article);
    }
  }

  // A pair has a relation afterwards if it had one or is written; only a written one changes.
  lemma {:induction false} RelatedAfterMeans(related: map<(string, string), Relation>, article: string,
                                             ids: seq<string>, ms: seq<Mention>)
    ensures var after := RelatedAfter(related, article, ids, ms);
      && (forall p :: p in after <==> p in related || Writes(article, ids, ms, p))
      && forall p :: p in after ==>
           after[p] == if Writes(article, ids, ms, p) then RelationTo(ids, Mentioned(ms, p.1)) else related[p]
  {
    forall p ensures p in WrittenPairs(article, ids, ms) <==> Writes(article, ids, ms, p) {
      PairIsWritten(article, ids, ms, p);
    }
  }

  // The article then mentions what it mentioned before and the list; other articles are as before.
  lemma {:induction false} ProcessedMentions(g: Graph, article: string, xs: seq<Extracted>, b: string)
    ensures Mentioned(Processed(g, article, xs).mentions, b)
         == Mentioned(g.mentions, b) + if b == article then AsSet(Ids(xs)) else {}
  {
    StoredMeans(g, article, xs);
    MentionedAfter(g.mentions, Stored(g, article, xs).mentions, article, xs, b);
  }

  // Exactly the relations of the article to the others that mention a listed entity are written.
  lemma {:induction false} ProcessedRelations(g: Graph, article: string, xs: seq<Extracted>, p: (string, string))
    ensures var after := Processed(g, article, xs);
      && (p in after.related <==> p in g.related || Writes(article, Ids(xs), after.mentions, p))
      && (p in after.related ==>
            after.related[p] == if Writes(article, Ids(xs), after.mentions, p)
                                then RelationTo(Ids(xs), Mentioned(after.mentions, p.1)) else g.related[p])
  {
    StoredMeans(g, article, xs);
    RelatedAfterMeans(g.related, article, Ids(xs), Stored(g, article, xs).mentions);
  }

  // ---- the same in terms of the list alone ----

  ghost predicate IsLastListing(xs: seq<Extracted>, i: int) {
    0 <= i < |xs| && forall j :: i < j < |xs| ==> xs[j].id != xs[i].id
  }

  // The edge stores the excerpt, empty if there is none, and the confidence of listing i.
  ghost predicate IsEdgeOf(m: Mention, article: string, xs: seq<Extracted>, i: int) {
    && IsLastListing(xs, i)
    && m == Mention(article, xs[i].id, match xs[i].excerpt case None => "" case Some(e) => e, xs[i].confidence)
  }

  ghost predicate IsListed(xs: seq<Extracted>, e: string) { exists i :: 0 <= i < |xs| && xs[i].id == e }

  lemma {:induction false} LastEdgeMeans(article: string, xs: seq<Extracted>, e: string)
    ensures LastEdge(article, xs, e).None? <==> !IsListed(xs, e)
    ensures LastEdge(article, xs, e).Some? ==>
      exists i :: IsEdgeOf(LastEdge(article, xs, e).value, article, xs, i) && xs[i].id == e
  {
    if xs != [] {
      var n := |xs| - 1;
      LastEdgeMeans(article, xs[..n], e);
      if xs[n].id == e {
        assert IsEdgeOf(LastEdge(article, xs, e).value, article, xs, n);
      } else if LastEdge(article, xs[..n], e).Some? {
        var i :| IsEdgeOf(LastEdge(article, xs[..n], e).value, article, xs[..n], i) && xs[..n][i].id == e;
        assert IsEdgeOf(LastEdge(article, xs, e).value, article, xs, i);
      }
    }
  }

  lemma {:induction false} OneLastListing(xs: seq<Extracted>, i: int, j: int)
    requires IsLastListing(xs, i) && IsLastListing(xs, j) && xs[i].id == xs[j].id
    ensures i == j
  {
  }

  // Afterwards an edge is that of an entity's last listing, or an old one of a pair not listed.
  lemma {:induction false} ProcessedEdges(g: Graph, article: string, xs: seq<Extracted>, m: Mention)
    ensures m in Processed(g, article, xs).mentions <==>
      || (exists i :: IsEdgeOf(m, article, xs, i))
      || (m in g.mentions && !(m.article == article && IsListed(xs, m.entity)))
  {
    StoredMeans(g, article, xs);
    LastEdgeMeans(article, xs, m.entity);
    var edge := LastEdge(article, xs, m.entity);
    if edge.Some? {
      var i :| IsEdgeOf(edge.value, article, xs, i) && xs[i].id == m.entity;
      forall j | IsEdgeOf(m, article, xs, j) ensures i == j {
        OneLastListing(xs, i, j);
      }
    }
  }

  // The listings of an entity, and those of entities in b.
  function ListingsOf(xs: seq<Extracted>, e: string): set<nat> { set i: nat | i < |xs| && xs[i].id == e }

  function ListingsIn(xs: seq<Extracted>, b: set<string>): set<nat> { set i: nat | i < |xs| && xs[i].id in b }

  lemma {:induction false} ListingsOfSnoc(xs: seq<Extracted>, e: string)
    requires xs != []
    ensures var k := |xs| - 1; |ListingsOf(xs, e)| == |ListingsOf(xs[..k], e)| + if xs[k].id == e then 1 else 0
  {
    var k := |xs| - 1;
    assert ListingsOf(xs, e) == ListingsOf(xs[..k], e) + if xs[k].id == e then {k} else {};
  }

  lemma {:induction false} CountListingsOf(xs: seq<Extracted>, e: string)
    ensures |ListingsOf(xs, e)| == Times(Ids(xs), e)
  {
    if xs == [] {
      assert ListingsOf(xs, e) == {};
    } else {
      var k := |xs| - 1;
      CountListingsOf(xs[..k], e);
      assert xs[..k + 1] == xs;
      IdsSnoc(xs, k);
      ListingsOfSnoc(xs, e);
    }
  }

  lemma {:induction false} CountListingsIn(xs: seq<Extracted>, b: set<string>)
    ensures |ListingsIn(xs, b)| == Hits(Ids(xs), b)
  {
    if xs == [] {
      assert ListingsIn(xs, b) == {};
    } else {
      var k := |xs| - 1;
      CountListingsIn(xs[..k], b);
      assert xs[..k + 1] == xs;
      IdsSnoc(xs, k);
      assert Ids(xs)[..k] == Ids(xs[..k]);
      assert ListingsIn(xs, b) == ListingsIn(xs[..k], b) + if xs[k].id in b then {k} else {};
    }
  }

  // An entity is stored if it was or is listed, and counted once more for every listing.
  lemma {:induction false} ProcessedEntities(g: Graph, article: string, xs: seq<Extracted>, e: string)
    ensures var after := Processed(g, article, xs).entities;
      && (e in after <==> e in g.entities || IsListed(xs, e))
      && (e in after ==> after[e] == (if e in g.entities then g.entities[e] else 0) + |ListingsOf(xs, e)|)
  {
    StoredMeans(g, article, xs);
    assert IsCounted(Stored(g, article, xs).entities, g.entities, Ids(xs), e);
    CountListingsOf(xs, e);
    assert e in AsSet(Ids(xs)) <==> IsListed(xs, e) by {
      LastEdgeMeans(article, xs, e);
      LastEdgeOfListed(article, xs, e);
    }
  }

  // A relation is written iff the other article mentions a listed entity; it then holds the number
  // of listings that hit and that number over the size of list and set together without them.
  lemma {:induction false} WrittenRelations(g: Graph, article: string, xs: seq<Extracted>, p: (string, string))
    ensures var after := Processed(g, article, xs);
      var theirs := Mentioned(after.mentions, p.1); var hits := |ListingsIn(xs, theirs)|;
      if p.0 == article != p.1 && hits > 0
      then
        && p in after.related && |xs| + |theirs| - hits > 0
        && after.related[p] == Relation(hits, hits as real / (|xs| + |theirs| - hits) as real)
      else (p in after.related <==> p in g.related) && (p in g.related ==> after.related[p] == g.related[p])
  {
    var after := Processed(g, article, xs);
    var theirs := Mentioned(after.mentions, p.1);
    ProcessedRelations(g, article, xs, p);
    CountListingsIn(xs, theirs);
    if Hits(Ids(xs), theirs) > 0 {
      HitsSomething(Ids(xs), theirs);
      HitsAtMostAll(Ids(xs), theirs);
      assert |theirs| > 0;
    }
  }

  lemma {:induction false} HitsAtMostAll(ids: seq<string>, s: set<string>)
    ensures Hits(ids, s) <= |ids|
  {
    if ids != [] {
      HitsAtMostAll(ids[..|ids| - 1], s);
    }
  }

  function EdgeCount(ms: seq<Mention>, ids: set<string>, f: string): nat {
    if ms == [] then 0
    else
      var last := ms[|ms| - 1];
      EdgeCount(ms[..|ms| - 1], ids, f) + if last.article in ids && last.entity == f then 1 else 0
  }

  lemma {:induction false} MentionersSnoc(ms: seq<Mention>, f: string)
    requires ms != []
    ensures var last := ms[|ms| - 1];
      Mentioners(ms, f) == Mentioners(ms[..|ms| - 1], f) + if last.entity == f then {last.article} else {}
  {
    assert ms == ms[..|ms| - 1] + [ms[|ms| - 1]];
  }

  lemma {:induction false} LastMentionerIsNew(ms: seq<Mention>)
    requires UniqueEdges(ms) && ms != []
    ensures ms[|ms| - 1].article !in Mentioners(ms[..|ms| - 1], ms[|ms| - 1].entity)
  {
    assert ms == ms[..|ms| - 1] + [ms[|ms| - 1]];
    LastIsNew(ms[..|ms| - 1], ms[|ms| - 1]);
  }

  lemma {:induction false} OneMoreIn(a: set<string>, ids: set<string>, x: string)
    requires x !in a
    ensures |(a + {x}) * ids| == |a * ids| + if x in ids then 1 else 0
  {
    assert (a + {x}) * ids == if x in ids then a * ids + {x} else a * ids;
  }

  lemma {:induction false} InitIsUnique(ms: seq<Mention>)
    requires UniqueEdges(ms) && ms != []
    ensures UniqueEdges(ms[..|ms| - 1])
  {
    assert ms == ms[..|ms| - 1] + [ms[|ms| - 1]];
    LastIsNew(ms[..|ms| - 1], ms[|ms| - 1]);
  }

  lemma {:induction false} MentionersStep(ms: seq<Mention>, ids: set<string>, f: string)
    requires UniqueEdges(ms) && ms != []
    ensures var last := ms[|ms| - 1];
      |Mentioners(ms, f) * ids|
      == |Mentioners(ms[..|ms| - 1], f) * ids| + if last.article in ids && last.entity == f then 1 else 0
  {
    MentionersSnoc(ms, f);
    if ms[|ms| - 1].entity == f {
      LastMentionerIsNew(ms);
      OneMoreIn(Mentioners(ms[..|ms| - 1], f), ids, ms[|ms| - 1].article);
    }
  }

  // Because edges are unique, counting edges counts articles.
  lemma {:induction false} EdgesCountArticles(ms: seq<Mention>, ids: set<string>, f: string)
    requires UniqueEdges(ms)
    ensures EdgeCount(ms, ids, f) == |Mentioners(ms, f) * ids|
  {
    if ms == [] {
      assert Mentioners(ms, f) * ids == {};
    } else {
      InitIsUnique(ms);
      EdgesCountArticles(ms[..|ms| - 1], ids, f);
      MentionersStep(ms, ids, f);
    }
  }

  lemma {:induction false} CoMentionCount(ms: seq<Mention>, e: string, f: string)
    requires UniqueEdges(ms)
    ensures EdgeCount(ms, Mentioners(ms, e), f) == |Both(ms, e, f)|
  {
    EdgesCountArticles(ms, Mentioners(ms, e), f);
    assert Mentioners(ms, f) * Mentioners(ms, e) == Both(ms, e, f);
  }

  // Co-mention counts are symmetric.
  lemma {:induction false} CoMentionsAreSymmetric(ms: seq<Mention>, e: string, f: string)
    requires UniqueEdges(ms)
    ensures EdgeCount(ms, Mentioners(ms, e), f) == EdgeCount(ms, Mentioners(ms, f), e) == |Both(ms, e, f)|
  {
    CoMentionCount(ms, e, f);
    CoMentionCount(ms, f, e);
    assert Both(ms, f, e) == Both(ms, e, f);
  }
}
