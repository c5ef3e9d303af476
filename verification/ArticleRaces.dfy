/** Creations that overlap.  `create` looks for a duplicate and stores the article in two separate
    requests to the database, and nothing locks the store in between. */
module ArticleRaces {
  import opened Articles
  import opened ArticleRuns

  // A stored article, with the time of its insertion.
  datatype Stored = Stored(article: Article, at: nat)

  // A creation whose look-up found no duplicate, with the time of that look-up.
  datatype Pending = Pending(article: Article, since: nat)

  datatype Store = Store(clock: nat, articles: map<string, Stored>, pending: map<nat, Pending>)

  datatype Action = LookUp(call: nat, article: Article) | Insert(call: nat) | Delete(id: string)

  predicate Enabled(s: Store, act: Action) {
    match act
    case LookUp(call, _) => call !in s.pending
    case Insert(call) => call in s.pending
    case Delete(_) => true
  }

  predicate SameHash(x: Article, y: Article) { x.storeId == y.storeId && x.contentHash == y.contentHash }

  predicate IsDuplicate(s: Store, a: Article) {
    a.contentHash != "" && exists id :: id in s.articles && SameHash(s.articles[id].article, a)
  }

  // A look-up that finds a duplicate ends the creation, and so does an insertion, which fails if
  // the id is taken.
  function Apply(s: Store, act: Action): Store
    requires Enabled(s, act)
  {
    var s' := s.(clock := s.clock + 1);
    match act
    case LookUp(call, a) => if IsDuplicate(s, a) then s' else s'.(pending := s.pending[call := Pending(a, s.clock)])
    case Insert(call) =>
      var a := s.pending[call].article;
      s'.(pending := s.pending - {call},
          articles := if a.id in s.articles then s.articles else s.articles[a.id := Stored(a, s.clock)])
    case Delete(id) => s'.(articles := s.articles - {id})
  }

  ghost predicate IsRun(env: Env, stores: seq<Store>, acts: seq<Action>) {
    && |stores| == |acts| + 1 && stores[0] == Store(0, map[], map[])
    && forall i :: 0 <= i < |acts| ==>
         Enabled(stores[i], acts[i]) && stores[i + 1] == Apply(stores[i], acts[i]) && IsHonest(env, acts[i])
  }

  predicate IsHashed(env: Env, a: Article) { a.contentHash == env.Hash(a.content) }

  // Callers compute the hash of what they create.
  predicate IsHonest(env: Env, act: Action) { act.LookUp? ==> IsHashed(env, act.article) }

  ghost predicate TwinFree(env: Env, s: Store) {
    forall x, y :: x in s.articles && y in s.articles && x != y ==>
      !Twins(env, s.articles[x].article, s.articles[y].article)
  }

  // ---- what every state of a run satisfies ----

  predicate StampedArticle(env: Env, stores: seq<Store>, acts: seq<Action>, n: nat, id: string, x: Stored)
    requires |stores| == |acts| + 1 && n <= |acts|
  {
    && x.at < n && acts[x.at].Insert? && x.article.id == id
    && IsHashed(env, x.article)
    && acts[x.at].call in stores[x.at].pending && stores[x.at].pending[acts[x.at].call].article == x.article
  }

  predicate StampedPending(env: Env, acts: seq<Action>, n: nat, call: nat, p: Pending)
    requires n <= |acts|
  {
    p.since < n && acts[p.since] == LookUp(call, p.article) && IsHashed(env, p.article)
  }

  // A stored twin of a pending article came after its look-up.
  ghost predicate LateTwins(env: Env, s: Store) {
    forall id, call :: id in s.articles && call in s.pending &&
                       Twins(env, s.articles[id].article, s.pending[call].article) ==>
                         s.articles[id].at > s.pending[call].since
  }

  // Stamps are positions in the run.
  ghost predicate AreStamped(env: Env, stores: seq<Store>, acts: seq<Action>, n: nat)
    requires |stores| == |acts| + 1 && n <= |acts|
  {
    var s := stores[n];
    && s.clock == n
    && (forall id :: id in s.articles ==> StampedArticle(env, stores, acts, n, id, s.articles[id]))
    && (forall call :: call in s.pending ==> StampedPending(env, acts, n, call, s.pending[call]))
  }

  lemma {:induction false} TwinsShareHash(env: Env, x: Article, y: Article)
    requires env.Valid() && IsHashed(env, x) && IsHashed(env, y)
    ensures Twins(env, x, y) <==> SameHash(x, y)
    ensures x.contentHash != ""
  {
  }

  lemma {:induction false} WhereFrom(s: Store, act: Action)
    requires Enabled(s, act)
    ensures forall id :: id in Apply(s, act).articles ==>
              (id in s.articles && Apply(s, act).articles[id] == s.articles[id]) ||
              (act.Insert? && id == s.pending[act.call].article.id &&
               Apply(s, act).articles[id] == Stored(s.pending[act.call].article, s.clock))
    ensures forall call :: call in Apply(s, act).pending ==>
              (call in s.pending && Apply(s, act).pending[call] == s.pending[call]) ||
              (act.LookUp? && call == act.call && !IsDuplicate(s, act.article) &&
               Apply(s, act).pending[call] == Pending(act.article, s.clock))
  {
  }

  lemma {:induction false} StampsStay(env: Env, stores: seq<Store>, acts: seq<Action>, n: nat)
    requires IsRun(env, stores, acts) && n < |acts| && AreStamped(env, stores, acts, n)
    ensures AreStamped(env, stores, acts, n + 1)
  {
    var s, s' := stores[n], stores[n + 1];
    WhereFrom(s, acts[n]);
    forall id | id in s'.articles ensures StampedArticle(env, stores, acts, n + 1, id, s'.articles[id]) {
      if id in s.articles && s'.articles[id] == s.articles[id] {
        assert StampedArticle(env, stores, acts, n, id, s.articles[id]);
      } else {
        assert StampedPending(env, acts, n, acts[n].call, s.pending[acts[n].call]);
      }
    }
    forall call | call in s'.pending ensures StampedPending(env, acts, n + 1, call, s'.pending[call]) {
      assert call in s.pending ==> StampedPending(env, acts, n, call, s.pending[call]);
    }
  }

  predicate AllHashed(env: Env, s: Store) {
    && (forall id :: id in s.articles ==> IsHashed(env, s.articles[id].article))
    && (forall call :: call in s.pending ==> IsHashed(env, s.pending[call].article) && s.pending[call].since < s.clock)
  }

  lemma {:induction false} NoDuplicateNoTwin(env: Env, s: Store, a: Article, id: string)
    requires env.Valid() && AllHashed(env, s) && IsHashed(env, a) && id in s.articles
    requires !IsDuplicate(s, a)
    ensures !Twins(env, s.articles[id].article, a)
  {
    TwinsShareHash(env, s.articles[id].article, a);
    assert !SameHash(s.articles[id].article, a);
  }

  // A look-up that finds nothing has no twin before it; an insertion comes after every look-up.
  lemma {:induction false} TwinsStayLate(env: Env, s: Store, act: Action)
    requires env.Valid() && Enabled(s, act) && IsHonest(env, act) && AllHashed(env, s) && LateTwins(env, s)
    ensures LateTwins(env, Apply(s, act))
  {
    var s' := Apply(s, act);
    WhereFrom(s, act);
    forall id, call | id in s'.articles && call in s'.pending &&
                      Twins(env, s'.articles[id].article, s'.pending[call].article)
      ensures s'.articles[id].at > s'.pending[call].since
    {
      if id in s.articles && act.LookUp? && call == act.call {
        NoDuplicateNoTwin(env, s, act.article, id);
      }
    }
  }

  lemma {:induction false} StampedAreHashed(env: Env, stores: seq<Store>, acts: seq<Action>, n: nat)
    requires |stores| == |acts| + 1 && n <= |acts| && AreStamped(env, stores, acts, n)
    ensures AllHashed(env, stores[n])
  {
    var s := stores[n];
    forall id | id in s.articles ensures IsHashed(env, s.articles[id].article) {
      assert StampedArticle(env, stores, acts, n, id, s.articles[id]);
    }
    forall call | call in s.pending ensures IsHashed(env, s.pending[call].article) && s.pending[call].since < s.clock {
      assert StampedPending(env, acts, n, call, s.pending[call]);
    }
  }

  ghost predicate StateOk(env: Env, stores: seq<Store>, acts: seq<Action>, n: nat)
    requires |stores| == |acts| + 1 && n <= |acts|
  {
    AreStamped(env, stores, acts, n) && LateTwins(env, stores[n])
  }

  lemma {:induction false} StepKeepsStateOk(env: Env, stores: seq<Store>, acts: seq<Action>, n: nat)
    requires env.Valid() && IsRun(env, stores, acts) && n < |acts| && StateOk(env, stores, acts, n)
    ensures StateOk(env, stores, acts, n + 1)
  {
    StampsStay(env, stores, acts, n);
    StampedAreHashed(env, stores, acts, n);
    TwinsStayLate(env, stores[n], acts[n]);
  }

  lemma {:induction false} EveryStateIsStamped(env: Env, stores: seq<Store>, acts: seq<Action>, n: nat)
    requires env.Valid() && IsRun(env, stores, acts) && n <= |acts|
    ensures StateOk(env, stores, acts, n)
  {
    if n > 0 {
      EveryStateIsStamped(env, stores, acts, n - 1);
      StepKeepsStateOk(env, stores, acts, n - 1);
    }
  }

  // ---- when twins are stored ----

  // The creation looked up at i and inserted at j is overtaken at k: in between, another creation
  // inserts a twin, which is still there at j.
  ghost predicate Overtaken(env: Env, stores: seq<Store>, acts: seq<Action>, i: nat, k: nat, j: nat)
    requires |stores| == |acts| + 1
  {
    && i < k < j < |acts| && acts[i].LookUp? && acts[k].Insert? && acts[j] == Insert(acts[i].call)
    && var a := acts[i].article;
      && acts[j].call in stores[j].pending && stores[j].pending[acts[j].call] == Pending(a, i)
      && a.id !in stores[j].articles
      && acts[k].call in stores[k].pending
      && var b := stores[k].pending[acts[k].call].article;
        && Twins(env, b, a) && b.id in stores[j].articles && stores[j].articles[b.id] == Stored(b, k)
  }

  // The insertion at j stores a twin exactly if the creation was overtaken.
  ghost predicate AddsTwin(env: Env, s: Store, act: Action) {
    && act.Insert? && act.call in s.pending && s.pending[act.call].article.id !in s.articles
    && exists id :: id in s.articles && Twins(env, s.articles[id].article, s.pending[act.call].article)
  }

  ghost predicate OvertakenAt(env: Env, stores: seq<Store>, acts: seq<Action>, j: nat)
    requires |stores| == |acts| + 1
  {
    exists i: nat, k: nat :: Overtaken(env, stores, acts, i, k, j)
  }

  lemma {:induction false} TwinWasInsertedBetween(env: Env, stores: seq<Store>, acts: seq<Action>, j: nat)
    requires env.Valid() && IsRun(env, stores, acts) && j < |acts|
    ensures AddsTwin(env, stores[j], acts[j]) <==> OvertakenAt(env, stores, acts, j)
  {
    EveryStateIsStamped(env, stores, acts, j);
    var s := stores[j];
    if AddsTwin(env, s, acts[j]) {
      var p := s.pending[acts[j].call];
      var id :| id in s.articles && Twins(env, s.articles[id].article, p.article);
      assert StampedPending(env, acts, j, acts[j].call, p);
      assert StampedArticle(env, stores, acts, j, id, s.articles[id]);
      assert Overtaken(env, stores, acts, p.since, s.articles[id].at, j);
    }
  }

  lemma {:induction false} StepStaysTwinFree(env: Env, s: Store, act: Action)
    requires Enabled(s, act) && TwinFree(env, s)
    ensures TwinFree(env, Apply(s, act)) <==> !AddsTwin(env, s, act)
  {
    var t := Apply(s, act);
    if AddsTwin(env, s, act) {
      var a := s.pending[act.call].article;
      var id :| id in s.articles && Twins(env, s.articles[id].article, a);
      assert t.articles[id].article == s.articles[id].article && t.articles[a.id].article == a;
    }
  }

  lemma {:induction false} NotOvertakenStaysTwinFree(env: Env, stores: seq<Store>, acts: seq<Action>, n: nat)
    requires env.Valid() && IsRun(env, stores, acts) && n < |stores|
    requires forall j :: 0 <= j < n ==> !OvertakenAt(env, stores, acts, j)
    ensures TwinFree(env, stores[n])
  {
    if n > 0 {
      NotOvertakenStaysTwinFree(env, stores, acts, n - 1);
      TwinWasInsertedBetween(env, stores, acts, n - 1);
      StepStaysTwinFree(env, stores[n - 1], acts[n - 1]);
    }
  }

  // The exact condition: a run of overlapping creations and deletions never has two articles of
  // one store with the same normal form iff no creation is overtaken by one of its twins.
  lemma {:induction false} TwinFreeIffNotOvertaken(env: Env, stores: seq<Store>, acts: seq<Action>)
    requires env.Valid() && IsRun(env, stores, acts)
    ensures (forall n :: 0 <= n < |stores| ==> TwinFree(env, stores[n])) <==>
            (forall j :: 0 <= j < |acts| ==> !OvertakenAt(env, stores, acts, j))
  {
    if forall j :: 0 <= j < |acts| ==> !OvertakenAt(env, stores, acts, j) {
      forall n | 0 <= n < |stores| ensures TwinFree(env, stores[n]) {
        NotOvertakenStaysTwinFree(env, stores, acts, n);
      }
    } else {
      var j :| 0 <= j < |acts| && OvertakenAt(env, stores, acts, j);
      TwinWasInsertedBetween(env, stores, acts, j);
      assert TwinFree(env, stores[j]) ==> !TwinFree(env, stores[j + 1]) by {
        if TwinFree(env, stores[j]) {
          StepStaysTwinFree(env, stores[j], acts[j]);
        }
      }
    }
  }

  // The states of two creations that both look before either inserts.
  function Overlap(a: Article, b: Article): seq<Store> {
    var p, q := Pending(a, 0), Pending(b, 1);
    var one := map[a.id := Stored(a, 2)];
    [Store(0, map[], map[]), Store(1, map[], map[0 := p]), Store(2, map[], map[0 := p, 1 := q]),
     Store(3, one, map[1 := q]), Store(4, one[b.id := Stored(b, 3)], map[])]
  }

  lemma {:induction false} OverlapSteps(a: Article, b: Article)
    requires a.id != b.id
    ensures var s := Overlap(a, b);
      && s[1] == Apply(s[0], LookUp(0, a)) && s[2] == Apply(s[1], LookUp(1, b))
      && s[3] == Apply(s[2], Insert(0)) && s[4] == Apply(s[3], Insert(1))
  {
    assert map[0 := Pending(a, 0), 1 := Pending(b, 1)] - {0} == map[1 := Pending(b, 1)];
    assert map[1 := Pending(b, 1)] - {1} == map[];
  }

  // Two creations of one text that both look before either inserts are both stored.
  lemma {:induction false} OverlappingCreatesBothStore(env: Env, a: Article, id: string)
    requires a.contentHash == env.Hash(a.content) && id != a.id
    ensures var b := a.(id := id);
      var acts := [LookUp(0, a), LookUp(1, b), Insert(0), Insert(1)];
      IsRun(env, Overlap(a, b), acts) && !TwinFree(env, Overlap(a, b)[4])
  {
    var b := a.(id := id);
    OverlapSteps(a, b);
    var last := Overlap(a, b)[4];
    assert last.articles[a.id].article == a && last.articles[id].article == b;
  }

  // ---- without overlap the two requests are one creation ----

  function Marked(a: Article): Article { a.(embedded := true) }

  // The store and the world hold the same articles; only the world tells which are embedded.
  ghost predicate SameArticles(s: Store, w: World) {
    && s.articles.Keys == w.articles.Keys
    && forall id :: id in w.articles ==> Marked(s.articles[id].article) == Marked(w.articles[id])
  }

  // A creation as two requests in a row.
  function CreatedAtOnce(s: Store, call: nat, a: Article): Store
    requires call !in s.pending
  {
    var s' := Apply(s, LookUp(call, a));
    if call in s'.pending then Apply(s', Insert(call)) else s'
  }

  lemma {:induction false} AtOnce(s: Store, call: nat, a: Article)
    requires call !in s.pending
    ensures var t := CreatedAtOnce(s, call, a);
      && t.pending == s.pending
      && t.articles == (if IsDuplicate(s, a) || a.id in s.articles then s.articles
                        else s.articles[a.id := Stored(a, s.clock + 1)])
  {
  }

  lemma {:induction false} DuplicateIffMatch(s: Store, w: World, a: Article)
    requires SameArticles(s, w)
    ensures IsDuplicate(s, a) <==> a.contentHash != "" && exists id :: Matches(w, a, id)
  {
    forall id | id in w.articles ensures SameHash(s.articles[id].article, a) <==> Matches(w, a, id) {
      assert Marked(s.articles[id].article).contentHash == Marked(w.articles[id]).contentHash;
      assert Marked(s.articles[id].article).storeId == Marked(w.articles[id]).storeId;
    }
  }

  lemma {:induction false} AtOnceIsCreate(env: Env, s: Store, w: World, call: nat, a: Article,
                                          w': World, r: CreateResult)
    requires SameArticles(s, w) && call !in s.pending && Creates(env, w, a, w', r)
    ensures SameArticles(CreatedAtOnce(s, call, a), w')
    ensures CreatedAtOnce(s, call, a).pending == s.pending
  {
    AtOnce(s, call, a);
    DuplicateIffMatch(s, w, a);
    if r.Created? {
      assert w'.articles == w.articles[a.id := Marked(a)];
    }
  }
}
