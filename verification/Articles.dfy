/** The life of an article: create, update and delete of src/knowledge/articles.rs, keeping the
    article table, the duplicate queue and the chunk index together. */
module Articles {
  import opened Outcomes
  import opened Chunking
  import opened ContentHash
  import opened VectorIndex

  const CHUNK_SIZE: nat := 500
  const OVERLAP: nat := 50

  datatype Article = Article(id: string, storeId: string, title: string, content: string,
                               contentHash: string, embedded: bool)

  datatype QueueEntry = QueueEntry(storeId: string, title: string, content: string,
                                     matchedId: string, contentHash: string)

  datatype World = World(articles: map<string, Article>, queue: seq<QueueEntry>, tables: Tables)

  const Empty: World := World(map[], [], Tables([], []))

  /** What comes from outside: lowercasing, the digest, and the embedding model. */
  datatype Env = Env(lower: char -> string, digest: string -> string, embed: string -> Embedding) {
    // The digest is never empty and tells any two texts apart.
    ghost predicate Valid() {
      && IsLowercasing(lower)
      && (forall s :: digest(s) != "")
      && (forall s, t :: digest(s) == digest(t) ==> s == t)
    }

    function Hash(content: string): string { digest(Normal(lower, content)) }
  }

  // The cast to 32 bits.
  function U32(n: nat): nat { n % 0x1_0000_0000 }

  function PiecesOf(a: Article): seq<string> { Chunks(a.content, CHUNK_SIZE, OVERLAP) }

  function RowAt(env: Env, a: Article, i: nat): ChunkRow
    requires i < |PiecesOf(a)|
  {
    ChunkRow(a.id, U32(i), U32(|PiecesOf(a)|), a.title, PiecesOf(a)[i], env.embed(PiecesOf(a)[i]))
  }

  function RowsFor(env: Env, a: Article): seq<ChunkRow> {
    seq(|PiecesOf(a)|, i requires 0 <= i < |PiecesOf(a)| => RowAt(env, a, i))
  }

  function DocFor(a: Article): DocRow { DocRow(a.id, a.title, U32(|PiecesOf(a)|)) }

  // `embed_article`.
  function Embedded(env: Env, t: Tables, a: Article): Tables { Inserted(t, DocFor(a), RowsFor(env, a)) }

  // ---- the operations, as relations between worlds ----

  datatype CreateResult = Created | Duplicate(existingId: string) | IdTaken

  ghost predicate Matches(w: World, a: Article, id: string) {
    id in w.articles && w.articles[id].storeId == a.storeId && w.articles[id].contentHash == a.contentHash
  }

  // A match, whichever the database returns, sends the newcomer to the review queue; an id that
  // exists already fails the insertion and with it the whole call.
  ghost predicate Creates(env: Env, w: World, a: Article, w': World, r: CreateResult) {
    if a.contentHash != "" && exists id :: Matches(w, a, id) then
      && r.Duplicate? && Matches(w, a, r.existingId)
      && w' == w.(queue := w.queue + [QueueEntry(a.storeId, a.title, a.content, r.existingId, a.contentHash)])
    else if a.id in w.articles then r == IdTaken && w' == w
    else
      && r == Created
      && w' == w.(articles := w.articles[a.id := a.(embedded := true)], tables := Embedded(env, w.tables, a))
  }

  // An update rewrites the hash, replaces the indexed chunks, and merges into the stored article,
  // whose store stays; an id that is not stored updates nothing but is indexed all the same.
  function Updated(env: Env, w: World, a: Article): World {
    var fresh' := a.(contentHash := env.Hash(a.content));
    var stored :=
      if a.id in w.articles
      then w.articles[a.id := fresh'.(storeId := w.articles[a.id].storeId, embedded := true)]
      else w.articles;
    w.(articles := stored, tables := Embedded(env, Deleted(w.tables, a.id), fresh'))
  }

  function Removed(w: World, id: string): World {
    w.(articles := w.articles - {id}, tables := Deleted(w.tables, id))
  }

  class ArticleService {
    var articles: map<string, Article>
    var queue: seq<QueueEntry>
    const vectordb: VectorDB
    const env: Env

    ghost function Now(): World
      reads this, vectordb
    {
      World(articles, queue, vectordb.Contents())
    }

    constructor (env: Env)
      ensures Now() == Empty && this.env == env && fresh(vectordb)
    {
      this.env := env;
      articles, queue := map[], [];
      vectordb := new VectorDB();
    }

    method EmbedArticle(a: Article)
      modifies vectordb
      ensures vectordb.Contents() == Embedded(env, old(vectordb.Contents()), a)
      ensures var pieces := Chunks(a.content, 500, 50);
        var before := Deleted(old(vectordb.Contents()), a.id);
        && vectordb.docs == before.docs + [DocRow(a.id, a.title, |pieces| % 0x1_0000_0000)]
        && |vectordb.chunks| == |before.chunks| + |pieces| && before.chunks <= vectordb.chunks
        && forall i :: 0 <= i < |pieces| ==>
             vectordb.chunks[|before.chunks| + i] ==
             ChunkRow(a.id, i % 0x1_0000_0000, |pieces| % 0x1_0000_0000, a.title, pieces[i], env.embed(pieces[i]))
    {
      var pieces := ChunkText(a.content, CHUNK_SIZE, OVERLAP);
      var rows: seq<ChunkRow> := [];
      for i := 0 to |pieces|
        invariant rows == RowsFor(env, a)[..i]
      {
        rows := rows + [ChunkRow(a.id, U32(i), U32(|pieces|), a.title, pieces[i], env.embed(pieces[i]))];
      }
      assert rows == RowsFor(env, a);
      vectordb.InsertDocument(DocRow(a.id, a.title, U32(|pieces|)), rows);
    }

    // `find_article_by_hash`: some article of the store with that hash, if there is one.
    method FindByHash(storeId: string, hash: string) returns (r: Option<string>)
      ensures r.Some? ==>
                r.value in articles && articles[r.value].storeId == storeId && articles[r.value].contentHash == hash
      ensures r.None? ==> forall id :: id in articles ==>
                !(articles[id].storeId == storeId && articles[id].contentHash == hash)
    {
      var todo := articles.Keys;
      while todo != {}
        invariant todo <= articles.Keys
        invariant forall id :: id in articles && id !in todo ==>
                    !(articles[id].storeId == storeId && articles[id].contentHash == hash)
        decreases todo
      {
        var id :| id in todo;
        if articles[id].storeId == storeId && articles[id].contentHash == hash {
          return Some(id);
        }
        todo := todo - {id};
      }
      return None;
    }

    method Create(a: Article) returns (r: CreateResult)
      modifies this, vectordb
      ensures Creates(env, old(Now()), a, Now(), r)
      ensures r.Duplicate? <==> a.contentHash != "" && exists id :: (
                id in old(articles) && old(articles)[id].storeId == a.storeId &&
                old(articles)[id].contentHash == a.contentHash)
      ensures r.Duplicate? ==>
        && r.existingId in old(articles) && old(articles)[r.existingId].storeId == a.storeId
        && old(articles)[r.existingId].contentHash == a.contentHash
        && queue == old(queue) + [QueueEntry(a.storeId, a.title, a.content, r.existingId, a.contentHash)]
      ensures r.IdTaken? <==> !r.Duplicate? && a.id in old(articles)
      ensures !r.Duplicate? ==> queue == old(queue)
      ensures articles == if r.Created? then old(articles)[a.id := a.(embedded := true)] else old(articles)
      ensures !r.Created? ==> vectordb.Contents() == old(vectordb.Contents())
    {
      if a.contentHash != "" {
        var existing := FindByHash(a.storeId, a.contentHash);
        if existing.Some? {
          assert Matches(Now(), a, existing.value);
          queue := queue + [QueueEntry(a.storeId, a.title, a.content, existing.value, a.contentHash)];
          return Duplicate(existing.value);
        }
      }
      if a.id in articles {
        return IdTaken;
      }
      articles := articles[a.id := a];
      EmbedArticle(a);
      articles := articles[a.id := a.(embedded := true)];
      assert articles == old(articles)[a.id := a.(embedded := true)];
      return Created;
    }

    method Update(a: Article)
      requires env.Valid()
      modifies this, vectordb
      ensures Now() == Updated(env, old(Now()), a)
      ensures queue == old(queue)
      ensures articles ==
              if a.id in old(articles)
              then old(articles)[a.id := a.(contentHash := env.digest(Normal(env.lower, a.content)),
                                            storeId := old(articles)[a.id].storeId, embedded := true)]
              else old(articles)
    {
      var normal := Normalize(env.lower, a.content);
      var updated := a.(contentHash := env.digest(normal));
      var _ := vectordb.DeleteDocument(a.id);
      Merge(updated);
      EmbedArticle(updated);
      Merge(updated.(embedded := true));
    }

    // `update_article`: changes a stored article, keeping its store, and ignores an unknown id.
    method Merge(a: Article)
      modifies this
      ensures queue == old(queue)
      ensures articles == if a.id in old(articles)
                          then old(articles)[a.id := a.(storeId := old(articles)[a.id].storeId)]
                          else old(articles)
    {
      if a.id in articles {
        articles := articles[a.id := a.(storeId := articles[a.id].storeId)];
      }
    }

    method Delete(id: string)
      modifies this, vectordb
      ensures Now() == Removed(old(Now()), id)
      ensures articles == old(articles) - {id} && queue == old(queue)
    {
      var _ := vectordb.DeleteDocument(id);
      articles := articles - {id};
    }
  }
}
