/** The two tables of the vector database and the operations of src/vectordb/mod.rs on them. */
module VectorIndex {
  import opened Outcomes

  type Embedding = seq<real>

  datatype DocRow = DocRow(id: string, title: string, chunkCount: nat)

  datatype ChunkRow = ChunkRow(documentId: string, index: nat, total: nat,
                                 title: string, text: string, embedding: Embedding)

  datatype Tables = Tables(docs: seq<DocRow>, chunks: seq<ChunkRow>)

  // The rows a `where key = id` clause selects, and the rows it does not.
  function Of<R>(rows: seq<R>, key: R -> string, id: string): seq<R> {
    if rows == [] then []
    else Of(rows[..|rows| - 1], key, id) + if key(rows[|rows| - 1]) == id then [rows[|rows| - 1]] else []
  }

  function Without<R>(rows: seq<R>, key: R -> string, id: string): seq<R> {
    if rows == [] then []
    else Without(rows[..|rows| - 1], key, id) + if key(rows[|rows| - 1]) == id then [] else [rows[|rows| - 1]]
  }

  const DocKey: DocRow -> string := (r: DocRow) => r.id
  const ChunkKey: ChunkRow -> string := (r: ChunkRow) => r.documentId

  function DocsOf(t: Tables, id: string): seq<DocRow> { Of(t.docs, DocKey, id) }

  function ChunksOf(t: Tables, id: string): seq<ChunkRow> { Of(t.chunks, ChunkKey, id) }

  predicate IsIdChar(c: char) { '0' <= c <= '9' || 'a' <= c <= 'f' || 'A' <= c <= 'F' || c == '-' }

  // Ids are hex strings or UUIDs; anything else is refused by `delete_document`.
  predicate IsId(id: string) { forall i :: 0 <= i < |id| ==> IsIdChar(id[i]) }

  datatype IndexError = InvalidId

  function Deleted(t: Tables, id: string): Tables {
    if IsId(id) then Tables(Without(t.docs, DocKey, id), Without(t.chunks, ChunkKey, id)) else t
  }

  // Insertion deletes first and goes on even if the deletion was refused.
  function Inserted(t: Tables, doc: DocRow, rows: seq<ChunkRow>): Tables {
    var t' := Deleted(t, doc.id);
    Tables(t'.docs + [doc], t'.chunks + rows)
  }

  class VectorDB {
    var docs: seq<DocRow>
    var chunks: seq<ChunkRow>

    function Contents(): Tables
      reads this
    {
      Tables(docs, chunks)
    }

    constructor ()
      ensures Contents() == Tables([], [])
    {
      docs, chunks := [], [];
    }

    method DeleteDocument(id: string) returns (r: Result<(), IndexError>)
      modifies this
      ensures Contents() == Deleted(old(Contents()), id)
      ensures r == if IsId(id) then Ok(()) else Err(InvalidId)
      ensures r.Ok? <==> forall i :: 0 <= i < |id| ==>
                id[i] == '-' || '0' <= id[i] <= '9' || 'a' <= id[i] <= 'f' || 'A' <= id[i] <= 'F'
    {
      if !IsId(id) {
        return Err(InvalidId);
      }
      docs := Without(docs, DocKey, id);
      chunks := Without(chunks, ChunkKey, id);
      return Ok(());
    }

    method InsertDocument(doc: DocRow, rows: seq<ChunkRow>)
      modifies this
      ensures Contents() == Inserted(old(Contents()), doc, rows)
    {
      var _ := DeleteDocument(doc.id);
      docs := docs + [doc];
      ghost var before := chunks;
      for i := 0 to |rows|
        invariant docs == Deleted(old(Contents()), doc.id).docs + [doc] && chunks == before + rows[..i]
      {
        chunks := chunks + [rows[i]];
      }
      assert rows[..|rows|] == rows;
    }
  }

  // ---- selecting rows after the operations ----

  lemma {:induction false} OfConcat<R>(a: seq<R>, b: seq<R>, key: R -> string, id: string)
    ensures Of(a + b, key, id) == Of(a, key, id) + Of(b, key, id)
    decreases |b|
  {
    if b == [] {
      assert a + b == a;
    } else {
      assert (a + b)[..|a + b| - 1] == a + b[..|b| - 1];
      OfConcat(a, b[..|b| - 1], key, id);
    }
  }

  lemma {:induction false} OfWithout<R>(rows: seq<R>, key: R -> string, id: string, d: string)
    ensures Of(Without(rows, key, id), key, d) == if d == id then [] else Of(rows, key, d)
  {
    if rows != [] {
      var init, r := rows[..|rows| - 1], rows[|rows| - 1];
      OfWithout(init, key, id, d);
      if key(r) == id {
        assert Without(rows, key, id) == Without(init, key, id);
      } else {
        assert Without(rows, key, id)[..|Without(init, key, id)|] == Without(init, key, id);
      }
    }
  }

  lemma {:induction false} OfOwn<R>(rows: seq<R>, key: R -> string, id: string, d: string)
    requires forall i :: 0 <= i < |rows| ==> key(rows[i]) == id
    ensures Of(rows, key, d) == if d == id then rows else []
  {
    if rows != [] {
      OfOwn(rows[..|rows| - 1], key, id, d);
    }
  }

  // Deleting a document takes exactly its own rows.
  lemma {:induction false} DeletedRows(t: Tables, id: string, d: string)
    ensures DocsOf(Deleted(t, id), d) == if d == id && IsId(id) then [] else DocsOf(t, d)
    ensures ChunksOf(Deleted(t, id), d) == if d == id && IsId(id) then [] else ChunksOf(t, d)
  {
    OfWithout(t.docs, DocKey, id, d);
    OfWithout(t.chunks, ChunkKey, id, d);
  }

  // Inserting a document replaces exactly its own rows; with an id that cannot be deleted the new
  // rows come on top of the old ones.
  lemma {:induction false} InsertedRows(t: Tables, doc: DocRow, rows: seq<ChunkRow>, d: string)
    requires forall i :: 0 <= i < |rows| ==> rows[i].documentId == doc.id
    ensures var before := Deleted(t, doc.id);
      DocsOf(Inserted(t, doc, rows), d) == if d == doc.id then DocsOf(before, d) + [doc] else DocsOf(t, d)
    ensures var before := Deleted(t, doc.id);
      ChunksOf(Inserted(t, doc, rows), d) == if d == doc.id then ChunksOf(before, d) + rows else ChunksOf(t, d)
  {
    var before := Deleted(t, doc.id);
    DeletedRows(t, doc.id, d);
    OfConcat(before.docs, [doc], DocKey, d);
    OfConcat(before.chunks, rows, ChunkKey, d);
    OfOwn([doc], DocKey, doc.id, d);
    OfOwn(rows, ChunkKey, doc.id, d);
  }

  // The exact condition for an insertion to leave the document's own rows and no others.
  lemma {:induction false} InsertIsExactIff(t: Tables, doc: DocRow, rows: seq<ChunkRow>)
    requires forall i :: 0 <= i < |rows| ==> rows[i].documentId == doc.id
    ensures (DocsOf(Inserted(t, doc, rows), doc.id) == [doc] && ChunksOf(Inserted(t, doc, rows), doc.id) == rows) <==>
            IsId(doc.id) || (DocsOf(t, doc.id) == [] && ChunksOf(t, doc.id) == [])
  {
    InsertedRows(t, doc, rows, doc.id);
    DeletedRows(t, doc.id, doc.id);
    var a, b := DocsOf(Deleted(t, doc.id), doc.id), ChunksOf(Deleted(t, doc.id), doc.id);
    assert a + [doc] == [doc] ==> |a| == 0;
    assert b + rows == rows ==> |b| == 0;
  }
}
