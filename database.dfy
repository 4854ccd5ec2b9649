/** The PostgreSQL vector store of api/src/models/database.model.ts, as an
    in-memory pair of tables: documents and their embedded chunks. */
module Database {
  import opened Js

  /** Every stored embedding has exactly this many components. */
  const VECTOR_DIM: nat := 384

  /** The columns a caller supplies for a new document. */
  datatype DocumentInfo = DocumentInfo(filename: string, filePath: string, fileSize: nat, contentType: string)

  datatype Document = Document(id: nat, info: DocumentInfo)

  /** The parameters of `insertChunk`. */
  datatype NewChunk = NewChunk(documentId: nat, content: string, chunkIndex: int, embedding: Vector)

  /** A row of the chunks table: its generated id and what was inserted. */
  datatype ChunkRow = ChunkRow(id: nat, chunk: NewChunk)

  datatype SearchResult = SearchResult(chunkId: nat, documentId: nat, content: string, similarity: real)

  /** How far a loop of inserts got: the rows it added, and the error that
      stopped it, if any. */
  datatype Progress = Progress(rows: seq<NewChunk>, failure: Option<string>)

  /** The cosine distance operator `<=>` of pgvector, left abstract. */
  type Metric = (Vector, Vector) -> real

  function DimensionMismatch(n: nat): string {
    "Embedding dimension mismatch: " + NatToString(n)
  }

  function QueryDimensionMismatch(n: nat): string {
    "Query embedding dimension mismatch: " + NatToString(n)
  }

  /** What PostgreSQL reports for a `document_id` that names no document. */
  const FOREIGN_KEY_VIOLATION: string :=
    "insert or update on table \"chunks\" violates foreign key constraint \"chunks_document_id_fkey\""

  /** The inserted parameters of each row, in table order. */
  function Entries(rows: seq<ChunkRow>): (r: seq<NewChunk>)
    ensures |r| == |rows|
    ensures forall i | 0 <= i < |rows| :: r[i] == rows[i].chunk
  {
    seq(|rows|, i requires 0 <= i < |rows| => rows[i].chunk)
  }

  lemma EntriesAppend(rows: seq<ChunkRow>, row: ChunkRow)
    ensures Entries(rows + [row]) == Entries(rows) + [row.chunk]
  {
  }

  // ---------------------------------------------------------------------
  // searchSimilarChunks: ORDER BY distance LIMIT k
  // ---------------------------------------------------------------------

  /** The rows are in non-decreasing order of `d`. */
  predicate Ascending(rows: seq<ChunkRow>, d: ChunkRow -> real) {
    forall i, j | 0 <= i < j < |rows| :: d(rows[i]) <= d(rows[j])
  }

  /** Put `row` in front of the first row that is at least as far. */
  function Insert(row: ChunkRow, sorted: seq<ChunkRow>, d: ChunkRow -> real): (r: seq<ChunkRow>)
    requires Ascending(sorted, d)
    ensures Ascending(r, d)
    ensures multiset(r) == multiset(sorted) + multiset{row}
  {
    if sorted == [] then [row]
    else if d(row) <= d(sorted[0]) then [row] + sorted
    else
      var rest := Insert(row, sorted[1..], d);
      assert sorted == [sorted[0]] + sorted[1..];
      LowerBound(rest, sorted[1..], row, d, d(sorted[0]));
      [sorted[0]] + rest
  }

  /** A bound below every row of `tail` and below `row` is a bound below every
      row of a permutation of the two. */
  lemma LowerBound(rest: seq<ChunkRow>, tail: seq<ChunkRow>, row: ChunkRow, d: ChunkRow -> real, lo: real)
    requires multiset(rest) == multiset(tail) + multiset{row}
    requires lo <= d(row)
    requires forall j | 0 <= j < |tail| :: lo <= d(tail[j])
    ensures forall k | 0 <= k < |rest| :: lo <= d(rest[k])
  {
    forall k | 0 <= k < |rest|
      ensures lo <= d(rest[k])
    {
      assert rest[k] in multiset(rest);
      if rest[k] != row {
        assert rest[k] in multiset(tail);
        var j :| 0 <= j < |tail| && tail[j] == rest[k];
      }
    }
  }

  /** The table ordered by `d`: a permutation of it, nearest first. */
  function Rank(rows: seq<ChunkRow>, d: ChunkRow -> real): (r: seq<ChunkRow>)
    ensures Ascending(r, d)
    ensures multiset(r) == multiset(rows)
  {
    if rows == [] then []
    else
      assert rows == [rows[0]] + rows[1..];
      Insert(rows[0], Rank(rows[1..], d), d)
  }

  /** The distance of a row's embedding from the query. */
  function DistanceTo(metric: Metric, query: Vector): ChunkRow -> real {
    (row: ChunkRow) => metric(row.chunk.embedding, query)
  }

  /** The selected columns, with `similarity = 1 - distance`. */
  function Hit(row: ChunkRow, metric: Metric, query: Vector): SearchResult {
    SearchResult(row.id, row.chunk.documentId, row.chunk.content, 1.0 - metric(row.chunk.embedding, query))
  }

  /** `searchSimilarChunks(queryEmbedding, limit)` over the rows `rows`: the
      dimension check first, then the `limit` nearest rows, nearest first. */
  function Search(rows: seq<ChunkRow>, metric: Metric, query: Vector, limit: nat): (r: Result<seq<SearchResult>>)
    ensures r.Err? <==> |query| != VECTOR_DIM
    ensures r.Err? ==> r.error == QueryDimensionMismatch(|query|)
    ensures r.Ok? ==> |r.value| == Min(limit, |rows|)
  {
    if |query| != VECTOR_DIM then Err(QueryDimensionMismatch(|query|))
    else
      var ranked := Rank(rows, DistanceTo(metric, query));
      assert |ranked| == |multiset(ranked)| == |rows|;
      Ok(seq(Min(limit, |rows|), i requires 0 <= i < Min(limit, |rows|) => Hit(ranked[i], metric, query)))
  }

  /** The hits are the first `limit` rows of the ranking, in order. */
  lemma SearchIsRankedPrefix(rows: seq<ChunkRow>, metric: Metric, query: Vector, limit: nat)
    requires |query| == VECTOR_DIM
    ensures var ranked := Rank(rows, DistanceTo(metric, query)); var hits := Search(rows, metric, query, limit).value;
      && |ranked| == |rows|
      && forall i | 0 <= i < |hits| :: hits[i] == Hit(ranked[i], metric, query)
  {
    var ranked := Rank(rows, DistanceTo(metric, query));
    assert |ranked| == |multiset(ranked)| == |rows|;
  }

  /** Similarity never increases down the result list. */
  lemma SearchOrderedBySimilarity(rows: seq<ChunkRow>, metric: Metric, query: Vector, limit: nat)
    requires |query| == VECTOR_DIM
    ensures var hits := Search(rows, metric, query, limit).value;
      forall i, j | 0 <= i < j < |hits| :: hits[i].similarity >= hits[j].similarity
  {
    var d := DistanceTo(metric, query);
    var ranked := Rank(rows, d);
    var hits := Search(rows, metric, query, limit).value;
    SearchIsRankedPrefix(rows, metric, query, limit);
    forall i, j | 0 <= i < j < |hits| ensures hits[i].similarity >= hits[j].similarity {
      assert d(ranked[i]) <= d(ranked[j]);
    }
  }

  /** Every hit is a stored row. */
  lemma SearchHitsAreStored(rows: seq<ChunkRow>, metric: Metric, query: Vector, limit: nat, i: nat)
    requires |query| == VECTOR_DIM
    requires i < |Search(rows, metric, query, limit).value|
    ensures exists row | row in rows :: Search(rows, metric, query, limit).value[i] == Hit(row, metric, query)
  {
    var ranked := Rank(rows, DistanceTo(metric, query));
    SearchIsRankedPrefix(rows, metric, query, limit);
    assert ranked[i] in multiset(ranked);
    assert ranked[i] in rows;
  }

  /** The search is a top-k query: the returned rows and the left-out rows
      together are the whole table, and no left-out row is nearer than a
      returned one. */
  lemma SearchIsTopK(rows: seq<ChunkRow>, metric: Metric, query: Vector, limit: nat)
    requires |query| == VECTOR_DIM
    ensures var d := DistanceTo(metric, query); var ranked := Rank(rows, d); var k := Min(limit, |rows|);
      && |ranked| == |rows|
      && multiset(ranked[..k]) + multiset(ranked[k..]) == multiset(rows)
      && forall i, j | 0 <= i < k <= j < |rows| :: d(ranked[i]) <= d(ranked[j])
  {
    var d := DistanceTo(metric, query);
    var ranked := Rank(rows, d);
    var k := Min(limit, |rows|);
    assert |ranked| == |multiset(ranked)| == |rows|;
    assert ranked == ranked[..k] + ranked[k..];
  }

  // ---------------------------------------------------------------------
  // The tables
  // ---------------------------------------------------------------------

  /** Rows of the chunks table whose document is not `id`, in order. */
  function ChunksNotOf(rows: seq<ChunkRow>, id: nat): (r: seq<ChunkRow>)
    ensures forall row | row in r :: row in rows && row.chunk.documentId != id
    ensures forall row | row in rows && row.chunk.documentId != id :: row in r
  {
    if rows == [] then []
    else (if rows[0].chunk.documentId == id then [] else [rows[0]]) + ChunksNotOf(rows[1..], id)
  }

  function DocumentsNot(docs: seq<Document>, id: nat): (r: seq<Document>)
    ensures forall d | d in r :: d in docs && d.id != id
    ensures forall d | d in docs && d.id != id :: d in r
  {
    if docs == [] then []
    else (if docs[0].id == id then [] else [docs[0]]) + DocumentsNot(docs[1..], id)
  }

  /** The ids of some documents. */
  function IdsOf(docs: seq<Document>): set<nat> {
    set d | d in docs :: d.id
  }

  predicate IncreasingChunkIds(rows: seq<ChunkRow>) {
    forall i, j | 0 <= i < j < |rows| :: rows[i].id < rows[j].id
  }

  predicate IncreasingDocumentIds(docs: seq<Document>) {
    forall i, j | 0 <= i < j < |docs| :: docs[i].id < docs[j].id
  }

  /** The inserted parameters of each document, in table order. */
  function Infos(docs: seq<Document>): (r: seq<DocumentInfo>)
    ensures |r| == |docs|
    ensures forall i | 0 <= i < |docs| :: r[i] == docs[i].info
  {
    seq(|docs|, i requires 0 <= i < |docs| => docs[i].info)
  }

  lemma IdsOfSnoc(docs: seq<Document>)
    requires docs != []
    ensures IdsOf(docs) == IdsOf(docs[..|docs| - 1]) + {docs[|docs| - 1].id}
  {
    assert docs == docs[..|docs| - 1] + [docs[|docs| - 1]];
  }

  lemma InfosAppend(docs: seq<Document>, d: Document)
    ensures Infos(docs + [d]) == Infos(docs) + [d.info]
  {
  }

  /** With increasing ids, a document after position `n` has an id none of
      the first `n` has: the rows a run appends have fresh ids. */
  lemma LaterIdsAreFresh(docs: seq<Document>, n: nat)
    requires n <= |docs| && IncreasingDocumentIds(docs)
    ensures forall j | n <= j < |docs| :: docs[j].id !in IdsOf(docs[..n])
  {
    forall j | n <= j < |docs| ensures docs[j].id !in IdsOf(docs[..n]) {
      assert forall k | 0 <= k < n :: docs[..n][k].id < docs[j].id;
    }
  }

  /** Removing rows keeps the ids increasing. */
  lemma {:induction false} ChunksNotOfKeepsOrder(rows: seq<ChunkRow>, id: nat)
    requires IncreasingChunkIds(rows)
    ensures IncreasingChunkIds(ChunksNotOf(rows, id))
  {
    if rows != [] {
      var tail := rows[1..];
      ChunksNotOfKeepsOrder(tail, id);
      var rest := ChunksNotOf(tail, id);
      if rows[0].chunk.documentId != id {
        forall row | row in rest ensures rows[0].id < row.id {
          var j :| 0 <= j < |tail| && tail[j] == row;
          assert rows[j + 1] == row;
        }
        ConsIncreasingChunks(rows[0], rest);
      }
    }
  }

  lemma ConsIncreasingChunks(x: ChunkRow, rest: seq<ChunkRow>)
    requires IncreasingChunkIds(rest)
    requires forall row | row in rest :: x.id < row.id
    ensures IncreasingChunkIds([x] + rest)
  {
    var r := [x] + rest;
    forall i, j | 0 <= i < j < |r| ensures r[i].id < r[j].id {
      assert r[j] == rest[j - 1];
      assert rest[j - 1] in rest;
      if i > 0 {
        assert r[i] == rest[i - 1];
      }
    }
  }

  lemma {:induction false} DocumentsNotKeepsOrder(docs: seq<Document>, id: nat)
    requires IncreasingDocumentIds(docs)
    ensures IncreasingDocumentIds(DocumentsNot(docs, id))
  {
    if docs != [] {
      var tail := docs[1..];
      DocumentsNotKeepsOrder(tail, id);
      var rest := DocumentsNot(tail, id);
      if docs[0].id != id {
        forall d | d in rest ensures docs[0].id < d.id {
          var j :| 0 <= j < |tail| && tail[j] == d;
          assert docs[j + 1] == d;
        }
        ConsIncreasingDocuments(docs[0], rest);
      }
    }
  }

  lemma ConsIncreasingDocuments(x: Document, rest: seq<Document>)
    requires IncreasingDocumentIds(rest)
    requires forall d | d in rest :: x.id < d.id
    ensures IncreasingDocumentIds([x] + rest)
  {
    var r := [x] + rest;
    forall i, j | 0 <= i < j < |r| ensures r[i].id < r[j].id {
      assert r[j] == rest[j - 1];
      assert rest[j - 1] in rest;
      if i > 0 {
        assert r[i] == rest[i - 1];
      }
    }
  }

  /** After the cascade every remaining chunk still references a remaining document. */
  lemma CascadeKeepsReferences(docs: seq<Document>, rows: seq<ChunkRow>, id: nat)
    requires forall row | row in rows :: row.chunk.documentId in IdsOf(docs)
    ensures forall row | row in ChunksNotOf(rows, id) :: row.chunk.documentId in IdsOf(DocumentsNot(docs, id))
  {
    forall row | row in ChunksNotOf(rows, id) ensures row.chunk.documentId in IdsOf(DocumentsNot(docs, id)) {
      var doc :| doc in docs && doc.id == row.chunk.documentId;
      assert doc in DocumentsNot(docs, id);
    }
  }

  /** The two tables. Ids come from one counter, standing in for
      `gen_random_uuid()`: each new row gets an id never used before. */
  class DatabaseModel {
    var documents: seq<Document>
    var chunks: seq<ChunkRow>
    var nextId: nat

    function DocumentIds(): set<nat>
      reads this
    {
      IdsOf(documents)
    }

    /** The table constraints: primary keys are unique (ids increase and stay
        below the counter), every embedding is a VECTOR(384), and every chunk's
        `document_id` references a document. */
    ghost predicate Valid()
      reads this
    {
      && IncreasingDocumentIds(documents)
      && (forall d | d in documents :: d.id < nextId)
      && IncreasingChunkIds(chunks)
      && (forall row | row in chunks :: row.id < nextId)
      && (forall row | row in chunks :: |row.chunk.embedding| == VECTOR_DIM)
      && (forall row | row in chunks :: row.chunk.documentId in IdsOf(documents))
    }

    constructor()
      ensures documents == [] && chunks == []
      ensures Valid()
    {
      documents := [];
      chunks := [];
      nextId := 0;
    }

    /** `insertDocument(info)`: appends one document under a fresh id and returns it. */
    method InsertDocument(info: DocumentInfo) returns (id: nat)
      requires Valid()
      modifies this
      ensures Valid()
      ensures id !in old(DocumentIds())
      ensures documents == old(documents) + [Document(id, info)]
      ensures chunks == old(chunks)
    {
      id := nextId;
      documents := documents + [Document(id, info)];
      nextId := nextId + 1;
      assert old(DocumentIds()) <= DocumentIds();
    }

    /** `insertChunk(params)`: a wrong dimension is rejected before the INSERT;
        an unknown `document_id` is rejected by the foreign key; otherwise
        exactly one row is appended. A rejected call changes nothing. */
    method InsertChunk(c: NewChunk) returns (o: Outcome)
      requires Valid()
      modifies this
      ensures Valid()
      ensures documents == old(documents)
      ensures |c.embedding| != VECTOR_DIM ==>
        o == Fail(DimensionMismatch(|c.embedding|)) && chunks == old(chunks)
      ensures |c.embedding| == VECTOR_DIM && c.documentId !in DocumentIds() ==>
        o == Fail(FOREIGN_KEY_VIOLATION) && chunks == old(chunks)
      ensures |c.embedding| == VECTOR_DIM && c.documentId in DocumentIds() ==>
        o == Pass && |chunks| == |old(chunks)| + 1 && chunks[..|old(chunks)|] == old(chunks)
        && chunks[|old(chunks)|].chunk == c
      ensures o.Pass? <==> |c.embedding| == VECTOR_DIM && c.documentId in DocumentIds()
    {
      if |c.embedding| != VECTOR_DIM {
        return Fail(DimensionMismatch(|c.embedding|));
      }
      if c.documentId !in DocumentIds() {
        return Fail(FOREIGN_KEY_VIOLATION);
      }
      chunks := chunks + [ChunkRow(nextId, c)];
      nextId := nextId + 1;
      assert chunks[..|old(chunks)|] == old(chunks);
      o := Pass;
    }

    /** Deleting a document; `ON DELETE CASCADE` removes its chunks with it. */
    method DeleteDocument(id: nat)
      requires Valid()
      modifies this
      ensures Valid()
      ensures id !in DocumentIds()
      ensures documents == DocumentsNot(old(documents), id)
      ensures chunks == ChunksNotOf(old(chunks), id)
      ensures forall row | row in chunks :: row.chunk.documentId != id
    {
      DocumentsNotKeepsOrder(documents, id);
      ChunksNotOfKeepsOrder(chunks, id);
      CascadeKeepsReferences(documents, chunks, id);
      documents := DocumentsNot(documents, id);
      chunks := ChunksNotOf(chunks, id);
    }

    /** `searchSimilarChunks(queryEmbedding, limit = 5)` over the chunks table. */
    function SearchSimilarChunks(metric: Metric, query: Vector, limit: nat := 5): (r: Result<seq<SearchResult>>)
      reads this
      ensures r.Err? <==> |query| != VECTOR_DIM
      ensures r.Ok? ==> |r.value| == Min(limit, |chunks|)
    {
      Search(chunks, metric, query, limit)
    }
  }
}
