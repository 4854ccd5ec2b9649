/** The manual ingestion endpoint of api/src/controllers/upload.controller.ts:
    fetch one object, extract and trim its text, store a document, cut the
    text into windows and store each window with its embedding. */
module UploadController {
  import opened Js
  import opened DocumentService
  import opened Storage
  import opened Embedding
  import opened Database

  const MISSING_OBJECT_NAME: string := "Thiếu objectName"
  const NO_TEXT: string := "File không có nội dung text"
  const CONTENT_TYPE: string := "unknown"

  /** What the endpoint answers: `{ documentId, totalChunks }`, or a 400 or
      500 status with the error message. */
  datatype IngestResponse = Ingested(documentId: nat, totalChunks: nat) | BadRequest(error: string) | ServerError(error: string)

  function DimensionInvalid(n: nat): string {
    "Embedding dimension invalid: " + NatToString(n)
  }

  // ---------------------------------------------------------------------
  // The private chunkText
  // ---------------------------------------------------------------------

  /** The windows whose `trim()` is not empty, untrimmed, in order. */
  function NotBlank(windows: seq<string>): (r: seq<string>)
    ensures |r| <= |windows|
  {
    if windows == [] then []
    else (if Trim(windows[0]) != [] then [windows[0]] else []) + NotBlank(windows[1..])
  }

  /** One turn of the private chunkText's loop keeps its invariant: the
      window `chunk` joins the kept ones exactly when its trim is not empty. */
  lemma KeepStep(chunk: string, rest: seq<string>, kept: seq<string>, kept': seq<string>, all: seq<string>)
    requires kept' == if Trim(chunk) != [] then kept + [chunk] else kept
    requires kept + NotBlank([chunk] + rest) == all
    ensures kept' + NotBlank(rest) == all
  {
    var head := if Trim(chunk) != [] then [chunk] else [];
    NotBlankCons(chunk, rest);
    assert kept' == kept + head;
    Regroup(kept, head, NotBlank(rest), all);
  }

  lemma Regroup(kept: seq<string>, head: seq<string>, later: seq<string>, all: seq<string>)
    requires kept + (head + later) == all
    ensures kept + head + later == all
  {
  }

  lemma WindowsFromCons(text: string, size: int, overlap: int, start: nat)
    requires overlap < size && start < |text|
    ensures WindowsFrom(text, size, overlap, start)
      == [Slice(text, start, start + size)] + WindowsFrom(text, size, overlap, start + (size - overlap))
  {
    SliceClampedEnd(text, start, start + size);
  }

  lemma NotBlankCons(w: string, rest: seq<string>)
    ensures NotBlank([w] + rest) == (if Trim(w) != [] then [w] else []) + NotBlank(rest)
  {
    assert ([w] + rest)[1..] == rest;
  }

  /** What NotBlank keeps: exactly the windows that are not all whitespace. */
  lemma {:induction false} NotBlankKeeps(windows: seq<string>)
    ensures forall w | w in NotBlank(windows) :: w in windows && Trim(w) != []
    ensures forall w | w in windows && Trim(w) != [] :: w in NotBlank(windows)
  {
    if windows != [] {
      NotBlankKeeps(windows[1..]);
    }
  }

  /** What the private chunkText returns: the non-blank windows of `text`. */
  function KeptWindows(text: string, size: int, overlap: int): seq<string>
    requires overlap < size
  {
    NotBlank(Windows(text, size, overlap))
  }

  /** Every kept window is one of the windows (whose shape ChunkAt gives),
      so it is non-empty and at most `size` long. */
  lemma KeptWindowsAreWindows(text: string, size: int, overlap: int, i: nat)
    requires 0 < size && overlap < size
    requires i < |KeptWindows(text, size, overlap)|
    ensures exists k: nat | k < |Windows(text, size, overlap)| ::
      Windows(text, size, overlap)[k] == KeptWindows(text, size, overlap)[i]
    ensures 0 < |KeptWindows(text, size, overlap)[i]| <= size
  {
    var w := Windows(text, size, overlap);
    var c := KeptWindows(text, size, overlap)[i];
    NotBlankKeeps(w);
    assert c in NotBlank(w);
    var k :| 0 <= k < |w| && w[k] == c;
    ChunkAt(text, size, overlap, k);
  }

  /** A text with no whitespace loses no window. */
  lemma {:induction false} NoWhitespaceKeepsAll(windows: seq<string>)
    requires forall i | 0 <= i < |windows| :: windows[i] != [] && !IsSpace(windows[i][0])
    ensures NotBlank(windows) == windows
  {
    if windows != [] {
      var w := windows[0];
      var rest := windows[1..];
      assert forall i | 0 <= i < |rest| :: rest[i] == windows[i + 1];
      NoWhitespaceKeepsAll(rest);
      NotNonBlank(w);
      assert windows == [w] + rest;
      NotBlankCons(w, rest);
    }
  }

  lemma NotNonBlank(w: string)
    requires w != [] && !IsSpace(w[0])
    ensures Trim(w) != []
  {
    TrimFacts(w);
  }

  // ---------------------------------------------------------------------
  // The embed-and-insert loop
  // ---------------------------------------------------------------------

  /** `chunks[i].trim()` for every i: the texts the loop works on. */
  function TrimAll(chunks: seq<string>): (texts: seq<string>)
    ensures |texts| == |chunks|
    ensures forall i | 0 <= i < |chunks| :: texts[i] == Trim(chunks[i])
  {
    seq(|chunks|, i requires 0 <= i < |chunks| => Trim(chunks[i]))
  }

  /** What one turn of ingestFromMinIO's `for` loop does with a trimmed chunk. */
  datatype ChunkStep = Skip | Row(embedding: Vector) | Stop(error: string)

  /** One turn with `model` as the embedding model: an empty text is skipped
      (`continue`); otherwise it is embedded, and the turn stops the loop with
      the embedding error or the dimension error, or yields a 384-component row. */
  function StepOf(model: Result<Extractor>, text: string): (s: ChunkStep)
    ensures s.Skip? <==> text == []
    ensures s.Row? ==> EmbedWith(model, text) == Ok(s.embedding) && |s.embedding| == VECTOR_DIM
    ensures text != [] && EmbedWith(model, text).Err? ==> s == Stop(EmbedWith(model, text).error)
    ensures text != [] && EmbedWith(model, text).Ok? && |EmbedWith(model, text).value| != VECTOR_DIM ==>
      s == Stop(DimensionInvalid(|EmbedWith(model, text).value|))
  {
    if text == [] then Skip
    else
      match EmbedWith(model, text)
      case Err(m) => Stop(m)
      case Ok(v) => if |v| != VECTOR_DIM then Stop(DimensionInvalid(|v|)) else Row(v)
  }

  /** The rows the `for` loop of ingestFromMinIO stores for the trimmed
      chunks `texts`, and the error that ended it, if any: a stored row holds
      the trimmed chunk under the chunk's loop index. */
  function UploadRows(documentId: nat, texts: seq<string>, model: Result<Extractor>): (p: Progress)
    ensures |p.rows| <= |texts|
  {
    if texts == [] then Progress([], None)
    else
      var n := |texts| - 1;
      var prior := UploadRows(documentId, texts[..n], model);
      if prior.failure.Some? then prior
      else
        match StepOf(model, texts[n])
        case Skip => prior
        case Stop(m) => Progress(prior.rows, Some(m))
        case Row(v) => Progress(prior.rows + [NewChunk(documentId, texts[n], n, v)], None)
  }

  /** Taking one more text: once failed, nothing changes; otherwise the
      text's turn adds nothing, records the error, or adds its row. */
  lemma UploadRowsStep(documentId: nat, texts: seq<string>, model: Result<Extractor>, i: nat)
    requires i < |texts|
    ensures UploadRows(documentId, texts[..i], model).failure.Some? ==>
      UploadRows(documentId, texts[..i + 1], model) == UploadRows(documentId, texts[..i], model)
    ensures UploadRows(documentId, texts[..i], model).failure.None? && StepOf(model, texts[i]).Skip? ==>
      UploadRows(documentId, texts[..i + 1], model) == UploadRows(documentId, texts[..i], model)
    ensures UploadRows(documentId, texts[..i], model).failure.None? && StepOf(model, texts[i]).Stop? ==>
      UploadRows(documentId, texts[..i + 1], model)
      == Progress(UploadRows(documentId, texts[..i], model).rows, Some(StepOf(model, texts[i]).error))
    ensures UploadRows(documentId, texts[..i], model).failure.None? && StepOf(model, texts[i]).Row? ==>
      UploadRows(documentId, texts[..i + 1], model)
      == Progress(UploadRows(documentId, texts[..i], model).rows + [NewChunk(documentId, texts[i], i, StepOf(model, texts[i]).embedding)], None)
  {
    assert texts[..i + 1][..i] == texts[..i];
    assert texts[..i + 1][i] == texts[i];
  }

  /** `row` is what the loop stores for one of the `texts`: that text, under
      its index, with the embedding its turn produced. */
  predicate RowOf(documentId: nat, texts: seq<string>, model: Result<Extractor>, row: NewChunk) {
    && 0 <= row.chunkIndex < |texts|
    && row == NewChunk(documentId, texts[row.chunkIndex], row.chunkIndex, row.embedding)
    && StepOf(model, texts[row.chunkIndex]) == Row(row.embedding)
  }

  lemma RowOfPrefix(documentId: nat, texts: seq<string>, n: nat, model: Result<Extractor>, row: NewChunk)
    requires n <= |texts| && RowOf(documentId, texts[..n], model, row)
    ensures RowOf(documentId, texts, model, row)
  {
    assert texts[..n][row.chunkIndex] == texts[row.chunkIndex];
  }

  /** Every stored row is one of the texts, under that text's index, with the
      384-component embedding the model gave it. */
  lemma {:induction false} UploadRowsAreSteps(documentId: nat, texts: seq<string>, model: Result<Extractor>)
    ensures forall i | 0 <= i < |UploadRows(documentId, texts, model).rows| ::
      RowOf(documentId, texts, model, UploadRows(documentId, texts, model).rows[i])
  {
    if texts != [] {
      var n := |texts| - 1;
      UploadRowsAreSteps(documentId, texts[..n], model);
      var prior := UploadRows(documentId, texts[..n], model);
      forall i | 0 <= i < |prior.rows| ensures RowOf(documentId, texts, model, prior.rows[i]) {
        RowOfPrefix(documentId, texts, n, model, prior.rows[i]);
      }
    }
  }

  /** The chunk indices of `rows` strictly increase. */
  predicate IndicesIncrease(rows: seq<NewChunk>) {
    forall i, j | 0 <= i < j < |rows| :: rows[i].chunkIndex < rows[j].chunkIndex
  }

  lemma IndicesIncreaseSnoc(rows: seq<NewChunk>, row: NewChunk)
    requires IndicesIncrease(rows)
    requires forall i | 0 <= i < |rows| :: rows[i].chunkIndex < row.chunkIndex
    ensures IndicesIncrease(rows + [row])
  {
  }

  /** Rows are stored in increasing chunk order. */
  lemma {:induction false} UploadRowsIncreasing(documentId: nat, texts: seq<string>, model: Result<Extractor>)
    ensures IndicesIncrease(UploadRows(documentId, texts, model).rows)
  {
    if texts != [] {
      var n := |texts| - 1;
      UploadRowsIncreasing(documentId, texts[..n], model);
      UploadRowsAreSteps(documentId, texts[..n], model);
      var prior := UploadRows(documentId, texts[..n], model);
      var s := StepOf(model, texts[n]);
      if prior.failure.None? && s.Row? {
        IndicesIncreaseSnoc(prior.rows, NewChunk(documentId, texts[n], n, s.embedding));
      }
    }
  }

  /** With no empty text and no failure, text i is row i. */
  lemma {:induction false} UploadRowsNoBlank(documentId: nat, texts: seq<string>, model: Result<Extractor>)
    requires forall i | 0 <= i < |texts| :: texts[i] != []
    ensures UploadRows(documentId, texts, model).failure.None? ==> |UploadRows(documentId, texts, model).rows| == |texts|
    ensures forall i | 0 <= i < |UploadRows(documentId, texts, model).rows| :: UploadRows(documentId, texts, model).rows[i].chunkIndex == i
  {
    if texts != [] {
      var n := |texts| - 1;
      var prefix := texts[..n];
      assert forall i | 0 <= i < n :: prefix[i] == texts[i];
      UploadRowsNoBlank(documentId, prefix, model);
    }
  }

  /** When every text yields a row, nothing fails and every text is stored. */
  lemma {:induction false} UploadRowsAllStored(documentId: nat, texts: seq<string>, model: Result<Extractor>)
    requires forall j | 0 <= j < |texts| :: StepOf(model, texts[j]).Row?
    ensures UploadRows(documentId, texts, model).failure.None?
    ensures |UploadRows(documentId, texts, model).rows| == |texts|
  {
    if texts != [] {
      var n := |texts| - 1;
      var prefix := texts[..n];
      assert forall i | 0 <= i < n :: prefix[i] == texts[i];
      UploadRowsAllStored(documentId, prefix, model);
    }
  }

  /** Once the loop has failed, later texts add nothing and keep the failure. */
  lemma {:induction false} UploadRowsFailureSticks(documentId: nat, texts: seq<string>, model: Result<Extractor>, k: nat)
    requires k <= |texts|
    requires UploadRows(documentId, texts[..k], model).failure.Some?
    ensures UploadRows(documentId, texts, model) == UploadRows(documentId, texts[..k], model)
    decreases |texts| - k
  {
    if k < |texts| {
      UploadRowsStep(documentId, texts, model, k);
      UploadRowsFailureSticks(documentId, texts, model, k + 1);
    } else {
      assert texts[..k] == texts;
    }
  }

  /** The first text that does not yield a row ends the loop: its error is
      the failure, and the k rows before it stay stored (no rollback). */
  lemma UploadRowsStopsAtFirstFailure(documentId: nat, texts: seq<string>, model: Result<Extractor>, k: nat)
    requires k < |texts|
    requires forall j | 0 <= j < k :: StepOf(model, texts[j]).Row?
    requires StepOf(model, texts[k]).Stop?
    ensures UploadRows(documentId, texts, model).failure == Some(StepOf(model, texts[k]).error)
    ensures |UploadRows(documentId, texts, model).rows| == k
  {
    var prefix := texts[..k];
    assert forall j | 0 <= j < k :: prefix[j] == texts[j];
    UploadRowsAllStored(documentId, prefix, model);
    UploadRowsStep(documentId, texts, model, k);
    UploadRowsFailureSticks(documentId, texts, model, k + 1);
  }

  /** The private chunkText keeps no blank window, so no turn over its
      windows is skipped and, when nothing fails, window i is row i. */
  lemma KeptWindowsNeverSkipped(text: string, size: int, overlap: int)
    requires overlap < size
    ensures forall i | 0 <= i < |KeptWindows(text, size, overlap)| :: TrimAll(KeptWindows(text, size, overlap))[i] != []
  {
    var kept := KeptWindows(text, size, overlap);
    NotBlankKeeps(Windows(text, size, overlap));
    forall i | 0 <= i < |kept| ensures TrimAll(kept)[i] != [] {
      assert kept[i] in kept;
    }
  }

  /** When the upload's loop ends without an error, the `totalChunks` it
      answers with is the number of chunk rows it inserted. */
  lemma IngestedCountsRows(documentId: nat, text: string, model: Result<Extractor>)
    ensures UploadRows(documentId, TrimAll(KeptWindows(text, 300, 50)), model).failure.None? ==>
      |UploadRows(documentId, TrimAll(KeptWindows(text, 300, 50)), model).rows| == |KeptWindows(text, 300, 50)|
  {
    KeptWindowsNeverSkipped(text, 300, 50);
    UploadRowsNoBlank(documentId, TrimAll(KeptWindows(text, 300, 50)), model);
  }

  // ---------------------------------------------------------------------
  // Before anything is written
  // ---------------------------------------------------------------------

  /** The steps of ingestFromMinIO before the document insert: either the
      answer already given, or the object's name, bytes and trimmed text. */
  datatype Prepared = Answered(response: IngestResponse) | Ready(name: string, buffer: Bytes, text: string)

  /** `if (!objectName)`, `getFile`, `extractText(...).trim()` and `if (!text)`,
      in that order; a thrown error becomes a 500 with its message. */
  function Prepare(objectName: Option<string>, store: ObjectStore, ex: Extractors): (p: Prepared)
    ensures (objectName.None? || objectName == Some("")) <==> p == Answered(BadRequest(MISSING_OBJECT_NAME))
    ensures p.Ready? ==>
      && objectName == Some(p.name)
      && store.getFile(p.name) == Ok(p.buffer)
      && ExtractText(p.buffer, p.name, ex).Ok?
      && p.text == Trim(ExtractText(p.buffer, p.name, ex).value)
      && p.text != []
    ensures p == Answered(BadRequest(NO_TEXT)) ==>
      objectName.Some? && store.getFile(objectName.value).Ok?
      && ExtractText(store.getFile(objectName.value).value, objectName.value, ex).Ok?
      && Trim(ExtractText(store.getFile(objectName.value).value, objectName.value, ex).value) == []
    ensures p.Answered? && p.response.ServerError? ==>
      objectName.Some? && (store.getFile(objectName.value) == Err(p.response.error)
      || (store.getFile(objectName.value).Ok?
          && ExtractText(store.getFile(objectName.value).value, objectName.value, ex) == Err(p.response.error)))
    ensures p.Answered? ==> !p.response.Ingested?
  {
    match objectName
    case None => Answered(BadRequest(MISSING_OBJECT_NAME))
    case Some(name) =>
      if name == [] then Answered(BadRequest(MISSING_OBJECT_NAME))
      else
        match store.getFile(name)
        case Err(m) => Answered(ServerError(m))
        case Ok(buffer) =>
          match ExtractText(buffer, name, ex)
          case Err(m) => Answered(ServerError(m))
          case Ok(raw) =>
            var text := Trim(raw);
            if text == [] then Answered(BadRequest(NO_TEXT)) else Ready(name, buffer, text)
  }

  /** The text handed to the chunker neither starts nor ends with whitespace,
      and NO_TEXT answers exactly an extraction that is all whitespace. */
  lemma PrepareTrimmed(objectName: Option<string>, store: ObjectStore, ex: Extractors)
    ensures Prepare(objectName, store, ex).Ready? ==>
      !IsSpace(Prepare(objectName, store, ex).text[0])
      && !IsSpace(Prepare(objectName, store, ex).text[|Prepare(objectName, store, ex).text| - 1])
    ensures Prepare(objectName, store, ex) == Answered(BadRequest(NO_TEXT)) <==>
      objectName.Some? && objectName.value != [] && store.getFile(objectName.value).Ok?
      && ExtractText(store.getFile(objectName.value).value, objectName.value, ex).Ok?
      && AllSpace(ExtractText(store.getFile(objectName.value).value, objectName.value, ex).value)
  {
    if objectName.Some? && objectName.value != [] && store.getFile(objectName.value).Ok? {
      var name := objectName.value;
      var r := ExtractText(store.getFile(name).value, name, ex);
      if r.Ok? {
        TrimFacts(r.value);
      }
    }
  }

  // ---------------------------------------------------------------------
  // The controller
  // ---------------------------------------------------------------------

  class UploadController {
    const db: DatabaseModel
    const embedder: EmbeddingService
    const store: ObjectStore
    const ex: Extractors

    constructor(db: DatabaseModel, embedder: EmbeddingService, store: ObjectStore, ex: Extractors)
      ensures this.db == db && this.embedder == embedder && this.store == store && this.ex == ex
    {
      this.db := db;
      this.embedder := embedder;
      this.store := store;
      this.ex := ex;
    }

    /** The private `chunkText(text, chunkSize = 300, overlap = 50)`: windows
        of `text.slice(start, start + chunkSize)`, kept only when not blank. */
    method ChunkText(text: string, chunkSize: int := 300, overlap: int := 50) returns (chunks: seq<string>)
      requires overlap < chunkSize
      ensures chunks == KeptWindows(text, chunkSize, overlap)
    {
      ghost var all := KeptWindows(text, chunkSize, overlap);
      assert all == NotBlank(WindowsFrom(text, chunkSize, overlap, 0));
      chunks := [];
      var start: nat := 0;
      while start < |text|
        invariant chunks + NotBlank(WindowsFrom(text, chunkSize, overlap, start)) == all
        decreases |text| - start
      {
        var chunk := Slice(text, start, start + chunkSize);
        var next := start + (chunkSize - overlap);
        WindowsFromCons(text, chunkSize, overlap, start);
        ghost var kept := chunks;
        if Trim(chunk) != [] {
          chunks := chunks + [chunk];
        }
        KeepStep(chunk, WindowsFrom(text, chunkSize, overlap, next), kept, chunks, all);
        start := next;
      }
      assert WindowsFrom(text, chunkSize, overlap, start) == [];
      assert chunks + [] == chunks;
    }

    /** One turn of the `for` loop of ingestFromMinIO on the trimmed chunk
        `text` with loop index `index`: `continue` when it is empty, else
        embed it, check the 384 components and insert the row. */
    method StoreChunk(documentId: nat, text: string, index: nat, load: Loader) returns (s: ChunkStep)
      requires db.Valid() && embedder.Valid()
      requires documentId in db.DocumentIds()
      modifies db, embedder
      ensures db.Valid() && embedder.Valid()
      ensures embedder.Model(load) == old(embedder.Model(load))
      ensures db.documents == old(db.documents)
      ensures s == StepOf(old(embedder.Model(load)), text)
      ensures s.Row? ==> Entries(db.chunks) == Entries(old(db.chunks)) + [NewChunk(documentId, text, index, s.embedding)]
      ensures !s.Row? ==> db.chunks == old(db.chunks)
    {
      if text == [] {
        return Skip;
      }
      var embedding := embedder.GenerateEmbedding(text, load);
      if embedding.Err? {
        return Stop(embedding.error);
      }
      if |embedding.value| != VECTOR_DIM {
        return Stop(DimensionInvalid(|embedding.value|));
      }
      ghost var before := db.chunks;
      var o := db.InsertChunk(NewChunk(documentId, text, index, embedding.value));
      assert db.chunks == before + [db.chunks[|before|]];
      EntriesAppend(before, db.chunks[|before|]);
      s := Row(embedding.value);
    }

    /** The `for` loop of ingestFromMinIO: the chunks are trimmed and taken in
        turn until the first error, which is returned. */
    method StoreChunks(documentId: nat, chunks: seq<string>, load: Loader) returns (failure: Option<string>)
      requires db.Valid() && embedder.Valid()
      requires documentId in db.DocumentIds()
      modifies db, embedder
      ensures db.Valid() && embedder.Valid()
      ensures embedder.Model(load) == old(embedder.Model(load))
      ensures db.documents == old(db.documents)
      ensures Entries(db.chunks) == Entries(old(db.chunks)) + UploadRows(documentId, TrimAll(chunks), old(embedder.Model(load))).rows
      ensures failure == UploadRows(documentId, TrimAll(chunks), old(embedder.Model(load))).failure
    {
      ghost var model := embedder.Model(load);
      ghost var oldEntries := Entries(db.chunks);
      ghost var texts := TrimAll(chunks);
      for i := 0 to |chunks|
        invariant db.Valid() && embedder.Valid()
        invariant embedder.Model(load) == model
        invariant db.documents == old(db.documents)
        invariant UploadRows(documentId, texts[..i], model).failure.None?
        invariant Entries(db.chunks) == oldEntries + UploadRows(documentId, texts[..i], model).rows
      {
        UploadRowsStep(documentId, texts, model, i);
        assert texts[i] == Trim(chunks[i]);
        var step := StoreChunk(documentId, Trim(chunks[i]), i, load);
        if step.Stop? {
          UploadRowsFailureSticks(documentId, texts, model, i + 1);
          return Some(step.error);
        }
      }
      assert texts[..|chunks|] == texts;
      failure := None;
    }

    /** `ingestFromMinIO(req)`. Nothing is written before the text is known to
        be non-blank; then one document row, then one chunk row per kept window
        until the first error. Rows already written stay: there is no rollback. */
    method IngestFromMinIO(objectName: Option<string>, load: Loader) returns (r: IngestResponse)
      requires db.Valid() && embedder.Valid()
      modifies db, embedder
      ensures db.Valid() && embedder.Valid()
      ensures embedder.Model(load) == old(embedder.Model(load))
      ensures Prepare(objectName, store, ex).Answered? ==>
        && r == Prepare(objectName, store, ex).response
        && db.documents == old(db.documents) && db.chunks == old(db.chunks)
        && unchanged(embedder)
      ensures Prepare(objectName, store, ex).Ready? ==>
        var ready := Prepare(objectName, store, ex);
        var chunks := KeptWindows(ready.text, 300, 50);
        && |db.documents| == |old(db.documents)| + 1
        && db.documents[..|old(db.documents)|] == old(db.documents)
        && var doc := db.documents[|old(db.documents)|];
        && doc.id !in old(db.DocumentIds())
        && doc.info == DocumentInfo(ready.name, ready.name, |ready.buffer|, CONTENT_TYPE)
        && var p := UploadRows(doc.id, TrimAll(chunks), old(embedder.Model(load)));
        && Entries(db.chunks) == Entries(old(db.chunks)) + p.rows
        && (p.failure.Some? ==> r == ServerError(p.failure.value))
        && (p.failure.None? ==> r == Ingested(doc.id, |chunks|))
    {
      var prepared := Prepare(objectName, store, ex);
      if prepared.Answered? {
        return prepared.response;
      }
      var name := prepared.name;
      var buffer := prepared.buffer;
      var info := DocumentInfo(name, name, |buffer|, CONTENT_TYPE);
      var documentId := db.InsertDocument(info);
      assert db.documents[|old(db.documents)|] == Document(documentId, info);
      assert documentId in db.DocumentIds() by {
        assert db.documents[|old(db.documents)|] in db.documents;
      }
      var chunks := ChunkText(prepared.text);
      var failure := StoreChunks(documentId, chunks, load);
      if failure.Some? {
        return ServerError(failure.value);
      }
      r := Ingested(documentId, |chunks|);
    }
  }
}
