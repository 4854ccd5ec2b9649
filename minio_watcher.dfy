/** The bucket watcher of api/src/services/minio-watcher.service.ts: it keeps
    the set of `.docx` keys it has seen under three course folders, and on
    each scan ingests the keys that are new since the last one. The 5-minute
    timer is an explicit step: each scan is one call of CheckNewFiles. */
module MinioWatcher {
  import opened Js
  import opened DocumentService
  import opened Storage
  import opened Embedding
  import opened Database

  const FOLDERS: seq<string> := ["ctdt-co-dau-moc", "de-cuong", "quy-che-hoc-vu"]
  const ROOT: string := "chatbot courses/"
  const DOCX: string := ".docx"
  const DOCX_CONTENT_TYPE: string := "application/vnd.openxmlformats-officedocument.wordprocessingml.document"
  const CHUNK_SIZE: int := 300
  const CHUNK_OVERLAP: int := 50

  /** `chatbot courses/${folder}/`. */
  function Prefix(folder: string): (p: string)
    ensures StartsWith(p, ROOT) && EndsWith(p, "/")
  {
    ROOT + folder + "/"
  }

  predicate IsDocx(key: string) {
    EndsWith(key, DOCX)
  }

  /** The keys of `keys` that the watcher tracks. */
  function DocxKeys(keys: seq<string>): set<string> {
    set k | k in keys && IsDocx(k)
  }

  function Elements(s: seq<string>): set<string> {
    set k | k in s
  }

  /** `objectName.split('/').pop() || objectName`: the last path segment, or
      the whole key when the key ends with '/'. Either way a suffix of the key. */
  function FileName(key: string): string {
    var last := AfterLast(key, '/');
    if last != [] then last else key
  }

  /** The name is never empty for a non-empty key, and it is either the whole
      key or a suffix of it without a '/'. */
  lemma FileNameFacts(key: string)
    ensures key != [] ==> FileName(key) != []
    ensures EndsWith(key, FileName(key))
    ensures FileName(key) == key || '/' !in FileName(key)
  {
  }

  /** A key under a folder is stored under the name after the folder. */
  lemma FileNameInFolder(folder: string, base: string)
    requires base != [] && '/' !in base
    ensures FileName(Prefix(folder) + base) == base
  {
    AfterLastOfSegment(Prefix(folder), base, '/');
  }

  lemma {:induction false} AfterLastOfSegment(a: string, b: string, sep: char)
    requires a != [] && a[|a| - 1] == sep && sep !in b
    ensures AfterLast(a + b, sep) == b
    decreases |b|
  {
    if b == [] {
      assert a + b == a;
    } else {
      var n := |b| - 1;
      assert (a + b)[..|a + b| - 1] == a + b[..n];
      AfterLastOfSegment(a, b[..n], sep);
      assert b == b[..n] + [b[n]];
    }
  }

  // ---------------------------------------------------------------------
  // Listing the three folders
  // ---------------------------------------------------------------------

  /** The keys listed folder after folder, and the error of the first
      listing that failed, if any (the listings after it are not made). */
  datatype Listed = Listed(keys: seq<string>, failure: Option<string>)

  function Listing(store: ObjectStore, folders: seq<string>): (l: Listed)
  {
    if folders == [] then Listed([], None)
    else
      var n := |folders| - 1;
      var prior := Listing(store, folders[..n]);
      if prior.failure.Some? then prior
      else
        match store.listFiles(Prefix(folders[n]))
        case Err(m) => Listed(prior.keys, Some(m))
        case Ok(keys) => Listed(prior.keys + keys, None)
  }

  /** Listing one more folder, as the `for (const folder of folders)` loops do. */
  lemma ListingStep(store: ObjectStore, folders: seq<string>, i: nat)
    requires i < |folders|
    requires Listing(store, folders[..i]).failure.None?
    ensures store.listFiles(Prefix(folders[i])).Err? ==>
      Listing(store, folders[..i + 1]) == Listed(Listing(store, folders[..i]).keys, Some(store.listFiles(Prefix(folders[i])).error))
    ensures store.listFiles(Prefix(folders[i])).Ok? ==>
      Listing(store, folders[..i + 1]) == Listed(Listing(store, folders[..i]).keys + store.listFiles(Prefix(folders[i])).value, None)
  {
    assert folders[..i + 1][..i] == folders[..i];
    assert folders[..i + 1][i] == folders[i];
  }

  lemma {:induction false} ListingFailureSticks(store: ObjectStore, folders: seq<string>, k: nat)
    requires k <= |folders|
    requires Listing(store, folders[..k]).failure.Some?
    ensures Listing(store, folders) == Listing(store, folders[..k])
    decreases |folders| - k
  {
    if k < |folders| {
      assert folders[..k + 1][..k] == folders[..k];
      ListingFailureSticks(store, folders, k + 1);
    } else {
      assert folders[..k] == folders;
    }
  }

  /** Every listed key came from the listing of one of the folders. */
  lemma {:induction false} ListingKeysListed(store: ObjectStore, folders: seq<string>, key: string)
    requires key in Listing(store, folders).keys
    ensures exists f | f in folders :: store.listFiles(Prefix(f)).Ok? && key in store.listFiles(Prefix(f)).value
  {
    var n := |folders| - 1;
    var prior := Listing(store, folders[..n]);
    if key in prior.keys {
      ListingKeysListed(store, folders[..n], key);
      var f :| f in folders[..n] && store.listFiles(Prefix(f)).Ok? && key in store.listFiles(Prefix(f)).value;
      assert f in folders;
    } else {
      assert folders[n] in folders;
    }
  }

  /** With a store that lists only what lies under the prefix asked for, every
      tracked key is a `.docx` key under one of the three folders. */
  lemma TrackedKeysAreCourseDocx(store: ObjectStore, key: string)
    requires ListsUnderPrefix(store)
    requires key in DocxKeys(Listing(store, FOLDERS).keys)
    ensures IsDocx(key)
    ensures exists f | f in FOLDERS :: StartsWith(key, Prefix(f))
  {
    ListingKeysListed(store, FOLDERS, key);
  }

  // ---------------------------------------------------------------------
  // Finding the new files
  // ---------------------------------------------------------------------

  /** `newFiles` of checkNewFiles over the listed `keys`, when `known` was the
      set before the scan: each `.docx` key not yet known, in listing order,
      marked known as soon as it is found. */
  function Discover(keys: seq<string>, known: set<string>): (found: seq<string>)
    ensures forall k | k in found :: k in keys && IsDocx(k) && k !in known
  {
    if keys == [] then []
    else
      var n := |keys| - 1;
      var prior := Discover(keys[..n], known);
      if IsDocx(keys[n]) && keys[n] !in known && keys[n] !in prior then prior + [keys[n]] else prior
  }

  /** One more key, as the inner loop sees it: it is new exactly when it is a
      `.docx` key missing from the known set as updated so far. */
  lemma DiscoverStep(keys: seq<string>, key: string, known: set<string>)
    ensures Discover(keys + [key], known)
      == Discover(keys, known) + (if IsDocx(key) && key !in known + Elements(Discover(keys, known)) then [key] else [])
  {
    assert (keys + [key])[..|keys|] == keys;
  }

  /** Every `.docx` key of the listing that was not known is found. */
  lemma {:induction false} DiscoverComplete(keys: seq<string>, known: set<string>)
    ensures forall k | k in keys && IsDocx(k) && k !in known :: k in Discover(keys, known)
  {
    if keys != [] {
      var n := |keys| - 1;
      DiscoverComplete(keys[..n], known);
      forall k | k in keys && IsDocx(k) && k !in known ensures k in Discover(keys, known) {
        if k != keys[n] {
          var i :| 0 <= i < |keys| && keys[i] == k;
          assert keys[..n][i] == k;
        }
      }
    }
  }

  /** No key is found twice. */
  lemma {:induction false} DiscoverNoDuplicates(keys: seq<string>, known: set<string>)
    ensures forall i, j | 0 <= i < j < |Discover(keys, known)| :: Discover(keys, known)[i] != Discover(keys, known)[j]
  {
    if keys != [] {
      DiscoverNoDuplicates(keys[..|keys| - 1], known);
    }
  }

  /** The found keys are exactly the tracked keys of the listing that were
      not known, and knownFiles afterwards is the old set and these. */
  lemma DiscoverIsNew(keys: seq<string>, known: set<string>)
    ensures Elements(Discover(keys, known)) == DocxKeys(keys) - known
    ensures known + Elements(Discover(keys, known)) == known + DocxKeys(keys)
  {
    DiscoverComplete(keys, known);
  }

  /** Scanning two listings one after the other: the second finds what is new
      to the set the first one left. So the new files come folder by folder,
      each in its listing order. */
  lemma {:induction false} DiscoverAppend(a: seq<string>, b: seq<string>, known: set<string>)
    ensures Discover(a + b, known) == Discover(a, known) + Discover(b, known + Elements(Discover(a, known)))
    decreases |b|
  {
    var first := Discover(a, known);
    var known' := known + Elements(first);
    if b == [] {
      assert a + b == a;
    } else {
      var n := |b| - 1;
      var key := b[n];
      assert a + b == (a + b[..n]) + [key];
      assert b == b[..n] + [key];
      DiscoverAppend(a, b[..n], known);
      DiscoverStep(a + b[..n], key, known);
      DiscoverStep(b[..n], key, known');
      var later := Discover(b[..n], known');
      assert Elements(first + later) == Elements(first) + Elements(later);
    }
  }

  /** A scan over a listing whose `.docx` keys are all known finds nothing:
      in particular a second scan over the same listing, or a scan right after
      loadExistingFiles, triggers no ingestion. */
  lemma RescanFindsNothing(keys: seq<string>, known: set<string>)
    requires DocxKeys(keys) <= known
    ensures Discover(keys, known) == []
  {
    HeadIsMember(Discover(keys, known));
  }

  lemma HeadIsMember(s: seq<string>)
    ensures s != [] ==> s[0] in s
  {
  }

  /** Key j of a listing, as the scan meets it: a key seen earlier in the
      same listing adds nothing, whether or not it was found then; at its
      first occurrence it is found exactly when it is a `.docx` key not known
      before the scan. So a key listed twice is found at most once, at its
      first position. */
  lemma DiscoverTakesFirstOccurrence(keys: seq<string>, known: set<string>, j: nat)
    requires j < |keys|
    ensures keys[j] in keys[..j] ==> Discover(keys[..j + 1], known) == Discover(keys[..j], known)
    ensures keys[j] !in keys[..j] ==>
      Discover(keys[..j + 1], known)
      == Discover(keys[..j], known) + (if IsDocx(keys[j]) && keys[j] !in known then [keys[j]] else [])
  {
    assert keys[..j + 1] == keys[..j] + [keys[j]];
    DiscoverStep(keys[..j], keys[j], known);
    DiscoverComplete(keys[..j], known);
  }

  // ---------------------------------------------------------------------
  // Ingesting one file
  // ---------------------------------------------------------------------

  /** Steps 1 and 2 of the try block: download, extract, clean; the text, the
      note that there is none, or the error that was thrown. */
  datatype Fetched = FetchFailed(error: string) | NoText | Text(buffer: Bytes, text: string)

  function Fetch(store: ObjectStore, ex: Extractors, key: string): (f: Fetched)
    ensures f.Text? ==>
      && store.getFile(key) == Ok(f.buffer) && f.text != []
      && ExtractText(f.buffer, key, ex).Ok? && f.text == CleanText(ExtractText(f.buffer, key, ex).value)
    ensures f.NoText? ==>
      && store.getFile(key).Ok? && ExtractText(store.getFile(key).value, key, ex).Ok?
      && CleanText(ExtractText(store.getFile(key).value, key, ex).value) == []
    ensures f.FetchFailed? <==> store.getFile(key).Err? || ExtractText(store.getFile(key).value, key, ex).Err?
  {
    match store.getFile(key)
    case Err(m) => FetchFailed(m)
    case Ok(buffer) =>
      match ExtractText(buffer, key, ex)
      case Err(m) => FetchFailed(m)
      case Ok(raw) =>
        var text := CleanText(raw);
        if text == [] then NoText else Text(buffer, text)
  }

  /** The chunks of a cleaned text: `chunkText(text, 300, 50)`. */
  function Pieces(text: string): seq<string> {
    NonEmptyOnly(Windows(text, CHUNK_SIZE, CHUNK_OVERLAP))
  }

  /** The rows step 4 stores for `chunks` with `model` as the embedding model,
      and the error that ended it: chunk i is embedded and inserted under index
      i; an embedding error, or the store's dimension check, stops the loop. */
  function WatchRows(documentId: nat, chunks: seq<string>, model: Result<Extractor>): (p: Progress)
    ensures |p.rows| <= |chunks|
  {
    if chunks == [] then Progress([], None)
    else
      var n := |chunks| - 1;
      var prior := WatchRows(documentId, chunks[..n], model);
      if prior.failure.Some? then prior
      else
        match EmbedWith(model, chunks[n])
        case Err(m) => Progress(prior.rows, Some(m))
        case Ok(v) =>
          if |v| != VECTOR_DIM then Progress(prior.rows, Some(DimensionMismatch(|v|)))
          else Progress(prior.rows + [NewChunk(documentId, chunks[n], n, v)], None)
  }

  lemma WatchRowsStep(documentId: nat, chunks: seq<string>, model: Result<Extractor>, i: nat)
    requires i < |chunks|
    requires WatchRows(documentId, chunks[..i], model).failure.None?
    ensures EmbedWith(model, chunks[i]).Err? ==>
      WatchRows(documentId, chunks[..i + 1], model)
      == Progress(WatchRows(documentId, chunks[..i], model).rows, Some(EmbedWith(model, chunks[i]).error))
    ensures EmbedWith(model, chunks[i]).Ok? && |EmbedWith(model, chunks[i]).value| != VECTOR_DIM ==>
      WatchRows(documentId, chunks[..i + 1], model)
      == Progress(WatchRows(documentId, chunks[..i], model).rows, Some(DimensionMismatch(|EmbedWith(model, chunks[i]).value|)))
    ensures EmbedWith(model, chunks[i]).Ok? && |EmbedWith(model, chunks[i]).value| == VECTOR_DIM ==>
      WatchRows(documentId, chunks[..i + 1], model)
      == Progress(WatchRows(documentId, chunks[..i], model).rows + [NewChunk(documentId, chunks[i], i, EmbedWith(model, chunks[i]).value)], None)
  {
    assert chunks[..i + 1][..i] == chunks[..i];
    assert chunks[..i + 1][i] == chunks[i];
  }

  lemma {:induction false} WatchRowsFailureSticks(documentId: nat, chunks: seq<string>, model: Result<Extractor>, k: nat)
    requires k <= |chunks|
    requires WatchRows(documentId, chunks[..k], model).failure.Some?
    ensures WatchRows(documentId, chunks, model) == WatchRows(documentId, chunks[..k], model)
    decreases |chunks| - k
  {
    if k < |chunks| {
      assert chunks[..k + 1][..k] == chunks[..k];
      WatchRowsFailureSticks(documentId, chunks, model, k + 1);
    } else {
      assert chunks[..k] == chunks;
    }
  }

  /** Chunk i is row i: the rows hold the chunks in order under indices
      0, 1, ..., each with a 384-component embedding, and when nothing failed
      every chunk is stored. */
  lemma {:induction false} WatchRowsInOrder(documentId: nat, chunks: seq<string>, model: Result<Extractor>)
    ensures WatchRows(documentId, chunks, model).failure.None? ==> |WatchRows(documentId, chunks, model).rows| == |chunks|
    ensures forall i | 0 <= i < |WatchRows(documentId, chunks, model).rows| ::
      && WatchRows(documentId, chunks, model).rows[i].chunkIndex == i
      && WatchRows(documentId, chunks, model).rows[i].content == chunks[i]
      && WatchRows(documentId, chunks, model).rows[i].documentId == documentId
      && |WatchRows(documentId, chunks, model).rows[i].embedding| == VECTOR_DIM
  {
    if chunks != [] {
      var n := |chunks| - 1;
      var prefix := chunks[..n];
      assert forall i | 0 <= i < n :: prefix[i] == chunks[i];
      WatchRowsInOrder(documentId, prefix, model);
    }
  }

  /** Whether the loop fails, and how, does not depend on the document id. */
  lemma {:induction false} WatchRowsFailureOf(a: nat, b: nat, chunks: seq<string>, model: Result<Extractor>)
    ensures WatchRows(a, chunks, model).failure == WatchRows(b, chunks, model).failure
    ensures |WatchRows(a, chunks, model).rows| == |WatchRows(b, chunks, model).rows|
  {
    if chunks != [] {
      WatchRowsFailureOf(a, b, chunks[..|chunks| - 1], model);
    }
  }

  /** What the try block did with one file. */
  datatype FileOutcome = Skipped | Stored(documentId: nat, chunkCount: nat) | Failed(error: string)

  /** `o` is what the try block gives when the download, extraction and
      cleaning end in `f`, with `model` as the embedding model: the download
      or extraction error, a skip for an empty text, the first chunk error,
      or a document with one row per chunk. */
  predicate Accounts(o: FileOutcome, f: Fetched, model: Result<Extractor>) {
    match f
    case FetchFailed(m) => o == Failed(m)
    case NoText => o == Skipped
    case Text(_, text) =>
      var failure := WatchRows(0, Pieces(text), model).failure;
      if failure.Some? then o == Failed(failure.value) else o.Stored? && o.chunkCount == |Pieces(text)|
  }

  /** `o` is what the try block gives for `key`. */
  predicate Explains(o: FileOutcome, store: ObjectStore, ex: Extractors, model: Result<Extractor>, key: string) {
    Accounts(o, Fetch(store, ex, key), model)
  }

  /** What the first two steps give for each of `files`, in order. */
  function Fetches(store: ObjectStore, ex: Extractors, files: seq<string>): (r: seq<Fetched>)
    ensures |r| == |files|
    ensures forall i | 0 <= i < |files| :: r[i] == Fetch(store, ex, files[i])
  {
    seq(|files|, i requires 0 <= i < |files| => Fetch(store, ex, files[i]))
  }

  /** How many of the fetch results are a non-empty text, so get a document row. */
  function TextCount(fetched: seq<Fetched>): (n: nat)
    ensures n <= |fetched|
  {
    if fetched == [] then 0
    else TextCount(fetched[..|fetched| - 1]) + (if fetched[|fetched| - 1].Text? then 1 else 0)
  }

  lemma DocxKeysSnoc(keys: seq<string>, key: string)
    ensures DocxKeys(keys + [key]) == DocxKeys(keys) + (if IsDocx(key) then {key} else {})
  {
  }

  lemma DocxKeysAppend(a: seq<string>, b: seq<string>)
    ensures DocxKeys(a + b) == DocxKeys(a) + DocxKeys(b)
  {
  }

  lemma ElementsAppend(a: seq<string>, b: seq<string>)
    ensures Elements(a + b) == Elements(a) + Elements(b)
  {
  }

  /** The try block's outcome for a fetch result `f` when the document it
      inserts, if any, gets id `id`. */
  function OutcomeOf(model: Result<Extractor>, f: Fetched, id: nat): (o: FileOutcome)
    ensures o.Stored? ==> o.documentId == id
  {
    match f
    case FetchFailed(m) => Failed(m)
    case NoText => Skipped
    case Text(_, text) =>
      var failure := WatchRows(id, Pieces(text), model).failure;
      if failure.Some? then Failed(failure.value) else Stored(id, |Pieces(text)|)
  }

  /** Whatever id the document gets, the outcome is one Accounts allows. */
  lemma OutcomeOfAccounts(model: Result<Extractor>, f: Fetched, id: nat)
    ensures Accounts(OutcomeOf(model, f, id), f, model)
  {
    if f.Text? {
      WatchRowsFailureOf(id, 0, Pieces(f.text), model);
    }
  }

  /** What a run of `ingestFiles` adds: the inserted documents' parameters,
      the inserted chunk rows, and each file's outcome. */
  datatype Ingested = Ingested(infos: seq<DocumentInfo>, rows: seq<NewChunk>, outcomes: seq<FileOutcome>)

  /** What one more file adds to a run's `prior` results, when its fetch
      result is `f` and `id` is the id of the document it gets, if any: a
      text adds that document, named after the key's last segment, and its
      chunk rows under `id`; anything else adds only the outcome. */
  function Step(model: Result<Extractor>, prior: Ingested, key: string, f: Fetched, id: nat): (r: Ingested)
    ensures |r.outcomes| == |prior.outcomes| + 1 && r.outcomes[|prior.outcomes|] == OutcomeOf(model, f, id)
    ensures forall i | 0 <= i < |prior.outcomes| :: r.outcomes[i] == prior.outcomes[i]
  {
    match f
    case Text(buffer, text) =>
      Ingested(prior.infos + [DocumentInfo(FileName(key), key, |buffer|, DOCX_CONTENT_TYPE)],
               prior.rows + WatchRows(id, Pieces(text), model).rows,
               prior.outcomes + [OutcomeOf(model, f, id)])
    case _ =>
      Ingested(prior.infos, prior.rows, prior.outcomes + [OutcomeOf(model, f, id)])
  }

  /** `ingestFiles(files)` with `model` as the embedding model, when `fetched`
      are the files' fetch results and `docs` the documents the run inserted,
      in order: each file with a cleaned text gets the next document. */
  function IngestAll(model: Result<Extractor>, files: seq<string>, fetched: seq<Fetched>, docs: seq<Document>): (r: Ingested)
    requires |fetched| == |files| && |docs| == TextCount(fetched)
    ensures |r.outcomes| == |files|
  {
    if files == [] then Ingested([], [], [])
    else
      var n := |files| - 1;
      if fetched[n].Text? then
        Step(model, IngestAll(model, files[..n], fetched[..n], docs[..|docs| - 1]), files[n], fetched[n], docs[|docs| - 1].id)
      else
        Step(model, IngestAll(model, files[..n], fetched[..n], docs), files[n], fetched[n], 0)
  }

  /** Each file's outcome in a run is the one its own fetch result accounts
      for: an error on one file does not change what happens to the others. */
  lemma {:induction false} IngestAllAccounts(model: Result<Extractor>, files: seq<string>, fetched: seq<Fetched>,
                                             docs: seq<Document>)
    requires |fetched| == |files| && |docs| == TextCount(fetched)
    ensures forall i | 0 <= i < |files| :: Accounts(IngestAll(model, files, fetched, docs).outcomes[i], fetched[i], model)
  {
    if files != [] {
      var n := |files| - 1;
      var r := IngestAll(model, files, fetched, docs);
      var earlier := if fetched[n].Text? then docs[..|docs| - 1] else docs;
      var id := if fetched[n].Text? then docs[|docs| - 1].id else 0;
      var prior := IngestAll(model, files[..n], fetched[..n], earlier);
      assert r == Step(model, prior, files[n], fetched[n], id);
      IngestAllAccounts(model, files[..n], fetched[..n], earlier);
      OutcomeOfAccounts(model, fetched[n], id);
      forall i | 0 <= i < |files| ensures Accounts(r.outcomes[i], fetched[i], model) {
        if i < n {
          assert r.outcomes[i] == prior.outcomes[i] && fetched[..n][i] == fetched[i];
        }
      }
    }
  }

  /** Every chunk row of a run belongs to one of the documents the run
      inserted, and a stored file names one of them. */
  lemma {:induction false} IngestAllOwnsRows(model: Result<Extractor>, files: seq<string>, fetched: seq<Fetched>,
                                             docs: seq<Document>)
    requires |fetched| == |files| && |docs| == TextCount(fetched)
    ensures forall c | c in IngestAll(model, files, fetched, docs).rows :: c.documentId in IdsOf(docs)
    ensures forall o | o in IngestAll(model, files, fetched, docs).outcomes && o.Stored? :: o.documentId in IdsOf(docs)
  {
    if files != [] {
      var n := |files| - 1;
      if fetched[n].Text? {
        var earlier := docs[..|docs| - 1];
        var d := docs[|docs| - 1];
        IngestAllOwnsRows(model, files[..n], fetched[..n], earlier);
        WatchRowsInOrder(d.id, Pieces(fetched[n].text), model);
        IdsOfSnoc(docs);
      } else {
        IngestAllOwnsRows(model, files[..n], fetched[..n], docs);
      }
    }
  }

  /** One more file `key` with fetch result `f`: a text takes the next
      document of `docs'`, anything else none. */
  lemma IngestAllSnoc(model: Result<Extractor>, files: seq<string>, fetched: seq<Fetched>, docs: seq<Document>,
                      key: string, f: Fetched, docs': seq<Document>)
    requires |fetched| == |files| && |docs| == TextCount(fetched)
    requires f.Text? ==> |docs'| == |docs| + 1 && docs'[..|docs|] == docs
    requires !f.Text? ==> docs' == docs
    ensures |docs'| == TextCount(fetched + [f])
    ensures f.Text? ==>
      IngestAll(model, files + [key], fetched + [f], docs')
      == Step(model, IngestAll(model, files, fetched, docs), key, f, docs'[|docs|].id)
    ensures !f.Text? ==>
      IngestAll(model, files + [key], fetched + [f], docs')
      == Step(model, IngestAll(model, files, fetched, docs), key, f, 0)
  {
    assert (files + [key])[..|files|] == files && (fetched + [f])[..|fetched|] == fetched;
    assert (files + [key])[|files|] == key && (fetched + [f])[|files|] == f;
    if f.Text? {
      assert docs'[..|docs'| - 1] == docs;
    }
  }

  /** The documents `docs` from position `n` on and the chunk entries past
      `base` are what a run of `ingestFiles` over `done`, whose fetch results
      are `fetched`, inserts, and `outcomes` are its outcomes. */
  predicate Ran(model: Result<Extractor>, done: seq<string>, fetched: seq<Fetched>, n: nat,
                docs: seq<Document>, base: seq<NewChunk>, entries: seq<NewChunk>, outcomes: seq<FileOutcome>)
  {
    && |fetched| == |done| && n <= |docs| && |docs| == n + TextCount(fetched)
    && Infos(docs[n..]) == IngestAll(model, done, fetched, docs[n..]).infos
    && entries == base + IngestAll(model, done, fetched, docs[n..]).rows
    && outcomes == IngestAll(model, done, fetched, docs[n..]).outcomes
  }

  /** A file with a cleaned text: the next document of `after` has its name,
      key and size, and its chunk rows follow `entries`. */
  lemma RanText(model: Result<Extractor>, done: seq<string>, fetched: seq<Fetched>, n: nat,
                before: seq<Document>, after: seq<Document>, base: seq<NewChunk>, entries: seq<NewChunk>,
                entries': seq<NewChunk>, outcomes: seq<FileOutcome>, key: string, f: Fetched, o: FileOutcome)
    requires Ran(model, done, fetched, n, before, base, entries, outcomes)
    requires f.Text? && |after| == |before| + 1 && after[..|before|] == before
    requires after[|before|].info == DocumentInfo(FileName(key), key, |f.buffer|, DOCX_CONTENT_TYPE)
    requires entries' == entries + WatchRows(after[|before|].id, Pieces(f.text), model).rows
    requires o == OutcomeOf(model, f, after[|before|].id)
    ensures Ran(model, done + [key], fetched + [f], n, after, base, entries', outcomes + [o])
  {
    TailSnoc(before, after, n);
    InfosAppend(before[n..], after[|before|]);
    IngestAllSnoc(model, done, fetched, before[n..], key, f, after[n..]);
    ConcatAssoc(base, IngestAll(model, done, fetched, before[n..]).rows,
                WatchRows(after[|before|].id, Pieces(f.text), model).rows);
  }

  /** A file without a cleaned text adds only its outcome. */
  lemma RanOther(model: Result<Extractor>, done: seq<string>, fetched: seq<Fetched>, n: nat,
                 docs: seq<Document>, base: seq<NewChunk>, entries: seq<NewChunk>,
                 outcomes: seq<FileOutcome>, key: string, f: Fetched, o: FileOutcome)
    requires Ran(model, done, fetched, n, docs, base, entries, outcomes)
    requires !f.Text? && o == OutcomeOf(model, f, 0)
    ensures Ran(model, done + [key], fetched + [f], n, docs, base, entries, outcomes + [o])
  {
    IngestAllSnoc(model, done, fetched, docs[n..], key, f, docs[n..]);
  }

  /** Each outcome of a run is the one its file's fetch result accounts for. */
  lemma RanAccounts(model: Result<Extractor>, done: seq<string>, fetched: seq<Fetched>, n: nat,
                    docs: seq<Document>, base: seq<NewChunk>, entries: seq<NewChunk>, outcomes: seq<FileOutcome>)
    requires Ran(model, done, fetched, n, docs, base, entries, outcomes)
    ensures |outcomes| == |done|
    ensures forall i | 0 <= i < |done| :: Accounts(outcomes[i], fetched[i], model)
  {
    IngestAllAccounts(model, done, fetched, docs[n..]);
  }

  lemma SnocSlice<T>(s: seq<T>, i: nat)
    requires i < |s|
    ensures s[..i + 1] == s[..i] + [s[i]]
  {
  }

  lemma ConcatAssoc<T>(a: seq<T>, b: seq<T>, c: seq<T>)
    ensures (a + b) + c == a + (b + c)
  {
  }

  lemma WholeSlice<T>(s: seq<T>)
    ensures s[..|s|] == s && s[..0] == []
  {
  }

  lemma TailSnoc<T>(before: seq<T>, after: seq<T>, n: nat)
    requires n <= |before| && |after| == |before| + 1 && after[..|before|] == before
    ensures after[n..] == before[n..] + [after[|before|]]
  {
    assert after == before + [after[|before|]];
  }

  // ---------------------------------------------------------------------
  // The service
  // ---------------------------------------------------------------------

  lemma PrefixOfPrefix<T>(a: seq<T>, b: seq<T>, c: seq<T>)
    requires |a| <= |b| && b[..|a|] == a
    requires |b| <= |c| && c[..|b|] == b
    ensures |a| <= |c| && c[..|a|] == a
  {
    assert c[..|a|] == c[..|b|][..|a|];
  }

  /** The watcher's state: the known keys, the interval it set, if any, and
      the intervals that are armed (a timer id is a number handed out once). */
  class MinIOWatcherService {
    const store: ObjectStore
    const ex: Extractors
    const embedder: EmbeddingService
    const db: DatabaseModel
    var knownFiles: set<string>
    var intervalId: Option<nat>
    var armed: set<nat>
    var nextTimer: nat

    ghost predicate Valid()
      reads this, db, embedder
    {
      && db.Valid() && embedder.Valid()
      && (forall t | t in armed :: t < nextTimer)
      && (intervalId.Some? ==> intervalId.value < nextTimer)
    }

    constructor(store: ObjectStore, ex: Extractors, embedder: EmbeddingService, db: DatabaseModel)
      requires db.Valid() && embedder.Valid()
      ensures this.store == store && this.ex == ex && this.embedder == embedder && this.db == db
      ensures knownFiles == {} && intervalId == None && armed == {}
      ensures Valid()
    {
      this.store := store;
      this.ex := ex;
      this.embedder := embedder;
      this.db := db;
      knownFiles := {};
      intervalId := None;
      armed := {};
      nextTimer := 0;
    }

    /** `loadExistingFiles()`: every `.docx` key listed under the three
        folders becomes known and nothing is ingested; a listing error
        propagates, leaving known the keys of the folders listed before it. */
    method LoadExistingFiles() returns (o: Outcome)
      requires Valid()
      modifies this
      ensures Valid()
      ensures knownFiles == old(knownFiles) + DocxKeys(Listing(store, FOLDERS).keys)
      ensures Listing(store, FOLDERS).failure.Some? ==> o == Fail(Listing(store, FOLDERS).failure.value)
      ensures Listing(store, FOLDERS).failure.None? ==> o == Pass
      ensures intervalId == old(intervalId) && armed == old(armed) && nextTimer == old(nextTimer)
    {
      for f := 0 to |FOLDERS|
        invariant Listing(store, FOLDERS[..f]).failure.None?
        invariant knownFiles == old(knownFiles) + DocxKeys(Listing(store, FOLDERS[..f]).keys)
        invariant intervalId == old(intervalId) && armed == old(armed) && nextTimer == old(nextTimer)
      {
        ListingStep(store, FOLDERS, f);
        var files := store.listFiles(Prefix(FOLDERS[f]));
        if files.Err? {
          ListingFailureSticks(store, FOLDERS, f + 1);
          return Fail(files.error);
        }
        DocxKeysAppend(Listing(store, FOLDERS[..f]).keys, files.value);
        TrackDocx(files.value);
      }
      assert FOLDERS[..|FOLDERS|] == FOLDERS;
      o := Pass;
    }

    /** The `files.forEach` of loadExistingFiles: each `.docx` key is added. */
    method TrackDocx(files: seq<string>)
      modifies this
      ensures knownFiles == old(knownFiles) + DocxKeys(files)
      ensures intervalId == old(intervalId) && armed == old(armed) && nextTimer == old(nextTimer)
    {
      assert files[..0] == [];
      for j := 0 to |files|
        invariant knownFiles == old(knownFiles) + DocxKeys(files[..j])
        invariant intervalId == old(intervalId) && armed == old(armed) && nextTimer == old(nextTimer)
      {
        DocxKeysSnoc(files[..j], files[j]);
        assert files[..j + 1] == files[..j] + [files[j]];
        if IsDocx(files[j]) {
          knownFiles := knownFiles + {files[j]};
        }
      }
      assert files[..|files|] == files;
    }

    /** The folder scan of `checkNewFiles()`: each listed `.docx` key that is
        not known is pushed to `newFiles` and marked known at once. A listing
        error ends the scan; the keys found before it stay known. */
    method ScanFolders() returns (newFiles: seq<string>, failure: Option<string>)
      requires Valid()
      modifies this
      ensures Valid()
      ensures newFiles == Discover(Listing(store, FOLDERS).keys, old(knownFiles))
      ensures knownFiles == old(knownFiles) + Elements(newFiles)
      ensures failure == Listing(store, FOLDERS).failure
      ensures intervalId == old(intervalId) && armed == old(armed) && nextTimer == old(nextTimer)
    {
      ghost var known := knownFiles;
      newFiles := [];
      for f := 0 to |FOLDERS|
        invariant Listing(store, FOLDERS[..f]).failure.None?
        invariant newFiles == Discover(Listing(store, FOLDERS[..f]).keys, known)
        invariant knownFiles == known + Elements(newFiles)
        invariant intervalId == old(intervalId) && armed == old(armed) && nextTimer == old(nextTimer)
      {
        ListingStep(store, FOLDERS, f);
        var files := store.listFiles(Prefix(FOLDERS[f]));
        if files.Err? {
          ListingFailureSticks(store, FOLDERS, f + 1);
          return newFiles, Some(files.error);
        }
        DiscoverAppend(Listing(store, FOLDERS[..f]).keys, files.value, known);
        var found := MarkNew(files.value);
        ElementsAppend(newFiles, found);
        newFiles := newFiles + found;
      }
      assert FOLDERS[..|FOLDERS|] == FOLDERS;
      failure := None;
    }

    /** The inner `for (const file of files)` of checkNewFiles: a `.docx` key
        not in knownFiles is pushed and added, in listing order. */
    method MarkNew(files: seq<string>) returns (found: seq<string>)
      modifies this
      ensures found == Discover(files, old(knownFiles))
      ensures knownFiles == old(knownFiles) + Elements(found)
      ensures intervalId == old(intervalId) && armed == old(armed) && nextTimer == old(nextTimer)
    {
      ghost var known := knownFiles;
      found := [];
      assert files[..0] == [];
      for j := 0 to |files|
        invariant found == Discover(files[..j], known)
        invariant knownFiles == known + Elements(found)
        invariant intervalId == old(intervalId) && armed == old(armed) && nextTimer == old(nextTimer)
      {
        var file := files[j];
        DiscoverStep(files[..j], file, known);
        assert files[..j + 1] == files[..j] + [file];
        if IsDocx(file) && file !in knownFiles {
          ElementsAppend(found, [file]);
          found := found + [file];
          knownFiles := knownFiles + {file};
        }
      }
      assert files[..|files|] == files;
    }

    /** One turn of step 4's loop: embed chunk i and insert it under index i. */
    method StoreChunkAt(documentId: nat, chunks: seq<string>, i: nat, load: Loader, ghost earlier: seq<NewChunk>)
      returns (failure: Option<string>)
      requires Valid()
      requires documentId in db.DocumentIds()
      requires i < |chunks|
      requires WatchRows(documentId, chunks[..i], embedder.Model(load)).failure.None?
      requires Entries(db.chunks) == earlier + WatchRows(documentId, chunks[..i], embedder.Model(load)).rows
      modifies db, embedder
      ensures Valid()
      ensures embedder.Model(load) == old(embedder.Model(load))
      ensures db.documents == old(db.documents)
      ensures |old(db.chunks)| <= |db.chunks| && db.chunks[..|old(db.chunks)|] == old(db.chunks)
      ensures Entries(db.chunks) == earlier + WatchRows(documentId, chunks[..i + 1], old(embedder.Model(load))).rows
      ensures failure == WatchRows(documentId, chunks[..i + 1], old(embedder.Model(load))).failure
    {
      ghost var model := embedder.Model(load);
      ghost var prior := WatchRows(documentId, chunks[..i], model);
      WatchRowsStep(documentId, chunks, model, i);
      var embedding := embedder.GenerateEmbedding(chunks[i], load);
      if embedding.Err? {
        assert WatchRows(documentId, chunks[..i + 1], model) == Progress(prior.rows, Some(embedding.error));
        return Some(embedding.error);
      }
      ghost var before := db.chunks;
      var row := NewChunk(documentId, chunks[i], i, embedding.value);
      var o := db.InsertChunk(row);
      if o.Fail? {
        assert WatchRows(documentId, chunks[..i + 1], model) == Progress(prior.rows, Some(o.error));
        return Some(o.error);
      }
      assert WatchRows(documentId, chunks[..i + 1], model) == Progress(prior.rows + [row], None);
      assert db.chunks == before + [db.chunks[|before|]];
      EntriesAppend(before, db.chunks[|before|]);
      failure := None;
    }

    /** Step 4's `for` loop: chunk i is embedded and inserted under index i;
        the first error thrown, by the model or by insertChunk's dimension
        check, ends it and is returned. */
    method StoreChunks(documentId: nat, chunks: seq<string>, load: Loader) returns (failure: Option<string>)
      requires Valid()
      requires documentId in db.DocumentIds()
      modifies db, embedder
      ensures Valid()
      ensures embedder.Model(load) == old(embedder.Model(load))
      ensures db.documents == old(db.documents)
      ensures |old(db.chunks)| <= |db.chunks| && db.chunks[..|old(db.chunks)|] == old(db.chunks)
      ensures Entries(db.chunks) == Entries(old(db.chunks)) + WatchRows(documentId, chunks, old(embedder.Model(load))).rows
      ensures failure == WatchRows(documentId, chunks, old(embedder.Model(load))).failure
    {
      ghost var model := embedder.Model(load);
      ghost var oldEntries := Entries(db.chunks);
      for i := 0 to |chunks|
        invariant Valid()
        invariant embedder.Model(load) == model
        invariant db.documents == old(db.documents)
        invariant |old(db.chunks)| <= |db.chunks| && db.chunks[..|old(db.chunks)|] == old(db.chunks)
        invariant WatchRows(documentId, chunks[..i], model).failure.None?
        invariant Entries(db.chunks) == oldEntries + WatchRows(documentId, chunks[..i], model).rows
      {
        ghost var before := db.chunks;
        var stop := StoreChunkAt(documentId, chunks, i, load, oldEntries);
        PrefixOfPrefix(old(db.chunks), before, db.chunks);
        if stop.Some? {
          WatchRowsFailureSticks(documentId, chunks, model, i + 1);
          return stop;
        }
      }
      assert chunks[..|chunks|] == chunks;
      failure := None;
    }

    /** Steps 3 and 4 of `ingestFiles` for a non-empty cleaned text: insert
        the document, named after the last path segment of its key, chunk the
        text with 300/50 and store the chunks. */
    method IngestText(name: string, key: string, buffer: Bytes, text: string, load: Loader) returns (o: FileOutcome)
      requires Valid()
      modifies db, embedder
      ensures Valid()
      ensures embedder.Model(load) == old(embedder.Model(load))
      ensures |db.documents| == |old(db.documents)| + 1
      ensures db.documents[..|old(db.documents)|] == old(db.documents)
      ensures db.documents[|old(db.documents)|].id !in old(db.DocumentIds())
      ensures db.documents[|old(db.documents)|].info == DocumentInfo(name, key, |buffer|, DOCX_CONTENT_TYPE)
      ensures |old(db.chunks)| <= |db.chunks| && db.chunks[..|old(db.chunks)|] == old(db.chunks)
      ensures Entries(db.chunks) == Entries(old(db.chunks))
        + WatchRows(db.documents[|old(db.documents)|].id, Pieces(text), old(embedder.Model(load))).rows
      ensures WatchRows(0, Pieces(text), old(embedder.Model(load))).failure.Some? ==>
        o == Failed(WatchRows(0, Pieces(text), old(embedder.Model(load))).failure.value)
      ensures WatchRows(0, Pieces(text), old(embedder.Model(load))).failure.None? ==>
        o == Stored(db.documents[|old(db.documents)|].id, |Pieces(text)|)
    {
      var info := DocumentInfo(name, key, |buffer|, DOCX_CONTENT_TYPE);
      var documentId := db.InsertDocument(info);
      assert db.documents[|old(db.documents)|] == Document(documentId, info);
      assert documentId in db.DocumentIds() by {
        assert db.documents[|old(db.documents)|] in db.documents;
      }
      ghost var model := embedder.Model(load);
      var chunks := ChunkText(text, CHUNK_SIZE, CHUNK_OVERLAP);
      var failure := StoreChunks(documentId, chunks, load);
      WatchRowsFailureOf(documentId, 0, chunks, model);
      if failure.Some? {
        return Failed(failure.value);
      }
      o := Stored(documentId, |chunks|);
    }

    /** The try block of `ingestFiles` for one key: download, extract, clean,
        and skip an empty text before anything is written; then IngestText.
        Rows written before a later step fails stay. */
    method IngestFile(key: string, load: Loader) returns (o: FileOutcome)
      requires Valid()
      modifies db, embedder
      ensures Valid()
      ensures embedder.Model(load) == old(embedder.Model(load))
      ensures Explains(o, store, ex, old(embedder.Model(load)), key)
      ensures |old(db.documents)| <= |db.documents| && db.documents[..|old(db.documents)|] == old(db.documents)
      ensures |old(db.chunks)| <= |db.chunks| && db.chunks[..|old(db.chunks)|] == old(db.chunks)
      ensures !Fetch(store, ex, key).Text? ==>
        && db.documents == old(db.documents) && db.chunks == old(db.chunks)
        && o == OutcomeOf(old(embedder.Model(load)), Fetch(store, ex, key), 0)
      ensures Fetch(store, ex, key).Text? ==>
        && |db.documents| == |old(db.documents)| + 1
        && db.documents[|old(db.documents)|].id !in old(db.DocumentIds())
        && db.documents[|old(db.documents)|].info
           == DocumentInfo(FileName(key), key, |Fetch(store, ex, key).buffer|, DOCX_CONTENT_TYPE)
        && Entries(db.chunks) == Entries(old(db.chunks))
           + WatchRows(db.documents[|old(db.documents)|].id, Pieces(Fetch(store, ex, key).text), old(embedder.Model(load))).rows
        && o == OutcomeOf(old(embedder.Model(load)), Fetch(store, ex, key), db.documents[|old(db.documents)|].id)
    {
      match Fetch(store, ex, key)
      case FetchFailed(m) =>
        o := Failed(m);
      case NoText =>
        o := Skipped;
      case Text(buffer, text) =>
        ghost var model := embedder.Model(load);
        o := IngestText(FileName(key), key, buffer, text, load);
        WatchRowsFailureOf(db.documents[|old(db.documents)|].id, 0, Pieces(text), model);
    }

    /** One turn of the loop of `ingestFiles`: file i's try block, after
        which the tables show the run over one more file. */
    method IngestNext(files: seq<string>, i: nat, ghost fetched: seq<Fetched>, ghost n: nat, ghost base: seq<NewChunk>,
                      outcomes: seq<FileOutcome>, load: Loader) returns (outcomes': seq<FileOutcome>)
      requires Valid() && i < |files| && fetched == Fetches(store, ex, files)
      requires Ran(embedder.Model(load), files[..i], fetched[..i], n, db.documents, base, Entries(db.chunks), outcomes)
      modifies db, embedder
      ensures Valid()
      ensures embedder.Model(load) == old(embedder.Model(load))
      ensures |old(db.documents)| <= |db.documents| && db.documents[..|old(db.documents)|] == old(db.documents)
      ensures |old(db.chunks)| <= |db.chunks| && db.chunks[..|old(db.chunks)|] == old(db.chunks)
      ensures Ran(old(embedder.Model(load)), files[..i + 1], fetched[..i + 1], n, db.documents, base, Entries(db.chunks), outcomes')
    {
      ghost var model := embedder.Model(load);
      ghost var documents := db.documents;
      ghost var entries := Entries(db.chunks);
      var o := IngestFile(files[i], load);
      SnocSlice(files, i);
      SnocSlice(fetched, i);
      if fetched[i].Text? {
        RanText(model, files[..i], fetched[..i], n, documents, db.documents, base, entries, Entries(db.chunks), outcomes,
                files[i], fetched[i], o);
      } else {
        RanOther(model, files[..i], fetched[..i], n, documents, base, entries, outcomes, files[i], fetched[i], o);
      }
      outcomes' := outcomes + [o];
    }

    /** `ingestFiles(files)`: each file in turn, an error on one caught so the
        next is still processed. The run appends one document per file with
        a cleaned text, under fresh ids, and the chunk rows IngestAll gives. */
    method IngestFiles(files: seq<string>, load: Loader) returns (outcomes: seq<FileOutcome>)
      requires Valid()
      modifies db, embedder
      ensures Valid()
      ensures embedder.Model(load) == old(embedder.Model(load))
      ensures |outcomes| == |files|
      ensures forall i | 0 <= i < |files| :: Explains(outcomes[i], store, ex, old(embedder.Model(load)), files[i])
      ensures |db.documents| == |old(db.documents)| + TextCount(Fetches(store, ex, files))
      ensures db.documents[..|old(db.documents)|] == old(db.documents)
      ensures |old(db.chunks)| <= |db.chunks| && db.chunks[..|old(db.chunks)|] == old(db.chunks)
      ensures forall j | |old(db.documents)| <= j < |db.documents| :: db.documents[j].id !in old(db.DocumentIds())
      ensures Infos(db.documents[|old(db.documents)|..])
        == IngestAll(old(embedder.Model(load)), files, Fetches(store, ex, files), db.documents[|old(db.documents)|..]).infos
      ensures Entries(db.chunks) == Entries(old(db.chunks))
        + IngestAll(old(embedder.Model(load)), files, Fetches(store, ex, files), db.documents[|old(db.documents)|..]).rows
      ensures outcomes == IngestAll(old(embedder.Model(load)), files, Fetches(store, ex, files), db.documents[|old(db.documents)|..]).outcomes
    {
      ghost var model := embedder.Model(load);
      ghost var fetched := Fetches(store, ex, files);
      ghost var n := |db.documents|;
      ghost var base := Entries(db.chunks);
      outcomes := [];
      WholeSlice(files);
      WholeSlice(fetched);
      assert db.documents[n..] == [];
      for i := 0 to |files|
        invariant Valid()
        invariant embedder.Model(load) == model
        invariant n <= |db.documents| && db.documents[..n] == old(db.documents)
        invariant |old(db.chunks)| <= |db.chunks| && db.chunks[..|old(db.chunks)|] == old(db.chunks)
        invariant Ran(model, files[..i], fetched[..i], n, db.documents, base, Entries(db.chunks), outcomes)
      {
        ghost var documents := db.documents;
        ghost var chunks := db.chunks;
        outcomes := IngestNext(files, i, fetched, n, base, outcomes, load);
        PrefixOfPrefix(old(db.documents), documents, db.documents);
        PrefixOfPrefix(old(db.chunks), chunks, db.chunks);
      }
      RanAccounts(model, files, fetched, n, db.documents, base, Entries(db.chunks), outcomes);
      LaterIdsAreFresh(db.documents, n);
    }

    /** `checkNewFiles()`, the interval's callback: scan, then ingest the new
        files if there are any. A listing error ends the call before any
        ingestion, with the files found so far already known. */
    method CheckNewFiles(load: Loader) returns (newFiles: seq<string>, failure: Option<string>, outcomes: seq<FileOutcome>)
      requires Valid()
      modifies this, db, embedder
      ensures Valid()
      ensures embedder.Model(load) == old(embedder.Model(load))
      ensures newFiles == Discover(Listing(store, FOLDERS).keys, old(knownFiles))
      ensures knownFiles == old(knownFiles) + Elements(newFiles)
      ensures failure == Listing(store, FOLDERS).failure
      ensures intervalId == old(intervalId) && armed == old(armed)
      ensures failure.Some? || newFiles == [] ==>
        outcomes == [] && db.documents == old(db.documents) && db.chunks == old(db.chunks)
      ensures failure.None? ==>
        && |outcomes| == |newFiles|
        && (forall i | 0 <= i < |newFiles| :: Explains(outcomes[i], store, ex, old(embedder.Model(load)), newFiles[i]))
        && |db.documents| == |old(db.documents)| + TextCount(Fetches(store, ex, newFiles))
        && db.documents[..|old(db.documents)|] == old(db.documents)
        && |old(db.chunks)| <= |db.chunks| && db.chunks[..|old(db.chunks)|] == old(db.chunks)
        && (forall j | |old(db.documents)| <= j < |db.documents| :: db.documents[j].id !in old(db.DocumentIds()))
        && Infos(db.documents[|old(db.documents)|..])
           == IngestAll(old(embedder.Model(load)), newFiles, Fetches(store, ex, newFiles), db.documents[|old(db.documents)|..]).infos
        && Entries(db.chunks) == Entries(old(db.chunks))
           + IngestAll(old(embedder.Model(load)), newFiles, Fetches(store, ex, newFiles), db.documents[|old(db.documents)|..]).rows
        && outcomes == IngestAll(old(embedder.Model(load)), newFiles, Fetches(store, ex, newFiles), db.documents[|old(db.documents)|..]).outcomes
    {
      newFiles, failure := ScanFolders();
      outcomes := [];
      if failure.Some? {
        return;
      }
      if |newFiles| > 0 {
        outcomes := IngestFiles(newFiles, load);
      } else {
        assert db.documents[|db.documents|..] == [] && db.chunks[..|db.chunks|] == db.chunks;
        assert Entries(db.chunks) + [] == Entries(db.chunks);
      }
    }

    /** `start()`: load the existing files, then set the interval. When the
        load throws, no interval is set. */
    method Start() returns (o: Outcome)
      requires Valid()
      modifies this
      ensures Valid()
      ensures knownFiles == old(knownFiles) + DocxKeys(Listing(store, FOLDERS).keys)
      ensures Listing(store, FOLDERS).failure.Some? ==>
        o == Fail(Listing(store, FOLDERS).failure.value) && intervalId == old(intervalId) && armed == old(armed)
      ensures Listing(store, FOLDERS).failure.None? ==>
        && o == Pass && intervalId.Some?
        && intervalId.value !in old(armed) && armed == old(armed) + {intervalId.value}
    {
      o := LoadExistingFiles();
      if o.Fail? {
        return;
      }
      var timer := nextTimer;
      nextTimer := nextTimer + 1;
      armed := armed + {timer};
      intervalId := Some(timer);
    }

    /** `stop()`: clear the interval if one was set. The field keeps its
        value, so a later stop clears the same, already cleared, interval. */
    method Stop()
      requires Valid()
      modifies this
      ensures Valid()
      ensures old(intervalId).Some? ==> armed == old(armed) - {old(intervalId).value}
      ensures old(intervalId).None? ==> armed == old(armed)
      ensures intervalId == old(intervalId) && knownFiles == old(knownFiles)
    {
      if intervalId.Some? {
        armed := armed - {intervalId.value};
      }
    }
  }
}
