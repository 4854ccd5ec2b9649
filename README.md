# Course-document RAG pipeline in Dafny

This project models the ingestion-and-retrieval pipeline of a retrieval-augmented
chatbot for university course documents.

**Ingestion.**
- Documents are `.docx`, PDF, text or Excel files kept in a MinIO bucket.
- One route ingests them on request: the manual `ingestFromMinIO` endpoint.
- The other route is a watcher that polls three course folders. It ingests every new `.docx` key.
- Either route fetches the object and extracts its text by file extension.
- For each document, one row goes into a `documents` table.
- The text is cut into overlapping windows.
- Each window is embedded into a 384-dimensional vector and stored in a `chunks` table.

**Retrieval.** The chat endpoint normalises the conversation. The RAG service then:
- embeds the last user message;
- retrieves the five nearest chunks;
- builds a numbered context;
- asks the chat model with a system prompt, the last three turns and the question.

Modules, one per source file, plus two shared ones:

| module | file | models |
|---|---|---|
| `Js` | `js.dfy` | The JavaScript built-ins the code relies on, written out: `slice` with negative indices, `trim` with the ECMAScript whitespace set, `join`, `endsWith`, `includes`, `split(sep).pop()`, `String(n)`. |
| `Storage` | `storage.dfy` | The object store as two functions: `listFiles(prefix)` and `getFile(key)`. |
| `DocumentService` | `document_service.dfy` | Extension dispatch, `cleanText`, `chunkText`, `splitText`. |
| `Embedding` | `embedding.dfy` | `EmbeddingService`: a class with the `initialized` flag, lazy loading and the batch loop. |
| `Database` | `database.dfy` | `DatabaseModel`: a class holding the two tables in memory. It has the dimension checks, the cascade and the similarity search. |
| `UploadController` | `upload_controller.dfy` | The private window chunker and the `ingestFromMinIO` pipeline. |
| `MinioWatcher` | `minio_watcher.dfy` | `MinIOWatcherService`: the `knownFiles` set, the folder scans, per-file ingestion, and `start`/`stop`. |
| `RagService` | `rag_service.dfy` | `chat`, `buildContext`, prompt selection, the history window and the error fallback. |
| `ChatController` | `chat_controller.dfy` | The request validation and message normalisation of `chat`. |

**Collaborators.** The external collaborators become values:
- The object store is a pair of functions.
- The extraction libraries are four functions (`Extractors`).
- The embedding-model loader is a `Loader` parameter giving the loaded model or the load error.
- The cosine distance of pgvector is a `Metric`.
- `toFixed(1)` is a `Percent` function.
- The Ollama client is a `ChatModel` function.

A thrown error is modelled as the `Err`/`Fail` branch of a result carrying the error's message. A catch is a match on that result.

**Stateful parts.**
- The embedding service, the database and the watcher update fields in place, so each is a class.
- Their methods carry `modifies` clauses and state their new state.
- Their loops are `while` loops with invariants.
- Each loop is proved against a function of its inputs (`Windows`, `UploadRows`, `WatchRows`, `Discover`, `Listing`, `Batch`, `IngestAll`). The properties are then proved about those functions.

**Edge cases of the code that the model keeps:**
- A text no longer than `chunkSize` still gives two chunks when it is longer than `chunkSize - overlap`: the second window repeats the tail of the first. A text gives a single chunk only when its length is at most `chunkSize - overlap`. `ChunkSmallText` states the single-chunk case and `ShortTextSeveralChunks` the other.
- `insertDocument` is called by both ingestion routes but `database.model.ts` does not define it. It is modelled as appending a document under an id never used before, from a counter that also numbers the chunks.
- `cleanText` can leave a CRLF: its first `replace` turns each `\r\n` into `\n`, so `\r\r\n` becomes `\r\n`. `CleanTextRemovesCrlf` therefore assumes the input has no `\r\r`.

**Consequences of the code that the lemmas make visible:**
- `checkNewFiles` adds a key to `knownFiles` before ingesting it. A file whose ingestion fails is therefore never tried again (`CheckNewFiles`, `DiscoverIsNew`, `RescanFindsNothing`).
- When a later folder's listing throws, the keys found in earlier folders have already been marked known, but `ingestFiles` is never reached for them. They are never ingested (`CheckNewFiles`).
- Neither ingestion route rolls back. When an embedding fails, the document row and the earlier chunk rows stay (`IngestFromMinIO`, `IngestText`).

## Model

| member | source | states |
|---|---|---|
| Js.Slice | api/src/controllers/upload.controller.ts:94 | `s.slice(a, b)` is never longer than `s`, and is exactly `s[a..b]` when `0 <= a <= b <= len`. |
| Js.AfterLast | api/src/services/minio-watcher.service.ts:106 | `split(sep).pop()` is the longest suffix without `sep`: a suffix, free of `sep`, and preceded by `sep` unless it is the whole string. |
| Js.TrimFacts | api/src/controllers/upload.controller.ts:28-29 | `trim()` gives the empty string exactly when the input is all whitespace, and otherwise neither starts nor ends with whitespace. |
| Js.TrimIsInfix | api/src/controllers/upload.controller.ts:28 | `trim()` keeps a contiguous part of the input and loses no visible character. |
| Js.JoinSnoc | api/src/services/rag.service.ts:50 | Joining one more part appends the separator and that part. |
| DocumentService.Extension | api/src/services/document.service.ts:10 | The extension contains no `.` and is no longer than the file name. |
| DocumentService.ExtensionAfterLastDot | api/src/services/document.service.ts:10 | The extension of `base + "." + ext` is `ext` lower-cased, whatever `base` holds, dots included. |
| DocumentService.KindOf | api/src/services/document.service.ts:12-25 | A kind is given exactly for `pdf`, `docx`, `txt`, `xlsx` and `xls`. |
| DocumentService.Classify | api/src/services/document.service.ts:12-28 | The switch succeeds exactly for the five extensions, with their kind. Every other extension gives `Unsupported file type: <ext>`. |
| DocumentService.ClassifyIgnoresCaseAndBase | api/src/services/document.service.ts:10-28 | Dispatch depends only on the lower-cased text after the last dot. |
| DocumentService.SameExtensionSameKind | api/src/services/document.service.ts:10-28 | Two names with the same extension are dispatched alike. |
| DocumentService.UpperCasePdfIsPdf | api/src/services/document.service.ts:10-14 | Any `<name>.PDF` is read as a PDF. |
| DocumentService.ExtractText | api/src/services/document.service.ts:9-29 | An unsupported extension gives the unsupported-type error. Otherwise the library of the selected kind is applied. The `txt` case always succeeds with the UTF-8 decoding. |
| DocumentService.ReplaceCrlf | api/src/services/document.service.ts:59 | Replacing CRLF by LF keeps every visible character and starts with LF exactly when the input starts with LF or CRLF. |
| DocumentService.ReplaceCrlfRemovesCrlf | api/src/services/document.service.ts:59 | Without `\r\r` in the input, no `\r\n` is left. |
| DocumentService.CollapseRuns | api/src/services/document.service.ts:60-61 | The result is empty exactly when the input is. It starts with the run's replacement character (`\n` or a space) when the input starts inside a run, and otherwise with the input's first character. |
| DocumentService.CollapseRunsCollapses | api/src/services/document.service.ts:60-61 | After `/\n{2,}/` or `/[\t ]+/` no run is left: each replacement character is followed by a character outside the run. |
| DocumentService.CollapseRunsKeepsVisible | api/src/services/document.service.ts:60-61 | Collapsing runs loses no visible character. |
| DocumentService.CleanText | api/src/services/document.service.ts:56-63 | Empty input gives `''`. The output never has two consecutive `\n`, a tab, two consecutive spaces, or whitespace at either end, and keeps every visible character of the input in order. |
| DocumentService.CleanTextRemovesCrlf | api/src/services/document.service.ts:58-62 | An input without `\r\r` gives an output without `\r\n`. |
| DocumentService.Windows | api/src/services/document.service.ts:65-76 | The slices of the `while` loop. Their shape is stated by `ChunkAt`, `ChunkCount`, `ChunksCover` and `ChunksOverlap`. |
| DocumentService.NonEmptyOnly | api/src/services/document.service.ts:75 | `filter(Boolean)` keeps only non-empty chunks. |
| DocumentService.ChunkText | api/src/services/document.service.ts:65-76 | Terminates whenever `overlap < chunkSize` (defaults 500/100). The result is exactly the non-empty windows `Windows(text, chunkSize, overlap)`. |
| DocumentService.SplitText | api/src/services/document.service.ts:79-81 | The same windows with defaults 300/50. |
| DocumentService.ChunkAt | api/src/services/document.service.ts:69-73 | Chunk i is `text[i*(size-overlap) .. min(i*(size-overlap)+size, len))`, starts inside the text, and is non-empty and at most `size` long. |
| DocumentService.ChunkCount | api/src/services/document.service.ts:69-75 | There are `ceil(len/(size-overlap))` chunks, and `filter(Boolean)` removes none of them. |
| DocumentService.ChunkSmallText | api/src/services/document.service.ts:69-75 | Empty text gives no chunk. A text of at most `min(size, size-overlap)` characters is the single chunk `[text]`. |
| DocumentService.ShortTextSeveralChunks | api/src/services/document.service.ts:69-75 | With `0 < overlap`, a text longer than `size-overlap` but at most `size` gives at least two chunks: itself, then its tail from `size-overlap`. |
| DocumentService.ChunksCover | api/src/services/document.service.ts:69-73 | Every position p of the text lies in chunk `p/(size-overlap)`, at offset `p - i*(size-overlap)`. |
| DocumentService.ChunksOverlap | api/src/services/document.service.ts:69-73 | What follows the first `size-overlap` characters of chunk i is the beginning of chunk i+1. |
| Embedding.EmbedWith | api/src/services/embedding.service.ts:28-43 | A load failure is the embedding's error; otherwise the model's outcome for the text. |
| Embedding.EmbedAll | api/src/services/embedding.service.ts:45-52 | The loop over a loaded model, stopping at the first error. Its properties are stated by `EmbedAllPointwise`, `EmbedAllSucceedsIff` and `EmbedAllFirstError`. |
| Embedding.Batch | api/src/services/embedding.service.ts:45-52 | The batch as a whole, load included. Its failure point is stated by `BatchStopsAt`. |
| Embedding.EmbedAllPointwise | api/src/services/embedding.service.ts:45-52 | A successful batch has one vector per text, with `result[i]` the embedding of `texts[i]`. |
| Embedding.EmbedAllSucceedsIff | api/src/services/embedding.service.ts:45-52 | The batch succeeds exactly when every text embeds. |
| Embedding.EmbedAllFirstError | api/src/services/embedding.service.ts:46-50 | Without a per-item catch, the first failing text's error is the batch's error. |
| Embedding.BatchStopsAt | api/src/services/embedding.service.ts:46-50 | Once text i fails after earlier successes, the batch fails with that error, including a load failure on the first text. |
| Embedding.EmbeddingService.constructor | api/src/services/embedding.service.ts:6-12 | The model name defaults to `Xenova/all-MiniLM-L6-v2`, nothing is loaded, and the flag is false. |
| Embedding.EmbeddingService.Initialize | api/src/services/embedding.service.ts:14-26 | Once initialised, nothing changes. Otherwise a successful load stores the model and sets the flag. A failed load leaves everything as it was and passes its error on. |
| Embedding.EmbeddingService.GenerateEmbedding | api/src/services/embedding.service.ts:28-43 | Loads lazily, then returns the model's result for the text. The flag is set exactly when it was set before or the load succeeded. |
| Embedding.EmbeddingService.GenerateBatchEmbeddings | api/src/services/embedding.service.ts:45-52 | The result is the in-order batch of `generateEmbedding` calls. An empty batch loads nothing. |
| Database.Rank | api/src/models/database.model.ts:100 | `ORDER BY distance` is a permutation of the table in non-decreasing distance. |
| Database.Search | api/src/models/database.model.ts:82-107 | A query vector whose length is not 384 is rejected with `Query embedding dimension mismatch: n`. Otherwise `min(limit, rows)` hits are returned. |
| Database.LaterIdsAreFresh | api/src/services/minio-watcher.service.ts:107-112 | With increasing document ids, every document appended after position n has an id none of the first n has. |
| Database.SearchIsRankedPrefix | api/src/models/database.model.ts:94-101 | The hits are the first `limit` rows of the ranking, with `similarity = 1 - distance`. |
| Database.SearchOrderedBySimilarity | api/src/models/database.model.ts:98-100 | Similarity never increases down the hit list. |
| Database.SearchHitsAreStored | api/src/models/database.model.ts:94-101 | Every hit is a stored chunk. |
| Database.SearchIsTopK | api/src/models/database.model.ts:100-101 | No row left out is nearer than a row returned. |
| Database.ChunksNotOf | api/src/models/database.model.ts:43 | The chunks that survive a delete are exactly the chunks of other documents. |
| Database.DocumentsNot | api/src/models/database.model.ts:43 | The documents that survive a delete are exactly the other documents. |
| Database.CascadeKeepsReferences | api/src/models/database.model.ts:43 | After the cascade, every remaining chunk still references a remaining document. |
| Database.DatabaseModel.constructor | api/src/models/database.model.ts:29-49 | Both tables start empty and satisfy the table constraints. |
| Database.DatabaseModel.InsertDocument | api/src/services/minio-watcher.service.ts:107-112 | Appends exactly one document under an id not used before and returns that id. The chunks table is unchanged. |
| Database.DatabaseModel.InsertChunk | api/src/models/database.model.ts:63-80 | A wrong dimension fails with `Embedding dimension mismatch: n` before the insert. An unknown `document_id` fails with the foreign-key violation. Neither changes anything. Otherwise exactly one row with the given parameters is appended. The constraints, every embedding of length 384 among them, stay true. |
| Database.DatabaseModel.DeleteDocument | api/src/models/database.model.ts:43 | `ON DELETE CASCADE`: the document and exactly its chunks leave, in order, and no chunk references it afterwards. |
| Database.DatabaseModel.SearchSimilarChunks | api/src/models/database.model.ts:82-107 | With limit 5 by default, the query is rejected exactly when it is not 384 long, and otherwise gives `min(limit, chunks)` hits. |
| UploadController.KeptWindows | api/src/controllers/upload.controller.ts:89-100 | The non-blank windows. Its properties are stated by `NotBlankKeeps`, `KeptWindowsAreWindows` and `KeptWindowsNeverSkipped`. |
| UploadController.NotBlankKeeps | api/src/controllers/upload.controller.ts:95 | The kept windows are exactly the windows that are not all whitespace, and they are kept untrimmed. |
| UploadController.KeptWindowsAreWindows | api/src/controllers/upload.controller.ts:93-97 | Every kept window is some window `text[k*250 .. k*250+300)`, clamped to the text, non-empty and at most 300 long. |
| UploadController.NoWhitespaceKeepsAll | api/src/controllers/upload.controller.ts:95 | When no window starts with whitespace, none is dropped. |
| UploadController.TrimAll | api/src/controllers/upload.controller.ts:46 | The loop trims the chunks pointwise. |
| UploadController.StepOf | api/src/controllers/upload.controller.ts:46-61 | One turn of the loop does one of three things: it skips exactly an empty text, it stops with the embedding's error or `Embedding dimension invalid: n`, or it stores a 384-long embedding. |
| UploadController.UploadRows | api/src/controllers/upload.controller.ts:45-61 | Never more rows than chunks. The rest is stated by `UploadRowsAreSteps`, `UploadRowsStopsAtFirstFailure` and the other `UploadRows` lemmas. |
| UploadController.UploadRowsAreSteps | api/src/controllers/upload.controller.ts:45-61 | Every stored row holds the trimmed chunk under its own index i, with the embedding the model gave for it. |
| UploadController.UploadRowsIncreasing | api/src/controllers/upload.controller.ts:59 | Stored `chunk_index` values strictly increase. |
| UploadController.UploadRowsNoBlank | api/src/controllers/upload.controller.ts:45-61 | With no blank chunk, row i has index i, and without a failure every chunk is stored. |
| UploadController.UploadRowsAllStored | api/src/controllers/upload.controller.ts:45-68 | When every chunk yields a row, nothing fails and every chunk is stored. |
| UploadController.UploadRowsFailureSticks | api/src/controllers/upload.controller.ts:52-54 | After the first throw, later chunks add nothing. |
| UploadController.UploadRowsStopsAtFirstFailure | api/src/controllers/upload.controller.ts:49-54 | The first chunk that does not yield a row decides the error, and exactly the chunks before it are stored. |
| UploadController.KeptWindowsNeverSkipped | api/src/controllers/upload.controller.ts:46-47 | No kept window trims to empty, so the `continue` never fires on the chunker's output. |
| UploadController.IngestedCountsRows | api/src/controllers/upload.controller.ts:45-68 | Without a failure, one row is stored per chunk, so `totalChunks` is the number of rows. |
| UploadController.Prepare | api/src/controllers/upload.controller.ts:18-31 | A missing or empty `objectName` gives 400 `Thiếu objectName`. A download or extraction error gives a 500 with its message. An all-whitespace text gives 400 `File không có nội dung text`. Otherwise the buffer and the trimmed text are ready. |
| UploadController.PrepareTrimmed | api/src/controllers/upload.controller.ts:28-31 | The text that is ready neither starts nor ends with whitespace, and the no-text answer comes exactly for an all-whitespace extraction. |
| UploadController.UploadController.constructor | api/src/controllers/upload.controller.ts:8-13 | The controller holds the given collaborators. |
| UploadController.UploadController.ChunkText | api/src/controllers/upload.controller.ts:89-100 | The loop returns exactly the non-blank windows of the text (defaults 300/50). |
| UploadController.UploadController.StoreChunk | api/src/controllers/upload.controller.ts:46-61 | One turn: the step the specification function gives, and one row appended exactly when it is a row. |
| UploadController.UploadController.StoreChunks | api/src/controllers/upload.controller.ts:45-62 | The chunks table grows by exactly `UploadRows(...).rows`, and the failure is that function's. |
| UploadController.UploadController.IngestFromMinIO | api/src/controllers/upload.controller.ts:16-73 | An early 400 or 500 writes nothing. Otherwise it does three things. It adds one document with `filename = file_path = objectName`, `file_size = buffer.length` and content type `unknown`. It appends the rows of `UploadRows`, keeping them after a failure. It answers 500 with the first error, or `{documentId, totalChunks}`, where `totalChunks` is the number of chunks. |
| MinioWatcher.Prefix | api/src/services/minio-watcher.service.ts:45 | A folder's prefix starts with `chatbot courses/` and ends with `/`. |
| MinioWatcher.FileNameFacts | api/src/services/minio-watcher.service.ts:106 | The stored name is a suffix of the key, is non-empty for a non-empty key, and is either the whole key or free of `/`. |
| MinioWatcher.FileNameInFolder | api/src/services/minio-watcher.service.ts:106 | A key `chatbot courses/<folder>/<base>` is stored under the name `base`. |
| MinioWatcher.ListingStep | api/src/services/minio-watcher.service.ts:66-68 | Listing one more folder either throws with that listing's error or appends that folder's keys. |
| MinioWatcher.ListingFailureSticks | api/src/services/minio-watcher.service.ts:44-46 | After a listing throws, later folders are not listed. |
| MinioWatcher.ListingKeysListed | api/src/services/minio-watcher.service.ts:44-46 | Every scanned key came from the listing of one of the folders. |
| MinioWatcher.TrackedKeysAreCourseDocx | api/src/services/minio-watcher.service.ts:42-52 | With a store that lists only under the prefix asked for, every tracked key ends in `.docx` and lies under one of the three course prefixes. |
| MinioWatcher.Discover | api/src/services/minio-watcher.service.ts:70-75 | Every found key is a listed `.docx` key that was not known. |
| MinioWatcher.DiscoverComplete | api/src/services/minio-watcher.service.ts:70-75 | Every listed `.docx` key not known before is found. |
| MinioWatcher.DiscoverNoDuplicates | api/src/services/minio-watcher.service.ts:71-73 | No key is found twice. |
| MinioWatcher.DiscoverIsNew | api/src/services/minio-watcher.service.ts:66-76 | The found keys are exactly the listed `.docx` keys minus the known ones, and the new known set is the old one together with the listed `.docx` keys. |
| MinioWatcher.DiscoverAppend | api/src/services/minio-watcher.service.ts:66-76 | Scanning two listings in turn finds in the second only what the first neither knew nor found. |
| MinioWatcher.RescanFindsNothing | api/src/services/minio-watcher.service.ts:71-84 | A scan whose `.docx` keys are all known finds nothing, so nothing is ingested. |
| MinioWatcher.DiscoverTakesFirstOccurrence | api/src/services/minio-watcher.service.ts:70-75 | For any listing and known set, a key seen earlier in the listing adds nothing. A key's first occurrence is added exactly when it is a `.docx` key not known before. |
| MinioWatcher.Fetch | api/src/services/minio-watcher.service.ts:94-103 | The download-extract-clean step gives one of three outcomes: the error of whichever call threw, the empty-text skip, or the buffer with its non-empty cleaned text. |
| MinioWatcher.FileName | api/src/services/minio-watcher.service.ts:106 | `split('/').pop() \|\| objectName`. Its properties are stated by `FileNameFacts` and `FileNameInFolder`. |
| MinioWatcher.Listing | api/src/services/minio-watcher.service.ts:44-46 | The folder loop's listing, folder by folder, stopping at the first error. Its properties are stated by `ListingStep`, `ListingFailureSticks` and `ListingKeysListed`. |
| MinioWatcher.WatchRows | api/src/services/minio-watcher.service.ts:115-126 | Never more rows than chunks. The rest is stated by `WatchRowsInOrder` and `WatchRowsFailureSticks`. |
| MinioWatcher.OutcomeOf | api/src/services/minio-watcher.service.ts:94-131 | A stored outcome carries the id of the document it was stored under. |
| MinioWatcher.OutcomeOfAccounts | api/src/services/minio-watcher.service.ts:94-131 | The outcome of a fetch result is the one `Accounts` prescribes: the fetch error, the skip, the first chunk error, or a document with one row per chunk. |
| MinioWatcher.Step | api/src/services/minio-watcher.service.ts:89-131 | One more file adds its own outcome and leaves the earlier outcomes as they were. |
| MinioWatcher.IngestAll | api/src/services/minio-watcher.service.ts:88-133 | One outcome per file. |
| MinioWatcher.IngestAllAccounts | api/src/services/minio-watcher.service.ts:88-133 | Outcome i is what `Accounts` prescribes for the fetch result of file i alone: the catch keeps one file's error from affecting another's. |
| MinioWatcher.IngestAllOwnsRows | api/src/services/minio-watcher.service.ts:107-125 | Every chunk row, and every stored outcome, references one of the documents added by the run. |
| MinioWatcher.IngestAllSnoc | api/src/services/minio-watcher.service.ts:89-131 | The run over one more file is the run over the earlier files followed by that file's step, under the next document's id when it has text. |
| MinioWatcher.WatchRowsFailureSticks | api/src/services/minio-watcher.service.ts:117-126 | After the first throw, later chunks add nothing. |
| MinioWatcher.WatchRowsInOrder | api/src/services/minio-watcher.service.ts:115-126 | Row i holds chunk i under index i with its 384-long embedding. Without a failure every chunk is stored. |
| MinioWatcher.MinIOWatcherService.constructor | api/src/services/minio-watcher.service.ts:7-15 | The watcher starts with no known file, no interval and no armed timer. |
| MinioWatcher.MinIOWatcherService.LoadExistingFiles | api/src/services/minio-watcher.service.ts:41-56 | Adds exactly the listed `.docx` keys and ingests nothing. It throws with the first listing error, keeping the keys of the folders listed before. |
| MinioWatcher.MinIOWatcherService.TrackDocx | api/src/services/minio-watcher.service.ts:48-52 | The `forEach` adds exactly the `.docx` keys. |
| MinioWatcher.MinIOWatcherService.ScanFolders | api/src/services/minio-watcher.service.ts:62-76 | `newFiles` is `Discover` of the listing against the old known set, and the known set grows by exactly those keys. |
| MinioWatcher.MinIOWatcherService.MarkNew | api/src/services/minio-watcher.service.ts:70-75 | The inner loop finds `Discover` of the listing and marks those keys known. |
| MinioWatcher.MinIOWatcherService.StoreChunkAt | api/src/services/minio-watcher.service.ts:117-126 | One turn extends the stored rows from `WatchRows` of the first i chunks to that of the first i+1. |
| MinioWatcher.MinIOWatcherService.StoreChunks | api/src/services/minio-watcher.service.ts:117-126 | The chunks table grows by exactly `WatchRows(...).rows`, and the failure is that function's. |
| MinioWatcher.MinIOWatcherService.IngestText | api/src/services/minio-watcher.service.ts:106-128 | Adds one document with the last path segment as its name, the key as its path, the buffer length and the `.docx` content type. It then appends the rows of `chunkText(text, 300, 50)`. It reports the first error, or one row per chunk. |
| MinioWatcher.MinIOWatcherService.IngestFile | api/src/services/minio-watcher.service.ts:90-131 | The outcome is `OutcomeOf` the fetch result, under the new document's id. A failed download or extraction, or an empty text, writes nothing. A non-empty text adds exactly one document and its rows. |
| MinioWatcher.MinIOWatcherService.IngestNext | api/src/services/minio-watcher.service.ts:89-131 | One turn of the `for` loop extends the run over the first i files to the run over the first i+1, as `IngestAll` prescribes. |
| MinioWatcher.MinIOWatcherService.IngestFiles | api/src/services/minio-watcher.service.ts:88-133 | One outcome per file, each explained independently of the other files' errors. Exactly one document is added per file with a non-empty text, under a fresh id. The new documents, the chunk rows and the outcomes are exactly those `IngestAll` gives, and the earlier tables are kept as a prefix. |
| MinioWatcher.MinIOWatcherService.CheckNewFiles | api/src/services/minio-watcher.service.ts:59-85 | The known set becomes the old one together with `newFiles`, which are the new `.docx` keys in listing order. A listing error or no new file ingests nothing. Otherwise the new documents, chunk rows and outcomes are exactly those `IngestAll` gives for `newFiles`, and every outcome is explained. |
| MinioWatcher.MinIOWatcherService.Start | api/src/services/minio-watcher.service.ts:18-28 | Loads the existing files first and arms a fresh interval only when that load succeeds. |
| MinioWatcher.MinIOWatcherService.Stop | api/src/services/minio-watcher.service.ts:31-36 | Disarms the interval exactly when one was set, and changes nothing else. |
| RagService.BuildContext | api/src/services/rag.service.ts:43-51 | `buildContext`. Its properties are stated by `BuildContextSnoc`, `BuildContextStartsWithFirst` and `BuildContextBlankIffNoHits`. |
| RagService.GenerateResponse | api/src/services/rag.service.ts:53-104 | The request to the chat model and the catch. Its properties are stated by `RequestShape` and `Reply`. |
| RagService.Answer | api/src/services/rag.service.ts:23-41 | `chat(messages)`. Its properties are stated by `AnswerRejectsIllFormed`, `AnswerAsksTheModel` and `AnswerPassesRetrievalErrors`. |
| RagService.Block | api/src/services/rag.service.ts:47 | A block starts with `[Tài liệu i+1]\n` followed by the chunk's content. |
| RagService.Blocks | api/src/services/rag.service.ts:46-48 | One block per hit, in order, block i labelled `i+1`. |
| RagService.BuildContextSnoc | api/src/services/rag.service.ts:46-50 | One more hit appends the `\n\n` separator and its block. |
| RagService.BuildContextStartsWithFirst | api/src/services/rag.service.ts:46-50 | A context with hits opens with `[Tài liệu 1]` and the first hit's content. |
| RagService.BuildContextBlankIffNoHits | api/src/services/rag.service.ts:43-51 | The context is whitespace-only exactly when there is no hit. |
| RagService.UserPrompt | api/src/services/rag.service.ts:67-81 | A whitespace-only context selects the not-found prompt, any other the context prompt. |
| RagService.PromptsCarryTheQuestion | api/src/services/rag.service.ts:70-80 | The not-found prompt starts with the question and ends with the not-found note. The context prompt starts with the header and the context and ends with the question. |
| RagService.PromptsDiffer | api/src/services/rag.service.ts:69-81 | The two prompts never coincide. |
| RagService.History | api/src/services/rag.service.ts:88 | `slice(-4, -1)` is the up to three messages just before the last one, in order: `min(3, n-1)` of them, ending just before the last message. |
| RagService.ToLlm | api/src/services/rag.service.ts:88 | The history keeps each message's role and content, in order. |
| RagService.RequestShape | api/src/services/rag.service.ts:84-92 | The request has `2 + min(3, n-1)` messages: the system prompt, the messages just before the last in order, then the user prompt. |
| RagService.Reply | api/src/services/rag.service.ts:94-103 | A reply passes. An error whose message contains `model` becomes the fixed apology. Any other error is thrown again. |
| RagService.AnswerRejectsIllFormed | api/src/services/rag.service.ts:25-28 | An empty conversation, or one not ending with a user message, gives `Invalid message format`. |
| RagService.AnswerAsksTheModel | api/src/services/rag.service.ts:30-34 | The chat model is asked about the last message's content, with the context of `min(5, rows)` hits. The not-found prompt is used exactly when the chunks table is empty. |
| RagService.AnswerPassesRetrievalErrors | api/src/services/rag.service.ts:31-32 | An embedding error, or a query of the wrong dimension, is passed on unchanged. |
| RagService.RAGService.constructor | api/src/services/rag.service.ts:11-21 | The service holds the given database, embedder, chat client and model name. |
| RagService.RAGService.Chat | api/src/services/rag.service.ts:23-41 | The result is `Answer` of the conversation with the embedder's model and the current chunks table. A rejected conversation leaves the embedder untouched. |
| ChatController.Get | api/src/controllers/chat.controller.ts:18-19 | A property is read only from an object that has it. |
| ChatController.ToJsString | api/src/controllers/chat.controller.ts:19 | `String(value)` throws `Cannot convert object to primitive value` exactly for an object with its own `toString` key, or an array holding one at any depth. A string is itself, and an array is its elements' strings joined by `,`, with null elements empty. |
| ChatController.Normalize | api/src/controllers/chat.controller.ts:17-20 | The callback throws exactly when the element is null or its content has no primitive value, with the TypeError's message. The role is `user` exactly when the element's role is the string `user`. Falsy content becomes `''`, other content its `String` form. |
| ChatController.NormalizeAll | api/src/controllers/chat.controller.ts:17-20 | The `messages.map`. Its properties are stated by `NormalizeAllKeepsOrder`. |
| ChatController.NormalizeAllKeepsOrder | api/src/controllers/chat.controller.ts:17-20 | The map throws exactly when the callback throws on some element, and otherwise keeps length and order. |
| ChatController.HandleChat | api/src/controllers/chat.controller.ts:8-31 | `chat(req, res)`. Its properties are stated by `MissingMessagesRejected`, `UnprintableContentGivesServerError`, `ResponsesAreFixedOrAnswers` and `AssistantLastGivesServerError`. |
| ChatController.MissingMessagesRejected | api/src/controllers/chat.controller.ts:12-15 | A body without a non-empty `messages` array gets 400 `Tin nhắn không hợp lệ`, whatever the RAG service would answer. |
| ChatController.UnprintableContentGivesServerError | api/src/controllers/chat.controller.ts:17-29 | A message whose content `String()` cannot convert, such as `{"toString": "x"}`, gives the generic 500 without consulting the RAG service. |
| ChatController.ResponsesAreFixedOrAnswers | api/src/controllers/chat.controller.ts:8-31 | Every response is a 200, 400 or 500. A 200 comes exactly when the messages are valid and the RAG service answers, and carries that answer. Every 500 carries the fixed message and never the internal error text. |
| ChatController.AssistantLastGivesServerError | api/src/controllers/chat.controller.ts:17-30 | A last message whose role is not `user` is normalised to an assistant message, and the client gets the generic 500. So does a map that throws first. |

## Left out

- `checkUploadStatus` and `listMinIOFiles` of the upload controller are left out. They are reporting queries over the tables and the bucket and change nothing.
- The rest of `database.model.ts` is left out: the connection pool, the DDL of `initialize`, and the ivfflat index. The model's search is therefore exact: `Database.Search`'s `min(limit, rows)` hits, `SearchIsTopK`, and `AnswerAsksTheModel`'s not-found prompt exactly for an empty table hold for exact search only, and an ivfflat scan with the default probes can return fewer or other rows. Only the table constraints the DDL states (foreign key with cascade, `VECTOR(384)`) are modelled, as an invariant.
- The pgvector cosine distance `<=>` is a `Metric` parameter, and `toFixed(1)` is a `Percent` parameter. Floating-point arithmetic and formatting are not modelled.
- The extraction libraries are opaque functions: pdf-parse, mammoth, and XLSX with its sheet-to-CSV join. So are the model loader (`pipeline(...)`) and the Ollama client, whose host is part of the `ChatModel` function.
- `setInterval` timing is not modelled. A scan is one call of `CheckNewFiles`, and an interval is a timer id in the `armed` set.
- The promise that `checkNewFiles` rejects inside the interval callback is not modelled. It goes unhandled in the source. In the model it is the `failure` result of `CheckNewFiles`.
- Console logging is left out.
- Concurrent runs are left out: two scans overlapping under `await`, or a scan running beside a manual ingest. Each call is modelled as running to completion.
- `toLowerCase` is modelled on ASCII letters only. This is exact for matching the five extensions. Only the text of the unsupported-type message may differ for non-ASCII extensions.
- String lengths are counted in characters, not the UTF-16 code units of JavaScript. This changes window boundaries only for text outside the Basic Multilingual Plane.
- ChatController.ToJsString: a number is written in plain decimal. JavaScript writes an integer of magnitude `1e21` or more in exponent form (`1e+21`), so that content text differs.
- JSON numbers are integers, and `NaN` never occurs. A thrown value that is not an `Error` is modelled as an error with a message.
- `ingest.controller.ts`, `minio.model.ts` and the route files are not part of this model. The MinIO client stands behind the `ObjectStore` functions.
- Document and chunk ids are natural numbers from one counter, standing in for `gen_random_uuid()`. `uploaded_at` and `created_at` are left out.
- Embedding.Loader: the load is a function of the model name, so a failed load fails the same way on every later try. The source retries `pipeline(...)`, a network download, on each `generateEmbedding` call while uninitialised, and a retry may succeed.
- UploadController.Prepare: `objectName` is an `Option<string>`. The source accepts any JSON value there; a truthy value that is not a string passes the 400 check and ends in a 500 from the download.
- Database.Rank: ties in distance are broken by table order. SQL `ORDER BY ... LIMIT` leaves the order of ties unspecified. `SearchIsRankedPrefix` fixes that one order. `SearchIsTopK` and `SearchOrderedBySimilarity` hold for any order of ties.
- MinioWatcher.FileNameFacts: states what the stored name is (a non-empty suffix that is the whole key or contains no `/`), not the full `split('/').pop() \|\| objectName` definition. That definition is `Js.AfterLast` with its own contract.
- DocumentService.CleanTextRemovesCrlf: assumes the input has no `\r\r`. The code turns `\r\r\n` into `\r\n`, so the statement without that assumption is false.
