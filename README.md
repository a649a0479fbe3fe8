# Multi-tenant RAG backend: text, validation and retrieval core in Dafny

This project models the core of a multi-tenant retrieval-augmented
question-answering backend, and proves properties of that model. The backend's
core does five things:

- It extracts the text of PDF pages and splits it into overlapping chunks of at
  most `chunk_size` characters. Cuts go at sentence, paragraph or word boundaries.
- It attaches numbered metadata to every chunk and uploads the chunks into a
  per-tenant namespace of a vector store.
- It answers a question by retrieving the nearest chunks of the tenant's
  namespace, building a numbered context, and prompting a generator.
- It validates the `X-Tenant-ID` header and derives the namespace from it.
- It validates request bodies and reads a few settings.

Modules (one per source file, plus shared helpers):

| file | module | models |
|---|---|---|
| `wrappers.dfy` | `Wrappers` | `Option` and `Result` |
| `text.dfy` | `PyText` | the Python `str` operations the code uses: `strip`, ASCII `lower`, slicing with index normalisation, `rfind`, `split`, `join`, `str(n)` |
| `config.dfy` | `Config` | `Settings` defaults, `is_production`, `cors_origins` |
| `security.dfy` | `Security` | `validate_tenant_id`, `sanitize_namespace`, `sanitize_text_input` |
| `schemas.dfy` | `Schemas` | field bounds and validators of the upload and query requests |
| `splitter.dfy` | `Splitter` | `SimpleTextSplitter.split_text`, as an imperative method proved against a step function |
| `splitter_props.dfy` | `SplitterProperties` | bounds, cut priority, order, provenance and progress of the splitter |
| `splitter_examples.dfy` | `SplitterExamples` | three concrete runs: a plain text, an input on which the loop stalls, and an input on which the loop as written steps back to a negative cursor and still finishes |
| `pdf_parser.dfy` | `PdfParser` | the page join of `extract_text_from_pdf`, `chunk_text`, `process_pdf` |
| `rag_service.dfy` | `RagService` | `query`, `_build_context`, `_format_sources`, the prompt of `_generate_answer`, `upload_documents_batch`, and the upsert log of the vector store |

The splitter loop of the source can run forever. A Dafny function must
terminate, so `Splitter.SplitFrom` follows the loop step by step. It returns
`Finished(chunks)` when the cursor reaches the end of the text. At the first
step whose next cursor is not past the current one, it returns
`NoProgress(chunks, cursor, next)`. From there the source either repeats the
same step forever (when `next` equals the cursor) or restarts from the smaller
cursor `next`, which may be negative, where Python reads that start bound from
the end of the text; such a restarted run can finish. A flag `clamp` selects the
corrected cursor update, `max(end - chunk_overlap, start + 1)`. `chunk_text`
and `process_pdf` use the corrected update. `SplitterProperties.ClampedAgrees`
shows that it returns exactly the source's chunks wherever the source's cursor
advances at every step. Where the source steps back and then finishes, the
results differ: on `"hello\n" + "x"*2000` the source returns three chunks and
the corrected loop eight (`SplitterExamples.SteppingBack`).

Points where the code's behaviour is easy to misread:

- The code tries the separators `". "`, `"! "`, `"? "`, `"\n\n"` and `"\n"`, then
  the last space, then a raw cut. It does not reject a sentence end that lies
  within `chunk_overlap` of the window start.
- The code has no forward-progress clamp and never checks that
  `chunk_overlap < chunk_size`.
- The namespace is the tenant id lower-cased and sanitised, not the tenant id
  itself.

## Model

| member | source | states |
|---|---|---|
| Splitter.SplitFrom | backend/app/services/pdf_parser.py:30-52 | the loop from a cursor, one window per step, stopping at the end of the text or where the cursor stops advancing; its properties are stated by the `SplitterProperties` lemmas below |
| Splitter.WindowEnd | backend/app/services/pdf_parser.py:31-45 | the window end after the boundary search; stated by `WindowEndBounds`, `SeparatorPriority` and `SpaceFallback` |
| Splitter.SplitText | backend/app/services/pdf_parser.py:21-54 | the `while` loop, with its cursor, window end and chunk list, returns exactly the run `SplitFrom(text, 0)` describes: the chunks of every step until the cursor reaches the end or stops advancing |
| Splitter.FindWindowEnd | backend/app/services/pdf_parser.py:31-45 | the `for`/`else` separator search with `break`, then the space fallback, computes the window end `WindowEnd` |
| SplitterProperties.EmptyText | backend/app/services/pdf_parser.py:23-24 | empty text gives no chunks, and the run finishes |
| SplitterProperties.WindowEndBounds | backend/app/services/pdf_parser.py:31-45 | a window cut before the end of the text ends in `[start, start + chunk_size]`, and strictly after `start` for a positive size; the last window keeps the raw end |
| SplitterProperties.SeparatorCutBounds | backend/app/services/pdf_parser.py:36-40 | a separator cut lies just past an occurrence inside the window, so in `[start + 1, end]`; with no separator in the window there is no cut |
| SplitterProperties.SeparatorCutFirst | backend/app/services/pdf_parser.py:36-40 | the first separator in the list that occurs in the window decides the cut, whatever later ones do; the cut is just past its last occurrence inside the window |
| SplitterProperties.SeparatorPriority | backend/app/services/pdf_parser.py:36-45 | for the fixed separator list: if separator `i` occurs and no earlier one does, the window ends just past separator `i`'s last occurrence in the window |
| SplitterProperties.SpaceFallback | backend/app/services/pdf_parser.py:41-45 | with no separator in the window, the window ends just after its last space; with no space either, it is the raw cut at `start + chunk_size` |
| SplitterProperties.WindowChunkLength | backend/app/services/pdf_parser.py:47 | a window's stripped chunk is never longer than `chunk_size` |
| SplitterProperties.ChunksWellFormed | backend/app/services/pdf_parser.py:47-49 | every emitted chunk is non-empty, has no leading or trailing whitespace, and is at most `chunk_size` long (when that is not negative), whether or not the loop finishes |
| SplitterProperties.FinalWindow | backend/app/services/pdf_parser.py:34-52 | when the window reaches the end of the text, no boundary is searched, the chunk is the stripped rest of the text, and the loop stops |
| SplitterProperties.CursorsIncrease | backend/app/services/pdf_parser.py:47-52 | the cursors at which the kept chunks were cut lie in the text from the starting cursor on, and strictly increase |
| SplitterProperties.ChunkProvenance | backend/app/services/pdf_parser.py:47-52 | chunk `k` is the stripped slice of the text from cursor `k` to that window's end |
| SplitterProperties.WindowChunkOccurs | backend/app/services/pdf_parser.py:47 | every chunk occurs in the text, at an offset the lemma returns |
| SplitterProperties.NoProgressCursor | backend/app/services/pdf_parser.py:30-52 | a run that stops advancing does so at a cursor it reached, not before the start, with a next cursor not past it; it stops at the starting cursor exactly when that step's next cursor is not past it |
| SplitterProperties.StallCondition | backend/app/services/pdf_parser.py:52 | the loop as written stops advancing at a cursor exactly when the window ends before the text and at most `chunk_overlap` characters after the cursor |
| SplitterProperties.CutBeyondOverlapFinishes | backend/app/services/pdf_parser.py:30-52 | if, from every cursor, the window reaches the end or ends more than `chunk_overlap` after the cursor, the loop finishes |
| SplitterProperties.NoOverlapFinishes | backend/app/services/pdf_parser.py:52 | with a positive chunk size and no overlap, the loop as written always finishes |
| SplitterProperties.RawWindow | backend/app/services/pdf_parser.py:31-45 | where the text has no spaces or newlines from some position on, every window starting there is the raw cut at `start + chunk_size` |
| SplitterProperties.NoBreaksProgress | backend/app/services/pdf_parser.py:31-52 | for text without spaces or newlines, the loop as written finishes when `chunk_overlap < chunk_size` |
| SplitterProperties.NoBreaksStall | backend/app/services/pdf_parser.py:31-52 | and conversely, with `chunk_overlap >= chunk_size` it stalls at the first cursor |
| SplitterProperties.ClampedFinishes | backend/app/services/pdf_parser.py:52 | with the corrected cursor update the loop always finishes |
| SplitterProperties.ClampedAgrees | backend/app/services/pdf_parser.py:52 | wherever the loop as written advances at every step until it finishes, the corrected loop returns the same chunks |
| SplitterExamples.StallWindows | backend/app/services/pdf_parser.py:36-40 | on the stalling input, the windows from cursors 0 and 102 both end just after the only sentence end, at 302 |
| SplitterExamples.DefaultSplitterStalls | backend/app/services/pdf_parser.py:52 | with chunk size 1000 and overlap 200, `"a"*300 + ". " + "b"*2000` gives two chunks, then the cursor stays at 102; the corrected loop finishes |
| SplitterExamples.FirstStallChunk | backend/app/services/pdf_parser.py:47-49 | the first chunk of the stalling run is the 300 `a`s and the period, without the trailing space |
| SplitterExamples.SteppingBack | backend/app/services/pdf_parser.py:29-52 | on `"hello\n" + "x"*2000` with chunk size 1000 and overlap 200, the source emits "hello", its cursor falls back to -194; there the start -194 counts from the end (1812) and lies past the end bound 806, so the window is empty, and the cursor moves to 606 and finishes: three chunks in all, "hello", 1000 `x`s and 600 `x`s; the corrected loop gives eight chunks: the five suffixes of "hello", then 1000, 1000 and 400 `x`s |
| SplitterExamples.HelloWindow | backend/app/services/pdf_parser.py:31-45 | on that text, every window from a cursor up to the newline ends just after the newline |
| SplitterExamples.ClampedFromHello | backend/app/services/pdf_parser.py:29-52 | on that text, the corrected loop from any cursor up to the newline emits every remaining suffix of "hello", drops the blank newline chunk, then cuts the `x`s into 1000, 1000 and 400 |
| SplitterExamples.PlainTextScenario | backend/app/services/pdf_parser.py:21-54 | 2500 plain characters with chunk size 1000 and overlap 200 give three chunks, `[0:1000]`, `[800:1800]` and `[1600:2500]` |
| PdfParser.NewPdfParser | backend/app/services/pdf_parser.py:62-65 | the parser's splitter takes its chunk size and overlap from the settings |
| PdfParser.DefaultParser | backend/app/services/pdf_parser.py:62-65 | with default settings, the parser splits with a 1000-character window and a 200-character overlap |
| PdfParser.DefaultParserStalls | backend/app/services/pdf_parser.py:52 | the parser built from default settings, with the loop as written, stalls on the 2302-character input |
| PdfParser.NonBlankPages | backend/app/services/pdf_parser.py:89-93 | every kept page is non-blank, and a page text is kept exactly when some page with that text is non-blank |
| PdfParser.NonBlankPagesOrder | backend/app/services/pdf_parser.py:89-93 | the kept pages are the pages at a strictly increasing list of indices, which are exactly the indices of the non-blank pages: page order and repeated pages are kept |
| PdfParser.ExtractText | backend/app/services/pdf_parser.py:89-95 | the page loop keeps the pages whose stripped text is not empty, and joins them with a blank line |
| PdfParser.ExtractedTextBlank | backend/app/services/pdf_parser.py:89-95 | the extracted text is blank exactly when every page is blank |
| PdfParser.ChunkMetadata | backend/app/services/pdf_parser.py:125-129 | a chunk's metadata; stated by `ChunkMetadataEntries` |
| PdfParser.ChunkMetadataEntries | backend/app/services/pdf_parser.py:125-129 | a chunk's metadata has `chunk_index`, `total_chunks` and the caller's keys; the caller's values win on a clash |
| PdfParser.ChunkRecords | backend/app/services/pdf_parser.py:124-133 | one record per chunk, in order, each holding the chunk's text unchanged |
| PdfParser.ChunkRecordMetadata | backend/app/services/pdf_parser.py:124-133 | record `i` has `chunk_index == i` and `total_chunks ==` the chunk count, unless the caller's metadata sets those keys; every caller entry is present |
| PdfParser.NumberChunks | backend/app/services/pdf_parser.py:123-133 | the numbering loop builds exactly those records |
| PdfParser.ChunkText | backend/app/services/pdf_parser.py:107-136 | `chunk_text` splits with the parser's splitter and numbers the chunks |
| PdfParser.PdfMetadata | backend/app/services/pdf_parser.py:166-170 | the document metadata; stated by `PdfMetadataEntries` |
| PdfParser.PdfMetadataEntries | backend/app/services/pdf_parser.py:166-170 | the document metadata has `filename` and `source = "pdf"`, unless the additional metadata overrides them; every additional entry is present |
| PdfParser.ProcessPdf | backend/app/services/pdf_parser.py:159-176 | a reader error becomes the parse error; otherwise it fails with "no text" exactly when every page is blank; on success it returns the numbered records of the joined text's chunks, with the document metadata, and every chunk is well formed |
| Security.ValidateTenantId | backend/app/core/security.py:20-52 | the header check; stated by `ValidateTenantIdAccepts`, `ValidateTenantIdRejects` and `ValidateTrimmed` |
| Security.StrippedPatternMatch | backend/app/core/security.py:43 | after `strip`, the pattern `^[a-zA-Z0-9_-]+$` matches exactly the non-empty strings of class characters; its newline case cannot arise |
| Security.ValidateTenantIdAccepts | backend/app/core/security.py:33-52 | a header is accepted exactly when, once stripped, it has only `[a-zA-Z0-9_-]` characters and 3 to 64 of them; the result is the stripped header |
| Security.ValidateTenantIdRejects | backend/app/core/security.py:33-50 | a missing or empty header gives "Missing"; a blank one gives "cannot be empty"; a bad character gives the format error before the length is checked; otherwise a bad length gives the length error |
| Security.ValidateTrimmed | backend/app/core/security.py:37-52 | a trimmed non-empty value is checked for format, then length, and returned as it is |
| Security.ValidateTenantIdExamples | backend/tests/test_rag.py:49-56 | "invalid@tenant!" and the short "a!" get the format error, "ab" gets the length error, "test-tenant" is accepted |
| Security.SanitizeNamespace | backend/app/core/security.py:65-71 | with ASCII lower-casing, the namespace has the id's length and only `[a-z0-9_-]` characters; for validated ids, which are ASCII, this is the source's behaviour |
| Security.SanitizeNamespaceIdempotent | backend/app/core/security.py:65-71 | sanitising a namespace again changes nothing |
| Security.NamespaceOfWellFormed | backend/app/core/security.py:65-71 | for an accepted id, the namespace is the id lower-cased |
| Security.NamespaceCollision | backend/app/core/security.py:66-69 | two accepted ids share a namespace exactly when they are equal ignoring letter case |
| Security.NamespaceNotInjective | backend/app/core/security.py:66 | "Acme" and "acme" are both accepted, differ, and share one namespace |
| Security.SanitizeTextInput | backend/app/core/security.py:88-102 | blank text is refused; otherwise the stripped text is returned if it fits `max_length` (checked after stripping), else the too-long error |
| Security.SanitizeTextInputIdempotent | backend/app/core/security.py:88-102 | sanitising accepted text again returns it unchanged |
| Schemas.ValidateStringField | backend/app/models/schemas.py:11-28 | a string field is accepted exactly when its raw length is within bounds and it is not blank; the value is then stripped, non-empty and within the maximum; a refusal names the first failing check: too short, then too long, then blank |
| Schemas.ValidateUploadText | backend/app/models/schemas.py:11-28 | the upload text field; stated by `ValidateStringField`, `UploadTextRejected`, `UploadLengthBeforeStrip` and `UploadTextIsSanitized` |
| Schemas.UploadTextRejected | backend/app/models/schemas.py:11-28 | empty upload text fails the minimum length, and blank text within the bounds fails the blank check |
| Schemas.UploadLengthBeforeStrip | backend/app/models/schemas.py:11-16 | the 50000 bound applies before stripping: `"x"` followed by 50000 spaces is refused though its stripped form has length 1 |
| Schemas.UploadTextIsSanitized | backend/app/models/schemas.py:22-28 | accepted upload text passes `sanitize_text_input` with the default limit unchanged |
| Schemas.ValidateTopK | backend/app/models/schemas.py:49-54 | `top_k` is accepted exactly when it is missing or in `1..20`, and is kept as given; below 1 it is refused as less than 1, above 20 as greater than 20 |
| Schemas.ValidateQueryRequest | backend/app/models/schemas.py:40-62 | a query is accepted exactly when the question has raw length 1 to 1000 and is not blank and `top_k` is valid; the question is returned stripped; a refusal lists the question's error, if it has one, then the `top_k` error, if it has one, and nothing else |
| Schemas.EmptyQuestionRejected | backend/app/models/schemas.py:43-48 | the empty question is refused, first for its minimum length |
| Config.IsProduction | backend/app/core/config.py:60-63 | `is_production`; stated by `IsProductionIgnoresCase` and `IsProductionExamples` |
| Config.IsProductionIgnoresCase | backend/app/core/config.py:60-63 | `is_production` does not depend on letter case |
| Config.IsProductionExamples | backend/app/core/config.py:60-63 | "PRODUCTION" and "Production" are production, and the default "development" is not |
| Config.CorsOrigins | backend/app/core/config.py:65-68 | there is one origin per comma-separated piece: the number of commas plus one |
| Config.CorsOriginsPieces | backend/app/core/config.py:65-68 | origin `k` is piece `k` stripped, and holds no comma |
| Config.CorsOriginsSingle | backend/app/core/config.py:65-68 | a setting without commas gives one origin, `[""]` for the empty string |
| Config.CorsOriginsOfJoin | backend/app/core/config.py:65-68 | trimmed, comma-free origins joined with commas are parsed back into the same list |
| Config.DefaultOriginsJoined | backend/app/core/config.py:52-55 | the default setting is the two local origins joined by a comma |
| Config.DefaultOriginsClean | backend/app/core/config.py:52-55 | neither default origin holds a comma or surrounding whitespace |
| Config.DefaultCorsOrigins | backend/app/core/config.py:52-68 | the default setting yields `["http://localhost:3000", "http://localhost:8000"]` |
| Config.DefaultChunking | backend/app/core/config.py:47-49 | the default overlap (200) is below the default chunk size (1000), and `top_k_results` defaults to 5 |
| RagService.EffectiveTopK | backend/app/services/rag_service.py:113-114 | a given `top_k` is used as it is, and a missing one becomes the configured `top_k_results` |
| RagService.DefaultTopK | backend/app/services/rag_service.py:113-114 | with default settings, a missing `top_k` retrieves 5 documents |
| RagService.Query | backend/app/services/rag_service.py:96-151 | `query`; stated by `QueryRetrievalFails`, `QueryEmptyRetrieval`, `QueryAnswered`, `QueryDependsOnNamespace` and `CaseVariantsShareResults` |
| RagService.QueryEmptyRetrieval | backend/app/services/rag_service.py:128-134 | when the search succeeds with no documents, the fixed answer, no sources and the unchanged question are returned, whatever the generator and the score formatting would do |
| RagService.QueryRetrievalFails | backend/app/services/rag_service.py:118-126 | an embedder error is the query's error whatever the search would do; otherwise a search error is the query's error |
| RagService.QueryAnswered | backend/app/services/rag_service.py:136-151 | when the search returns documents, the query succeeds exactly when the generator does on the prompt over their context; it returns the stripped output, the formatted sources and the unchanged question, or the generator's error unchanged |
| RagService.QueryDependsOnNamespace | backend/app/services/rag_service.py:119-126 | two tenants with the same namespace get the same result |
| RagService.CaseVariantsShareResults | backend/app/services/rag_service.py:119-126 | "Acme" and "acme" get the same query result |
| RagService.SourcePreview | backend/app/services/rag_service.py:225 | the preview is the first `min(200, len)` characters followed by `"..."`, which is appended even to short text |
| RagService.FormattedSources | backend/app/services/rag_service.py:221-228 | one source per document, in order, with the id copied and the score the rounding of the document's score (0 when missing) |
| RagService.SourceText | backend/app/services/rag_service.py:225 | source `i`'s text is the document text's first `min(200, len)` characters followed by `"..."` |
| RagService.FormatSources | backend/app/services/rag_service.py:211-228 | the loop builds exactly those sources |
| RagService.ContextParts | backend/app/services/rag_service.py:163-167 | one context part per document |
| RagService.ContextNumbering | backend/app/services/rag_service.py:163-167 | part `i` is `"[Document n] (Relevance: s)\n"` followed by the document's text, where `n` reads back as `i + 1` |
| RagService.ContextAppend | backend/app/services/rag_service.py:163-169 | adding a document adds its part after a blank line |
| RagService.Context | backend/app/services/rag_service.py:163-169 | the context; stated by `ContextParts`, `ContextNumbering`, `ContextAppend` and `BuildContext` |
| RagService.BuildContext | backend/app/services/rag_service.py:153-169 | the loop builds the parts in order and joins them with a blank line |
| RagService.Prompt | backend/app/services/rag_service.py:182-192 | the prompt; stated by `PromptLayout` and `PromptInjective` |
| RagService.PromptLayout | backend/app/services/rag_service.py:182-192 | the prompt is the fixed instructions, then the context, then the `"Question: "` line, and it ends with `"Answer:"` |
| RagService.PromptInjective | backend/app/services/rag_service.py:182-192 | for contexts of equal length, the prompt determines the context and the question |
| RagService.GenerateAnswer | backend/app/services/rag_service.py:194-209 | a generator failure is passed on unchanged; a generator success gives a success whose answer is the generator's output stripped of surrounding whitespace |
| RagService.GeneratedAnswerStripped | backend/app/services/rag_service.py:203 | the answer is trimmed, occurs in the generator's output, and is empty exactly when the output is blank |
| RagService.Zip | backend/app/services/rag_service.py:84 | `zip` pairs the elements position by position, as many pairs as the shorter sequence has |
| RagService.Texts | backend/app/services/rag_service.py:77 | the texts sent to the batch embedder are the chunks' texts, in order |
| RagService.DocMetadata | backend/app/services/pinecone_service.py:58-62 | a stored vector's metadata; stated by `DocMetadataEntries` |
| RagService.DocMetadataEntries | backend/app/services/pinecone_service.py:58-62 | the metadata has `text`, `tenant_id` and the caller's keys; the caller's values win on a clash |
| RagService.BatchVectors | backend/app/services/rag_service.py:84-91 | the vectors a batch upload adds, one per pair, with ids from the store's size on |
| RagService.VectorStore.UpsertDocument | backend/app/services/pinecone_service.py:50-82 | unless the index refuses it, one vector is appended to the log, in the tenant's sanitised namespace, with the document metadata, and its id is returned; a refusal is returned as the error and stores nothing; ids stay positions |
| RagService.VectorStore.IdsUnique | backend/app/services/pinecone_service.py:56 | no two stored vectors share an id, the property the source's random `uuid4` ids are relied on for |
| RagService.FirstRefusal | backend/app/services/rag_service.py:84-91 | the position of the first upsert the index refuses, or the number of upserts: every earlier one is accepted |
| RagService.UploadDocumentsBatch | backend/app/services/rag_service.py:59-94 | an embedder error stores nothing and is the error; otherwise the pairs of the zip are upserted in chunk order, each with the chunk's metadata, up to the first refused one, and the pairs before it stay stored; the upload succeeds exactly when none is refused, and then returns the vectors' ids in order, each of which looks up its own stored vector, else the refusal's error |

## Left out

- PDF reading (`PdfReader`, `page.extract_text`) is foreign code. The pages' text, or the reader's error message, is a parameter of `ProcessPdf`.
- Embedding, vector search, generation, and the float score formatting (`{score:.2f}`, `round(score, 4)`) are collaborators passed in as functions. The first three return an error message where the source's call raises, and whether the index refuses each upsert is a parameter. Similarity ranking, `max_tokens` and `temperature` are not modelled.
- Python's `str.strip()` strips Unicode whitespace. The model's whitespace set (`PyText.IsSpace`) is the set `str.isspace()` is taken to accept; this is an assumption, not proved parity. `lower()` is modelled for ASCII letters only.
- Security.SanitizeNamespace: Python lower-cases some non-ASCII letters to a different length or to ASCII ("İ" to two code points, the Kelvin sign to "k"); the model lower-cases ASCII letters only, so its length and character-class promises hold for the source only on ASCII ids, which include every validated id.
- `re.match` with `$` is modelled with its match before a final newline. After `strip` that case cannot arise (`Security.StrippedPatternMatch`).
- Vector ids: the store gives random `uuid4` ids. The model uses a vector's position in the log instead.
- Splitter.SplitText: its loop is proved equal to `SplitFrom` from cursor 0, so it stops at the same first non-advancing step as the next line describes.
- Splitter.SplitFrom: the loop as written does not terminate when the cursor stops advancing. The model stops there with `NoProgress` and does not follow the source when it goes on from a smaller cursor, whether positive or negative (where Python reads the start bound from the end of the text).
- PdfParser.ProcessPdf: on a text where the source's cursor stops advancing, `process_pdf` either repeats the same step forever, its chunk list growing until memory runs out when the repeated chunk is not blank and the call spinning without growing it when it is, or restarts from a smaller, possibly negative, cursor and may finish with other chunks than the model's (`SplitterExamples.SteppingBack`: three against eight). In every such case the model returns `Success` with the corrected loop's chunks.
- PdfParser.ChunkText: uses the corrected cursor update, so the loop always finishes. `SplitterProperties.ClampedAgrees` shows that this gives the source's own result only where the source's cursor advances at every step; where the source steps back and still finishes, the two results differ (`SplitterExamples.SteppingBack`).
- Settings loading from the environment or `.env`, and the `lru_cache` of `get_settings`, are I/O. Only the default values and the two derived properties are modelled.
- `upload_document` (the single-document upload) is one embedding call plus one `UpsertDocument`, which is modelled.
- The rest of the vector store wrapper is not modelled: connecting, querying, namespace statistics and tenant deletion are network calls.
- HTTP routing, dependencies and application start-up (`routes.py`, `dependencies.py`, `main.py`) are not part of this model. The same goes for the exception-to-status mapping, logging, the embeddings module and the index set-up script.
- Chunks are stripped and cut at boundaries, so removing the overlaps does not give back the text; no coverage property is stated.

## Findings

| source | as written | input that shows it | evidently intended | confidence | as-written member | corrected member |
|---|---|---|---|---|---|---|
| backend/app/services/pdf_parser.py:52 | `start = end - self.chunk_overlap` with no progress guard: when the window ends before the text and at most `chunk_overlap` characters after `start`, the cursor does not advance. If `end - chunk_overlap == start` the same step repeats forever; otherwise the loop restarts from a smaller, possibly negative, cursor (Python then reads a negative start bound from the end of the text) and may finish with chunks other than those of a forward-only run | `"a"*300 + ". " + "b"*2000` with chunk size 1000 and overlap 200 (the defaults): cursor 0, then 102, then 102 again, forever. `"hello\n" + "x"*2000`: cursor 0, then -194, then 606, and three chunks | the cursor always moves forward: `max(end - chunk_overlap, start + 1)` | not executed | SplitterExamples.DefaultSplitterStalls | SplitterProperties.ClampedFinishes |
