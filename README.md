# PDF Analyst: a Dafny model of the retrieval pipeline

This project models the core of the PDF Analyst service, a FastAPI application that:
- answers questions about uploaded PDF documents;
- splits each PDF's page texts into overlapping chunks;
- stores one embedding per chunk in a FAISS index;
- retrieves the closest chunks for a question;
- builds a budgeted context for a chat model from them.

Each core source file becomes one Dafny module. Where the source changes state step by step, the module does too.

- `Config` (core/config.py): the numeric limits, the comma-splitting of the host and origin lists, and the two storage paths under the data directory.
- `FileUtils` (utils/file_utils.py): filename and text sanitising, the size check, and the PDF check.
- `Schemas` (models/schemas.py): the record shapes, and the validation and sanitising of a question request.
- `PdfProcessor` (services/pdf_processor.py):
  - page extraction over the page texts the PDF library returns;
  - the sliding-window `chunk_text` loop;
  - the nested loops of `process_pdf` that flatten pages into two aligned lists.
- `VectorStore` (services/vector_store.py): the `VectorStoreService` class with its fields, methods and invariant. It covers:
  - batched embedding requests;
  - `add_documents` with its capacity guard;
  - `search` with its guards and result loop;
  - `save`, `get_stats` and `add_document_metadata`.
- `QuestionAnswering` (services/question_answering.py): the context-building loop with its early exit, the chat call with its error mapping, and the source previews.
- `Upload` (routers/upload.py): the `/upload` route. It covers:
  - the file checks;
  - the completion of per-chunk metadata with `chunk_id`s;
  - `pages_processed`;
  - the per-document record;
  - the order of the store updates.
- `Builtins` models the Python built-ins the source relies on:
  - `str.isspace`, and `str.isprintable` as an approximation;
  - `strip`;
  - slicing with negative bounds;
  - `rfind`, `split` and `join`;
  - `str(int)`;
  - `x or default`;
  - character filters.
- `Http` holds the `HTTPException` value and the `Result` of an operation.
  - `Failure` is a raised `HTTPException`.
  - `Crash` is any other exception, which the routes turn into a 500.

The remote services are oracles, passed as function values:
- **OpenAI embeddings:** a text-to-vector function plus, per batch, the exception a request raises, if any.
- **Chat completion:** a reply function plus the exception it raises.
- **FAISS:** a normalisation function plus a search function that returns scored positions.
- **The PDF library:** the sequence of raw page texts, or None when the file cannot be opened.

Methods that call an oracle also return the requests they sent. This lets contracts state the order of those requests, and that some paths send none.

## Model

| member | source | states |
|---|---|---|
| Config.ParseListSetting | core/config.py:39-51 | A list value is returned unchanged. A string is split on ","; joining the parts with "," gives back the string, no part holds a comma, and there is one more part than there are commas. |
| Config.VectorDbPath | core/config.py:53-56 | The vector database path is the data directory extended by the one component "vector_db". |
| Config.MetadataPath | core/config.py:58-61 | The metadata path is the data directory extended by the one component "metadata.json". |
| Config.StorePathsDistinct | core/config.py:53-61 | The two storage paths under the data directory differ. |
| FileUtils.SanitizeFilename | utils/file_utils.py:43-45 | The result holds at most 255 characters, all from `[A-Za-z0-9._-]`, so it has no path separator. It is a prefix of the input's safe characters. |
| FileUtils.SanitizeFilenameIdempotent | utils/file_utils.py:43-45 | Sanitising a sanitised filename changes nothing. |
| FileUtils.SanitizeText | utils/file_utils.py:71 | Every character of the result is printable or whitespace, and the result is a subsequence of the input. |
| FileUtils.SanitizeTextKeeps | utils/file_utils.py:71 | A character occurs in the result exactly when it occurs in the input and is printable or whitespace. Such a character occurs in the result as many times as in the input; any other character occurs 0 times. With the subsequence property of `SanitizeText`, this fixes the result exactly. |
| FileUtils.SanitizeTextIdempotent | utils/file_utils.py:71 | Sanitising sanitised text changes nothing. |
| FileUtils.ValidateFileSize | utils/file_utils.py:111 | True exactly when the content is non-empty and at most the limit. |
| FileUtils.Lower | utils/file_utils.py:21 | Lower-cases the ASCII letters A-Z and keeps every other character, so the length is kept. This is exact for the ".pdf" test only (see Left out). |
| FileUtils.ValidatePdfFile | utils/file_utils.py:21-29 | Accepted exactly when the lower-cased name ends in ".pdf" and the guessed type is `application/pdf`. An accepted name has at least four characters, the fourth from the end being '.'. |
| Schemas.SanitizeQuestion | models/schemas.py:12-16 | The sanitised question is printable throughout and has no leading or trailing whitespace. It is a subsequence of the raw question, so it is no longer. |
| Schemas.StrippedPrintable | models/schemas.py:15-16 | Stripping the printable characters of a string leaves only printable characters, in their original order. |
| Schemas.SanitizeQuestionIdempotent | models/schemas.py:15-16 | Sanitising a sanitised question changes nothing. |
| Schemas.ValidateQuestionRequest | models/schemas.py:7-16 | A request is accepted exactly when the raw question has 1 to 1000 characters and `max_results` is null, omitted or in 1..20. A rejection names exactly the failing fields. An accepted request carries the sanitised question, and `max_results` defaults to 5 when omitted. |
| Schemas.BlankQuestionAccepted | models/schemas.py:9-16 | A question of three spaces passes the length check and is sanitised to the empty string. |
| Builtins.OrDefault | services/pdf_processor.py:81-82 | `x or default` on an optional int: None and 0 give the default; any other value is kept. |
| Builtins.StripEmptyIffBlank | services/pdf_processor.py:43 | `text.strip()` is empty exactly when the text is whitespace only. |
| Builtins.StripIsSlice | services/pdf_processor.py:49 | `strip` returns a slice of the text with only whitespace on either side of it. |
| Builtins.StripIdempotent | models/schemas.py:16 | Stripping a stripped string changes nothing. |
| Builtins.RFindIsLast | services/pdf_processor.py:96 | `rfind` returns the last index holding the character, or -1; no later index holds it. |
| Builtins.JoinSplit | core/config.py:43 | Joining the parts of a split with the separator gives back the string. |
| Builtins.SplitParts | core/config.py:43 | A split has one more part than the string has separators, and no part holds the separator. |
| Builtins.JoinLength | services/question_answering.py:43 | A join is as long as its parts plus one separator between each two of them. |
| Builtins.NatToStringInjective | routers/upload.py:90 | Different page numbers or chunk indexes print differently. |
| Builtins.FilterMembership | utils/file_utils.py:71 | A character occurs in a filtered string exactly when it occurs in the input and is kept. |
| Builtins.FilterKeepsAll | utils/file_utils.py:44 | Filtering a string whose every character is kept changes nothing. |
| Builtins.FilterCount | utils/file_utils.py:71 | A filter keeps every occurrence of a kept character and drops every occurrence of any other. |
| Builtins.DistinctCardinality | routers/upload.py:100 | The set of a sequence without repetitions has as many elements as the sequence. |
| PdfProcessor.ChunkText | services/pdf_processor.py:65-108 | The `chunk_text` loop returns `Chunks` of the text, with sizes None or 0 replaced by the defaults. A text no longer than the chunk size comes back as the one chunk `[text]`, unstripped. |
| PdfProcessor.NextWindow | services/pdf_processor.py:91-99 | One window: the chunk and the new end, cut at the last space when the window is not at the end of the text and that space lies beyond half the chunk size. |
| PdfProcessor.ChunkStep | services/pdf_processor.py:91-105 | One iteration appends one chunk and moves the start to `end - overlap`, leaving the rest of the loop's result unchanged. |
| PdfProcessor.ChunkLoopWindows | services/pdf_processor.py:87-105 | The loop's chunks are, in order, the stripped cuts of the windows its starts trace. |
| PdfProcessor.ChunksAreChunksOf | services/pdf_processor.py:84-105 | On text longer than the chunk size, the chunks are the stripped cuts of the windows traced from offset 0. |
| PdfProcessor.SpansFromCount | services/pdf_processor.py:90 | After `count` chunks, at most `MAX_CHUNKS_PER_DOCUMENT - count` more windows are traced. |
| PdfProcessor.ChunkCountBound | services/pdf_processor.py:90-101 | One call returns at most `MAX_CHUNKS_PER_DOCUMENT` (1000) chunks, for any sizes, even when the start makes no progress. |
| PdfProcessor.ChunksNonEmpty | services/pdf_processor.py:84-105 | With a non-negative chunk size there is always at least one chunk. |
| PdfProcessor.CutChunkWidth | services/pdf_processor.py:91-99 | A cut window never holds more than `chunk_size` characters. |
| PdfProcessor.ChunkLengthBound | services/pdf_processor.py:91-101 | No chunk is longer than `chunk_size`. |
| PdfProcessor.DefaultsWellConfigured | services/pdf_processor.py:81-82 | The default sizes are positive, and the default overlap is at most half the chunk size. |
| PdfProcessor.CutFacts | services/pdf_processor.py:91-99 | The window `[start, end)` is `text[start:end]`, with `start + chunk_size // 2 < end <= start + chunk_size`. |
| PdfProcessor.SpansFacts | services/pdf_processor.py:90-105 | With `0 <= overlap <= chunk_size // 2`, the windows start inside the text and have the cut's width bounds. Each next start is the previous end minus the overlap, so starts strictly increase. |
| PdfProcessor.SpansEndAtCut | services/pdf_processor.py:95-102 | Every traced window ends where the cut of its start ends. |
| PdfProcessor.ChunksAreWindows | services/pdf_processor.py:91-105 | Every chunk is `strip(text[start:end])` of its window, with `end - start <= chunk_size`. |
| PdfProcessor.SpansCover | services/pdf_processor.py:90-105 | Unless the cap stops the loop, every offset from the start on lies in some window. |
| PdfProcessor.ChunksCoverText | services/pdf_processor.py:90-105 | With a well-configured overlap and fewer chunks than the cap, the windows cover every index of the text. |
| PdfProcessor.GatherIncreasing | services/pdf_processor.py:39-51 | Kept pages come with strictly increasing page numbers. |
| PdfProcessor.GatherComplete | services/pdf_processor.py:39-51 | Every page within the limit that passes the filter is kept. |
| PdfProcessor.ExtractTextWithPages | services/pdf_processor.py:19-62 | An unreadable document raises 400 "Invalid PDF file or corrupted content". Otherwise the loop returns the extracted pages. |
| PdfProcessor.ExtractedPagesFacts | services/pdf_processor.py:37-51 | Only the first `min(page_count, 500)` pages are read. A page is kept exactly when its raw text is not whitespace-only, with its 1-based number, in increasing order. Its content is `strip(sanitize_text(raw))`, and its character count is the length of the sanitised text before stripping. |
| PdfProcessor.ControlOnlyPageKept | services/pdf_processor.py:43-51 | A page holding only a NUL character is kept, with empty content and a character count of 0. |
| PdfProcessor.PageMetadata | services/pdf_processor.py:138-145 | A page with n chunks contributes n entries, carrying the page's number and chunk indexes 0..n-1. |
| PdfProcessor.AppendPage | services/pdf_processor.py:138-145 | The inner loop appends the page's chunks and their metadata entries. |
| PdfProcessor.ProcessPdf | services/pdf_processor.py:111-151 | An unreadable document gives the extraction error. No kept page gives 400 "No extractable text content found in PDF". Otherwise the result is the pages' chunks and metadata, flattened page by page. |
| PdfProcessor.AllChunksAligned | services/pdf_processor.py:132-145 | The chunk and metadata lists have equal length, between the page count and 1000 times the page count. The cap applies per page. |
| PdfProcessor.AllMetadataOrdered | services/pdf_processor.py:135-145 | With increasing pages, the entries are ordered by page and then by chunk index, and lie between the first and last page. |
| PdfProcessor.AllMetadataPageNumbers | services/pdf_processor.py:135-145 | The page numbers in the metadata are exactly those of the pages. |
| VectorStore.EmbeddingError | services/vector_store.py:57-74 | A rate limit becomes 429. Authentication and any other failure become 500. |
| VectorStore.BatchesCover | services/vector_store.py:45-46 | The batches cover the texts in order, each holding 1 to 100 texts. |
| VectorStore.EmbedLoopResult | services/vector_store.py:45-52 | Resuming the batching loop at any offset gives the embeddings of the remaining texts, or the first exception. It sends the remaining batches up to the first that raises. |
| VectorStore.EmbeddingsResult | services/vector_store.py:40-74 | `create_embeddings` returns one vector per text, that text's own, in order, unless a request raises. Then it raises the mapped error of the first request that raised. |
| VectorStore.EmbeddingsShape | services/vector_store.py:40-74 | `create_embeddings` raises only `HTTPException`s, and on success returns as many vectors as texts. |
| VectorStore.RequestedAll | services/vector_store.py:45-52 | When no request raises, every batch is sent, in order. |
| VectorStore.RequestedStops | services/vector_store.py:45-57 | Otherwise the batches are sent in order up to the first that raises, which is the last sent and raised the reported exception. |
| VectorStore.SingleRequest | services/vector_store.py:133 | Embedding the query sends exactly one request holding the query. |
| VectorStore.SearchK | services/vector_store.py:124-138 | `search_k` is `min(k or 5, ntotal, 20)`, so it is at most `ntotal` and at most 20. |
| VectorStore.CrashPersists | services/vector_store.py:141-147 | Once the result loop raises, the whole search raises. |
| VectorStore.CollectCrashes | services/vector_store.py:141-147 | The result loop never raises an `HTTPException`. It succeeds exactly when every in-range position has metadata, and raises `IndexError` otherwise. |
| VectorStore.CollectKeptRows | services/vector_store.py:141-147 | The results are the in-range rows in index order. Each pairs `chunks[idx]` with `metadata[idx]` and the row's score. |
| VectorStore.KeptRowsOrdered | services/vector_store.py:141-142 | The kept rows are in increasing order, and every in-range row is kept. |
| VectorStore.SearchResultsFacts | services/vector_store.py:137-147 | With aligned lists, a search succeeds, and each result pairs `chunks[idx]` and `metadata[idx]` for some `0 <= idx < len(chunks)`. When the index returns at most `search_k` rows, there are at most `min(k or 5, ntotal, 20)` results. |
| VectorStore.KeptCountBound | services/vector_store.py:141-142 | Distinct kept row indexes below n number at most n. |
| VectorStore.ValuesInOrderFacts | services/vector_store.py:235 | `list(document_metadata.values())` lists each document's record in insertion order. |
| VectorStore.OrderCardinality | services/vector_store.py:232 | The document map has as many keys as the insertion order has entries. |
| VectorStore.VectorStoreService.constructor | services/vector_store.py:20-28 | The store starts with no index, no chunks, no metadata, no documents, and nothing saved. It satisfies the invariant. |
| VectorStore.VectorStoreService.CreateEmbeddings | services/vector_store.py:30-74 | The batching loop returns `Embeddings` and sends `Requests`. |
| VectorStore.VectorStoreService.AddDocuments | services/vector_store.py:76-111 | Empty input changes nothing. Exceeding 10000 chunks raises 413 before any request and changes nothing. An embedding error changes nothing. Success creates the index if absent, appends one normalised vector per chunk, and appends the chunks and metadata. The invariant `index_size == len(chunks) <= 10000` is kept. |
| VectorStore.VectorStoreService.Search | services/vector_store.py:113-150 | An absent or empty index, or a blank query, returns `[]` without a request. Otherwise one request holds the query, and its error is raised. The results are those of the result loop over the index's rows for `search_k`. |
| VectorStore.VectorStoreService.Save | services/vector_store.py:152-180 | The index file is written only when the index exists. The chunks, metadata and document map are always written. Nothing in memory changes. |
| VectorStore.VectorStoreService.AddDocumentMetadata | services/vector_store.py:238-247 | Only `doc_id` is inserted or overwritten. A new key goes last in the order; an overwritten one keeps its place. The invariant is kept. |
| VectorStore.VectorStoreService.GetStats | services/vector_store.py:224-236 | The stats count the documents and chunks and report the index's `ntotal` (0 with no index). On a consistent store the index size equals the chunk count, at most 10000, and one record is listed per document. |
| VectorStore.StatsConsistent | services/vector_store.py:224-236 | `get_stats` reports an index size equal to the chunk count (0 with no index) and at most 10000. It lists one record per document in insertion order, as many as `total_documents`. |
| QuestionAnswering.FormatPart | services/question_answering.py:37 | A context part is the content preceded by "[Page n]: ", which is 9 characters plus the digits of n. |
| QuestionAnswering.CutFromFacts | services/question_answering.py:36-41 | From any point within budget, the loop stops at a count whose parts are within budget. Unless it reached the end, the next part would overflow. |
| QuestionAnswering.ContextPartsFit | services/question_answering.py:33-41 | The context parts are the formatted prefix of the chunks, in order, totalling at most 4000 characters. They stop only where the next part would overflow. |
| QuestionAnswering.LongestFittingPrefix | services/question_answering.py:36-41 | No longer prefix fits the budget, so the loop never skips an overflowing chunk to take a shorter one. |
| QuestionAnswering.ContextLength | services/question_answering.py:38-43 | The separators are not counted against the budget. The joined context can exceed 4000 characters by two per separator. |
| QuestionAnswering.BuildContext | services/question_answering.py:33-41 | The context loop with its early `break` returns `ContextParts`. |
| QuestionAnswering.ChatError | services/question_answering.py:74-91 | A rate limit becomes 429. Authentication and any other failure become 500. |
| QuestionAnswering.GenerateAnswer | services/question_answering.py:18-91 | No chunks returns the fixed "No relevant information..." answer without calling the model. Otherwise the model gets the question and the context parts joined by blank lines. Its error is mapped, and its reply is returned stripped. |
| QuestionAnswering.PreviewFacts | services/question_answering.py:106-108 | A preview is the content when it fits. Otherwise it is a prefix of the content plus "...": the first `max_content_length` characters when that bound is not negative, so at most `max_content_length + 3` characters. |
| QuestionAnswering.PrepareSources | services/question_answering.py:93-118 | One source per chunk, in order, with the preview as content. The page number, filename, chunk id and score are copied from the chunk. |
| Upload.SizeFailure | routers/upload.py:56-63 | A refused size raises 400 exactly for empty content, and 413 exactly for content over the limit. |
| Upload.SplitAtSeparator | routers/upload.py:90 | A digit string followed by a non-digit separator splits an id in one way only. |
| Upload.ChunkIdInjective | routers/upload.py:90 | Within one document, distinct (page, index) pairs give distinct `chunk_id`s. |
| Upload.CompletedMetadata | routers/upload.py:83-93 | One completed entry per partial entry, in order, with page number and chunk index copied. Every entry carries the document's id, filename and hash, and `chunk_id = doc_id_page_p_chunk_i`. |
| Upload.CompleteMetadata | routers/upload.py:83-93 | The completion loop returns `CompletedMetadata`. |
| Upload.ChunkIdsDistinct | routers/upload.py:83-93 | The chunk ids of a document processed from increasing pages are pairwise distinct. |
| Upload.PageNumbersCount | routers/upload.py:100 | Pages with increasing numbers have as many distinct page numbers as pages. |
| Upload.PageSetCompleted | routers/upload.py:100 | Completion keeps the set of page numbers. |
| Upload.PagesProcessedCount | routers/upload.py:100 | `pages_processed` equals the number of pages kept by extraction. |
| Upload.DocumentRecord | routers/upload.py:103-110 | The stored record has the page count, `chunks_count = len(chunks)`, `file_size = len(file_content)`, and the filename, hash and upload time. |
| Upload.StoreDocument | routers/upload.py:96-112 | The store calls run in the route's order: add the chunks, save, add the record. A capacity or embedding error leaves the store as it was. On success the saved document map lacks the new document. |
| Upload.UploadPdf | routers/upload.py:26-135 | The failures come in order: invalid type (400), a refused size (400/413), a temporary-file failure (500), the processing errors. Each leaves the store unchanged and sends no request. Otherwise the outcome is as `StoreDocument` states for the document's chunks and completed metadata. |

## Left out

- Settings are the defaults as constants. Reading them from the environment or `.env`, and `OPENAI_API_KEY`, are not modelled.
- Settings that no modelled operation reads are left out: the model names, `RATE_LIMIT_REQUESTS`, `ENVIRONMENT`, the default host and origin lists, and the value of `DATA_DIR`. The storage paths take the data directory as a parameter.
- The directory creation in `model_post_init` is not modelled.
- PyMuPDF (`fitz.open`, `get_text`, `close`) is replaced by the sequence of raw page texts. Any exception while opening or reading the file is the one error result.
- The OpenAI calls are oracles. The prompt wording, the model parameters and the response structure are not modelled.
- FAISS is an oracle. Vectors are opaque. `normalize_L2`, inner-product scoring, numpy arrays and float32 arithmetic are not modelled.
- VectorStore.SearchResultsFacts: the bound of `min(k or 5, ntotal, 20)` results depends on FAISS. It is stated only for an index that returns at most `k` rows.
- QuestionAnswering.PrepareSources: does not model `round(score, 4)`; the score is copied as is.
- `load` (services/vector_store.py:182-222) is not modelled: it only restores files with pickle and JSON, and swallows errors.
- VectorStore.VectorStoreService.Save: writes to the default paths only. The custom `path` argument and the swallowed I/O errors are not modelled.
- The `dimension` field (1536) is not modelled: vectors are opaque, and the embedding oracle does not check their dimension.
- Builtins.IsPrintable: approximates Python's `str.isprintable`. It uses the control ranges, the format ranges as of Unicode 15, and the private-use and separator ranges. It treats unassigned code points (category Cn) as printable, where Python does not, so `Schemas.SanitizeQuestion` keeps them.
- FileUtils.Lower: lower-cases ASCII letters only. Python also lower-cases other letters ('É' to 'é'), and maps 'İ' (U+0130) to two code points. The `.pdf` test stays exact: no character outside ASCII lower-cases to a string ending in '.', 'p', 'd' or 'f'. So the last four characters of the lower-cased name are ".pdf" exactly when the name ends in '.' followed by p, d and f in either case.
- `format_file_size` is not modelled because of its floating-point formatting. The 413 detail uses its value for the default limit, "50.0 MB".
- `calculate_file_hash` (SHA-256), `mimetypes.guess_type`, `uuid4` and `datetime` are parameters of the route.
- `processing_time` is left out of the upload response.
- Upload.UploadPdf: the temporary file is a flag saying whether writing it raises. Its content and its cleanup in `finally` are not modelled.
- Logging, the slowapi rate limiter, FastAPI routing and dependency injection are not modelled. So are the routers in routers/query.py, whose handlers only forward to the services.
- The one store is shared across requests without locks. The model is sequential calls on one instance.
