/**
 * The `/upload` route (routers/upload.py): the file checks, the completion
 * of the per-chunk metadata with the document's identity, the count of pages
 * processed, the per-document record, and the order in which the store is
 * updated and saved. The document id (`uuid4`), the file hash (SHA-256), the
 * upload time and the pages the PDF library reads from the saved file are
 * parameters.
 */
module Upload {
  import opened Builtins
  import opened Http
  import Config
  import opened Schemas
  import FileUtils
  import PdfProcessor
  import VectorStore

  const INVALID_FILE_TYPE: HttpError := HttpError(400, "Invalid file type. Only PDF files are allowed")
  const EMPTY_FILE: HttpError := HttpError(400, "Empty file uploaded")
  /** The 413 detail names `format_file_size(MAX_FILE_SIZE)`: 52428800 bytes
      are exactly 50 MiB, which that helper prints as "50.0 MB". */
  const FILE_TOO_LARGE: HttpError := HttpError(413, "File too large. Maximum size is 50.0 MB")
  /** What any exception other than an `HTTPException` becomes. */
  const PROCESSING_FAILED: HttpError := HttpError(500, "Error processing PDF file")
  const UPLOADED := "PDF uploaded and processed successfully"

  // ---------------------------------------------------------------------
  // The size check
  // ---------------------------------------------------------------------

  /** The error raised when `validate_file_size` refuses the content: 400 for
      an empty file, 413 for one over the limit. */
  function SizeFailure(content: seq<bv8>): (e: HttpError)
    requires !FileUtils.ValidateFileSize(content, Config.MAX_FILE_SIZE)
    ensures e.status == 400 <==> |content| == 0
    ensures e.status == 413 <==> |content| > Config.MAX_FILE_SIZE
  {
    if |content| == 0 then EMPTY_FILE else FILE_TOO_LARGE
  }

  // ---------------------------------------------------------------------
  // Metadata completion
  // ---------------------------------------------------------------------

  /** The `chunk_id` of a chunk: the document id, then the page number and
      the chunk index, each after its label. */
  function ChunkId(docId: string, pageNumber: nat, chunkIndex: nat): string {
    docId + "_page_" + NatToString(pageNumber) + "_chunk_" + NatToString(chunkIndex)
  }

  /** The length of the run of decimal digits at the start of `s`. */
  function DigitRun(s: string): nat {
    if s == [] || !('0' <= s[0] <= '9') then 0 else 1 + DigitRun(s[1..])
  }

  /** The digit run of a digit string followed by a non-digit is that string. */
  lemma {:induction false} DigitRunOf(a: string, rest: string)
    requires IsDigits(a) && rest != [] && !('0' <= rest[0] <= '9')
    ensures DigitRun(a + rest) == |a|
  {
    if a != [] {
      assert (a + rest)[1..] == a[1..] + rest;
      DigitRunOf(a[1..], rest);
    }
  }

  /** A digit string followed by a separator that does not start with a
      digit splits a string in one way only. */
  lemma SplitAtSeparator(a: string, sep: string, x: string, b: string, y: string)
    requires IsDigits(a) && IsDigits(b) && sep != [] && !('0' <= sep[0] <= '9')
    requires a + sep + x == b + sep + y
    ensures a == b && x == y
  {
    var s := a + sep + x;
    assert s == a + (sep + x) && s == b + (sep + y);
    DigitRunOf(a, sep + x);
    DigitRunOf(b, sep + y);
    assert a == s[..|a|] == b;
    assert x == s[|a| + |sep|..] == y;
  }

  /** Distinct (page, index) pairs of one document get distinct ids. */
  lemma ChunkIdInjective(docId: string, p: nat, i: nat, q: nat, j: nat)
    requires ChunkId(docId, p, i) == ChunkId(docId, q, j)
    ensures p == q && i == j
  {
    var head := docId + "_page_";
    var left := NatToString(p) + "_chunk_" + NatToString(i);
    var right := NatToString(q) + "_chunk_" + NatToString(j);
    assert ChunkId(docId, p, i) == head + left;
    assert ChunkId(docId, q, j) == head + right;
    assert left == (head + left)[|head|..];
    assert right == (head + right)[|head|..];
    SplitAtSeparator(NatToString(p), "_chunk_", NatToString(i), NatToString(q), NatToString(j));
    NatToStringInjective(p, q);
    NatToStringInjective(i, j);
  }

  /** The full metadata of one chunk. */
  function Complete(docId: string, filename: string, fileHash: string, partial: PdfProcessor.PartialMetadata)
    : ChunkMetadata
  {
    ChunkMetadata(docId, filename, partial.pageNumber, partial.chunkIndex,
                  ChunkId(docId, partial.pageNumber, partial.chunkIndex), fileHash)
  }

  /** The completed metadata list: one entry per partial entry, in order, with
      its page number and chunk index, and the document's id, filename and
      hash on every entry. */
  function CompletedMetadata(docId: string, filename: string, fileHash: string,
                             partial: seq<PdfProcessor.PartialMetadata>): (m: seq<ChunkMetadata>)
    ensures |m| == |partial|
    ensures forall i | 0 <= i < |m| ::
              && m[i].pageNumber == partial[i].pageNumber && m[i].chunkIndex == partial[i].chunkIndex
              && m[i].documentId == docId && m[i].filename == filename && m[i].fileHash == fileHash
              && m[i].chunkId == ChunkId(docId, partial[i].pageNumber, partial[i].chunkIndex)
  {
    seq(|partial|, i requires 0 <= i < |partial| => Complete(docId, filename, fileHash, partial[i]))
  }

  /** The metadata completion loop of `upload_pdf`. */
  method CompleteMetadata(docId: string, filename: string, fileHash: string,
                          partial: seq<PdfProcessor.PartialMetadata>) returns (metadata: seq<ChunkMetadata>)
    ensures metadata == CompletedMetadata(docId, filename, fileHash, partial)
  {
    metadata := [];
    for i := 0 to |partial|
      invariant metadata == CompletedMetadata(docId, filename, fileHash, partial[..i])
    {
      var partialMeta := partial[i];
      var completeMetadata := ChunkMetadata(docId, filename, partialMeta.pageNumber, partialMeta.chunkIndex,
                                            ChunkId(docId, partialMeta.pageNumber, partialMeta.chunkIndex),
                                            fileHash);
      metadata := metadata + [completeMetadata];
    }
    assert partial[..|partial|] == partial;
  }

  /** Chunk ids are unique within a document whose pages come in increasing
      order, as extracted pages do. */
  lemma ChunkIdsDistinct(docId: string, filename: string, fileHash: string, pages: seq<PageContent>)
    requires PdfProcessor.IncreasingPages(pages)
    ensures forall a, b | 0 <= a < b < |PdfProcessor.AllMetadata(pages)| ::
              CompletedMetadata(docId, filename, fileHash, PdfProcessor.AllMetadata(pages))[a].chunkId
              != CompletedMetadata(docId, filename, fileHash, PdfProcessor.AllMetadata(pages))[b].chunkId
  {
    var partial := PdfProcessor.AllMetadata(pages);
    var m := CompletedMetadata(docId, filename, fileHash, partial);
    PdfProcessor.AllMetadataOrdered(pages);
    forall a, b | 0 <= a < b < |partial| ensures m[a].chunkId != m[b].chunkId {
      if m[a].chunkId == m[b].chunkId {
        ChunkIdInjective(docId, partial[a].pageNumber, partial[a].chunkIndex,
                         partial[b].pageNumber, partial[b].chunkIndex);
      }
    }
  }

  // ---------------------------------------------------------------------
  // Pages processed
  // ---------------------------------------------------------------------

  /** The distinct page numbers among the metadata entries. */
  function PageSet(metadata: seq<ChunkMetadata>): set<nat> {
    set m | m in metadata :: m.pageNumber
  }

  /** `pages_processed`. */
  function PagesProcessed(metadata: seq<ChunkMetadata>): nat {
    |PageSet(metadata)|
  }

  /** The page numbers of the pages, in order. */
  function PageNumberList(pages: seq<PageContent>): (r: seq<nat>)
    ensures |r| == |pages| && forall i | 0 <= i < |pages| :: r[i] == pages[i].pageNumber
  {
    seq(|pages|, i requires 0 <= i < |pages| => pages[i].pageNumber)
  }

  /** Pages with increasing numbers have as many page numbers as pages. */
  lemma PageNumbersCount(pages: seq<PageContent>)
    requires PdfProcessor.IncreasingPages(pages)
    ensures |PdfProcessor.PageNumbers(pages)| == |pages|
  {
    var list := PageNumberList(pages);
    assert Distinct(list);
    DistinctCardinality<nat>(list);
    assert PdfProcessor.PageNumbers(pages) == (set x: nat | x in list) by {
      forall x | x in list ensures x in PdfProcessor.PageNumbers(pages) {
        var i :| 0 <= i < |list| && list[i] == x;
        assert pages[i] in pages;
      }
      forall x | x in PdfProcessor.PageNumbers(pages) ensures x in list {
        var page :| page in pages && page.pageNumber == x;
        var i :| 0 <= i < |pages| && pages[i] == page;
        assert list[i] == x;
      }
    }
  }

  /** Completion keeps the page numbers of the partial entries. */
  lemma PageSetCompleted(docId: string, filename: string, fileHash: string,
                         partial: seq<PdfProcessor.PartialMetadata>)
    ensures PageSet(CompletedMetadata(docId, filename, fileHash, partial)) == PdfProcessor.MetadataPages(partial)
  {
    var m := CompletedMetadata(docId, filename, fileHash, partial);
    forall x | x in PdfProcessor.MetadataPages(partial) ensures x in PageSet(m) {
      var p :| p in partial && p.pageNumber == x;
      var i :| 0 <= i < |partial| && partial[i] == p;
      assert m[i] in m;
    }
    forall x | x in PageSet(m) ensures x in PdfProcessor.MetadataPages(partial) {
      var c :| c in m && c.pageNumber == x;
      var i :| 0 <= i < |m| && m[i] == c;
      assert partial[i] in partial;
    }
  }

  /** `pages_processed` counts the pages kept by extraction: every kept page
      yields at least one chunk, and kept pages have distinct numbers. */
  lemma PagesProcessedCount(raw: seq<string>, docId: string, filename: string, fileHash: string)
    ensures PagesProcessed(CompletedMetadata(docId, filename, fileHash,
                                             PdfProcessor.AllMetadata(PdfProcessor.ExtractedPages(raw))))
            == |PdfProcessor.ExtractedPages(raw)|
  {
    var pages := PdfProcessor.ExtractedPages(raw);
    PdfProcessor.ExtractedPagesFacts(raw);
    PageSetCompleted(docId, filename, fileHash, PdfProcessor.AllMetadata(pages));
    PdfProcessor.AllMetadataPageNumbers(pages);
    PageNumbersCount(pages);
  }

  /** The record `add_document_metadata` stores for the upload. */
  function DocumentRecord(filename: string, metadata: seq<ChunkMetadata>, chunks: seq<string>,
                          uploadTime: string, fileHash: string, content: seq<bv8>): (info: DocumentInfo)
    ensures info.pagesCount == PagesProcessed(metadata)
    ensures info.chunksCount == |chunks| && info.fileSize == |content|
    ensures info.filename == filename && info.fileHash == fileHash && info.uploadTime == uploadTime
  {
    DocumentInfo(filename, PagesProcessed(metadata), |chunks|, uploadTime, fileHash, |content|)
  }

  // ---------------------------------------------------------------------
  // The route
  // ---------------------------------------------------------------------

  /** The file passes both checks of `upload_pdf`. */
  predicate Admitted(filename: string, guessedType: Option<string>, content: seq<bv8>) {
    FileUtils.ValidatePdfFile(filename, guessedType) && FileUtils.ValidateFileSize(content, Config.MAX_FILE_SIZE)
  }

  /** `upload_pdf` on a store. `guessedType` is what `mimetypes` guesses from
      the filename, `tempWriteFails` whether writing the temporary file
      raises, and `document` the page texts the PDF library reads from it
      (None when it cannot open the file). Returns the response or the
      raised error, with the embedding requests sent. */
  method UploadPdf(store: VectorStore.VectorStoreService, api: VectorStore.EmbeddingApi, faiss: VectorStore.VectorIndex,
                   filename: string, guessedType: Option<string>, content: seq<bv8>,
                   docId: string, fileHash: string, uploadTime: string,
                   tempWriteFails: bool, document: Option<seq<string>>)
    returns (r: Result<UploadResponse>, sent: seq<seq<string>>)
    modifies store
    ensures !FileUtils.ValidatePdfFile(filename, guessedType) ==>
              r == Failure(INVALID_FILE_TYPE) && sent == [] && unchanged(store)
    ensures FileUtils.ValidatePdfFile(filename, guessedType) && !FileUtils.ValidateFileSize(content, Config.MAX_FILE_SIZE) ==>
              r == Failure(SizeFailure(content)) && sent == [] && unchanged(store)
    ensures Admitted(filename, guessedType, content) && tempWriteFails ==>
              r == Failure(PROCESSING_FAILED) && sent == [] && unchanged(store)
    ensures Admitted(filename, guessedType, content) && !tempWriteFails && document.None? ==>
              r == Failure(PdfProcessor.INVALID_PDF) && sent == [] && unchanged(store)
    ensures Admitted(filename, guessedType, content) && !tempWriteFails && document.Some?
            && PdfProcessor.ExtractedPages(document.value) == [] ==>
              r == Failure(PdfProcessor.NO_TEXT) && sent == [] && unchanged(store)
    ensures Admitted(filename, guessedType, content) && !tempWriteFails && document.Some?
            && PdfProcessor.ExtractedPages(document.value) != [] ==>
              Stored(store, api, faiss, old(store.index), old(store.chunks), old(store.metadata),
                     old(store.documentMetadata), old(store.documentOrder), old(store.disk), r, sent,
                     PdfProcessor.AllChunks(PdfProcessor.ExtractedPages(document.value)),
                     CompletedMetadata(docId, FileUtils.SanitizeFilename(filename), fileHash,
                                       PdfProcessor.AllMetadata(PdfProcessor.ExtractedPages(document.value))),
                     docId, FileUtils.SanitizeFilename(filename), uploadTime, fileHash, content)
    ensures old(store.Valid()) ==> store.Valid()
  {
    if !FileUtils.ValidatePdfFile(filename, guessedType) {
      return Failure(INVALID_FILE_TYPE), [];
    }
    if !FileUtils.ValidateFileSize(content, Config.MAX_FILE_SIZE) {
      return Failure(SizeFailure(content)), [];
    }
    var safeFilename := FileUtils.SanitizeFilename(filename);
    if tempWriteFails {
      return Failure(PROCESSING_FAILED), [];
    }
    var processed := PdfProcessor.ProcessPdf(document);
    if !processed.Success? {
      return (if processed.Failure? then Failure(processed.error) else Failure(PROCESSING_FAILED)), [];
    }
    PdfProcessor.AllChunksAligned(PdfProcessor.ExtractedPages(document.value));
    var chunks, partialMetadata := processed.value.chunks, processed.value.metadata;
    var metadata := CompleteMetadata(docId, safeFilename, fileHash, partialMetadata);
    r, sent := StoreDocument(store, api, faiss, chunks, metadata, docId, safeFilename, uploadTime, fileHash, content);
  }

  /** What the store and the result are after `upload_pdf` has chunked the
      document into `chunks` with `metadata`: the chunk cap and embedding
      errors leave the store as it was; otherwise the chunks are added, the
      store is saved, and only then is the document's record added, so the
      saved document map lacks the new document, and a new document goes
      last in the insertion order. */
  ghost predicate Stored(store: VectorStore.VectorStoreService, api: VectorStore.EmbeddingApi,
                         faiss: VectorStore.VectorIndex,
                         index0: Option<seq<VectorStore.Vector>>, chunks0: seq<string>, metadata0: seq<ChunkMetadata>,
                         documents0: map<string, DocumentInfo>, order0: seq<string>, disk0: VectorStore.Disk,
                         r: Result<UploadResponse>, sent: seq<seq<string>>,
                         chunks: seq<string>, metadata: seq<ChunkMetadata>,
                         docId: string, filename: string, uploadTime: string, fileHash: string, content: seq<bv8>)
    reads store
  {
    var unchangedStore :=
      && store.index == index0 && store.chunks == chunks0 && store.metadata == metadata0
      && store.documentMetadata == documents0 && store.documentOrder == order0 && store.disk == disk0;
    if |chunks0| + |chunks| > Config.MAX_TOTAL_CHUNKS then
      r == Failure(VectorStore.VectorStoreService.CapacityExceeded()) && sent == [] && unchangedStore
    else
      && sent == VectorStore.Requests(api, chunks)
      && match VectorStore.Embeddings(api, chunks)
         case Failure(e) => r == Failure(e) && unchangedStore
         case Crash => r == Failure(PROCESSING_FAILED) && unchangedStore
         case Success(vectors) =>
           && r == Success(UploadResponse(UPLOADED, docId, PagesProcessed(metadata)))
           && store.index == Some(VectorStore.Vectors(index0) + Map(faiss.normalize, vectors))
           && store.chunks == chunks0 + chunks
           && store.metadata == metadata0 + metadata
           && store.disk == VectorStore.Disk(store.index, Some(store.chunks), Some(store.metadata), Some(documents0))
           && store.documentMetadata
              == documents0[docId := DocumentRecord(filename, metadata, chunks, uploadTime, fileHash, content)]
           && store.documentOrder == (if docId in documents0 then order0 else order0 + [docId])
  }

  /** The store updates of `upload_pdf`, in the route's order: add the chunks,
      save, then add the document's record. */
  method StoreDocument(store: VectorStore.VectorStoreService, api: VectorStore.EmbeddingApi,
                       faiss: VectorStore.VectorIndex, chunks: seq<string>, metadata: seq<ChunkMetadata>,
                       docId: string, filename: string, uploadTime: string, fileHash: string, content: seq<bv8>)
    returns (r: Result<UploadResponse>, sent: seq<seq<string>>)
    requires chunks != []
    modifies store
    ensures Stored(store, api, faiss, old(store.index), old(store.chunks), old(store.metadata),
                   old(store.documentMetadata), old(store.documentOrder), old(store.disk), r, sent,
                   chunks, metadata, docId, filename, uploadTime, fileHash, content)
    ensures old(store.Valid()) ==> store.Valid()
  {
    var added;
    added, sent := store.AddDocuments(api, faiss, chunks, metadata);
    VectorStore.EmbeddingsShape(api, chunks);
    if added.Fail? {
      return Failure(added.error), sent;
    }
    store.Save();
    var pagesProcessed := PagesProcessed(metadata);
    var info := DocumentRecord(filename, metadata, chunks, uploadTime, fileHash, content);
    store.AddDocumentMetadata(docId, info);
    r := Success(UploadResponse(UPLOADED, docId, pagesProcessed));
  }
}
