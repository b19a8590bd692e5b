/**
 * Page extraction and text chunking. The PDF library is replaced by its
 * result: the raw text of every page in order, or None when the document
 * cannot be opened or parsed.
 */
module PdfProcessor {
  import opened Builtins
  import opened Http
  import opened Schemas
  import Config
  import FileUtils

  // ---------------------------------------------------------------------
  // chunk_text
  // ---------------------------------------------------------------------

  /** The last space of `text[start:start+size]`, or -1. */
  function LastSpace(text: string, size: int, start: int): int {
    RFind(Slice(text, start, start + size), ' ')
  }

  /** The window is cut back to its last space: it does not reach the end of
      the text and that space lies beyond `size // 2`. */
  predicate IsCut(text: string, size: int, start: int) {
    start + size < |text| && LastSpace(text, size, start) > size / 2
  }

  /** Where the window starting at `start` ends (the loop's `end`). */
  function CutEnd(text: string, size: int, start: int): int {
    if IsCut(text, size, start) then start + LastSpace(text, size, start) else start + size
  }

  /** The window's text before stripping (the loop's `chunk`). */
  function CutChunk(text: string, size: int, start: int): string {
    if IsCut(text, size, start) then Slice(Slice(text, start, start + size), 0, LastSpace(text, size, start))
    else Slice(text, start, start + size)
  }

  /** A window `[lo, hi)`: the loop's `start` and `end` in one iteration. */
  datatype Span = Span(lo: int, hi: int)

  /** The loop shape of `chunk_text`, over any window-piece function and
      next-start function: from window start `start`, with `acc` produced
      already, it appends `piece(start)` and moves to `next(start)` until the
      start passes `limit` or the per-call cap is reached. */
  function Walk<T>(piece: int -> T, next: int -> int, limit: int, start: int, acc: seq<T>): seq<T>
    decreases Config.MAX_CHUNKS_PER_DOCUMENT - |acc|
  {
    if start >= limit || |acc| >= Config.MAX_CHUNKS_PER_DOCUMENT then acc
    else Walk(piece, next, limit, next(start), acc + [piece(start)])
  }

  /** The pieces the same loop produces from `start` on, `count` pieces
      having been produced already. */
  function Trace<T>(piece: int -> T, next: int -> int, limit: int, start: int, count: nat): seq<T>
    decreases Config.MAX_CHUNKS_PER_DOCUMENT - count
  {
    if start >= limit || count >= Config.MAX_CHUNKS_PER_DOCUMENT then []
    else [piece(start)] + Trace(piece, next, limit, next(start), count + 1)
  }

  /** One turn of the loop. */
  lemma WalkStep<T>(piece: int -> T, next: int -> int, limit: int, start: int, acc: seq<T>)
    requires start < limit && |acc| < Config.MAX_CHUNKS_PER_DOCUMENT
    ensures Walk(piece, next, limit, start, acc) == Walk(piece, next, limit, next(start), acc + [piece(start)])
  {
  }

  /** When each piece is a view of a window, the loop returns what it was
      given followed by the views of the windows it visits. */
  lemma {:induction false} WalkTrace<A, B>(piece: int -> B, window: int -> A, view: A -> B,
                                           next: int -> int, limit: int, start: int, acc: seq<B>)
    requires forall s :: piece(s) == view(window(s))
    ensures Walk(piece, next, limit, start, acc) == acc + Map(view, Trace(window, next, limit, start, |acc|))
    decreases Config.MAX_CHUNKS_PER_DOCUMENT - |acc|
  {
    if start < limit && |acc| < Config.MAX_CHUNKS_PER_DOCUMENT {
      var rest := Trace(window, next, limit, next(start), |acc| + 1);
      WalkTrace(piece, window, view, next, limit, next(start), acc + [piece(start)]);
      MapCons(view, window(start), rest);
      AppendCons(acc, piece(start), Map(view, rest));
    }
  }

  /** Where the next window starts. */
  function NextStart(text: string, size: int, overlap: int): int -> int {
    (s: int) => CutEnd(text, size, s) - overlap
  }

  /** The window starting at `s`. */
  function WindowAt(text: string, size: int): int -> Span {
    (s: int) => Span(s, CutEnd(text, size, s))
  }

  /** The stripped chunk of the window starting at `s`. */
  function ChunkAt(text: string, size: int): int -> string {
    (s: int) => Strip(CutChunk(text, size, s))
  }

  /** The stripped chunk of window `w`. */
  function WindowChunk(text: string, size: int): Span -> string {
    (w: Span) => Strip(CutChunk(text, size, w.lo))
  }

  /** The windows the loop visits from `start` on, `count` chunks having been
      produced already: it stops when the window start passes the end of the
      text or the per-call cap is reached; the next window starts `overlap`
      before the previous one ended. */
  function SpansFrom(text: string, size: int, overlap: int, start: int, count: nat): seq<Span> {
    Trace(WindowAt(text, size), NextStart(text, size, overlap), |text|, start, count)
  }

  /** The stripped chunk of each window. */
  function ChunksOf(text: string, size: int, spans: seq<Span>): seq<string> {
    Map(WindowChunk(text, size), spans)
  }

  lemma ChunksOfIndex(text: string, size: int, spans: seq<Span>, i: nat)
    requires i < |spans|
    ensures ChunksOf(text, size, spans)[i] == Strip(CutChunk(text, size, spans[i].lo))
  {
  }

  /** The loop of `chunk_text` run on from window start `start`, `chunks`
      having been produced already: the chunks it returns. */
  function ChunkLoop(text: string, size: int, overlap: int, start: int, chunks: seq<string>): seq<string> {
    Walk(ChunkAt(text, size), NextStart(text, size, overlap), |text|, start, chunks)
  }

  /** What `chunk_text` returns for effective parameters `size` and `overlap`:
      a text that fits is returned whole and unstripped. */
  function Chunks(text: string, size: int, overlap: int): seq<string> {
    if |text| <= size then [text]
    else ChunkLoop(text, size, overlap, 0, [])
  }

  method NextWindow(text: string, size: int, start: int) returns (chunk: string, end: int)
    ensures chunk == CutChunk(text, size, start) && end == CutEnd(text, size, start)
  {
    end := start + size;
    chunk := Slice(text, start, end);
    if end < |text| {
      var lastSpace := RFind(chunk, ' ');
      if lastSpace > size / 2 {
        chunk := Slice(chunk, 0, lastSpace);
        end := start + lastSpace;
      }
    }
  }

  /** One iteration of the loop: the window's stripped chunk and the next
      window start; the loop run on from there returns what it would have
      returned from `start`. */
  method ChunkStep(text: string, size: int, overlap: int, start: int, ghost chunks: seq<string>)
    returns (piece: string, next: int)
    requires start < |text| && |chunks| < Config.MAX_CHUNKS_PER_DOCUMENT
    ensures ChunkLoop(text, size, overlap, next, chunks + [piece]) == ChunkLoop(text, size, overlap, start, chunks)
  {
    var chunk, end := NextWindow(text, size, start);
    piece := Strip(chunk);
    next := end - overlap;
    assert piece == ChunkAt(text, size)(start) && next == NextStart(text, size, overlap)(start);
    WalkStep(ChunkAt(text, size), NextStart(text, size, overlap), |text|, start, chunks);
  }

  /** `chunk_text(text, chunk_size, overlap)`. */
  method ChunkText(text: string, chunkSize: Option<int>, overlap: Option<int>) returns (chunks: seq<string>)
    ensures chunks == Chunks(text, OrDefault(chunkSize, Config.CHUNK_SIZE), OrDefault(overlap, Config.CHUNK_OVERLAP))
    ensures |text| <= OrDefault(chunkSize, Config.CHUNK_SIZE) ==> chunks == [text]
  {
    var size := OrDefault(chunkSize, Config.CHUNK_SIZE);
    var ov := OrDefault(overlap, Config.CHUNK_OVERLAP);
    if |text| <= size {
      return [text];
    }
    chunks := [];
    var start := 0;
    while start < |text| && |chunks| < Config.MAX_CHUNKS_PER_DOCUMENT
      invariant ChunkLoop(text, size, ov, start, chunks) == ChunkLoop(text, size, ov, 0, [])
      decreases Config.MAX_CHUNKS_PER_DOCUMENT - |chunks|
    {
      var piece, next := ChunkStep(text, size, ov, start, chunks);
      chunks := chunks + [piece];
      start := next;
      if start >= |text| {
        break;
      }
    }
  }

  /** The loop's chunks are those of the windows `SpansFrom` lists. */
  lemma ChunkLoopWindows(text: string, size: int, overlap: int, start: int, chunks: seq<string>)
    ensures ChunkLoop(text, size, overlap, start, chunks)
            == chunks + ChunksOf(text, size, SpansFrom(text, size, overlap, start, |chunks|))
  {
    forall s: int ensures ChunkAt(text, size)(s) == WindowChunk(text, size)(WindowAt(text, size)(s)) { }
    WalkTrace(ChunkAt(text, size), WindowAt(text, size), WindowChunk(text, size),
              NextStart(text, size, overlap), |text|, start, chunks);
  }

  /** A text longer than the chunk size is cut into the stripped chunks of
      the windows `SpansFrom` lists. */
  lemma ChunksAreChunksOf(text: string, size: int, overlap: int)
    requires |text| > size
    ensures Chunks(text, size, overlap) == ChunksOf(text, size, SpansFrom(text, size, overlap, 0, 0))
  {
    ChunkLoopWindows(text, size, overlap, 0, []);
  }

  /** The per-call cap bounds the number of windows, whatever the parameters,
      including ones with which the window never moves forward. */
  lemma {:induction false} SpansFromCount(text: string, size: int, overlap: int, start: int, count: nat)
    requires count <= Config.MAX_CHUNKS_PER_DOCUMENT
    ensures |SpansFrom(text, size, overlap, start, count)| <= Config.MAX_CHUNKS_PER_DOCUMENT - count
    decreases Config.MAX_CHUNKS_PER_DOCUMENT - count
  {
    if start < |text| && count < Config.MAX_CHUNKS_PER_DOCUMENT {
      SpansFromCount(text, size, overlap, CutEnd(text, size, start) - overlap, count + 1);
    }
  }

  /** `chunk_text` never returns more than MAX_CHUNKS_PER_DOCUMENT chunks. */
  lemma ChunkCountBound(text: string, size: int, overlap: int)
    ensures |Chunks(text, size, overlap)| <= Config.MAX_CHUNKS_PER_DOCUMENT
  {
    if |text| > size {
      ChunksAreChunksOf(text, size, overlap);
      SpansFromCount(text, size, overlap, 0, 0);
    }
  }

  /** A non-negative chunk size always yields at least one chunk. */
  lemma ChunksNonEmpty(text: string, size: int, overlap: int)
    requires size >= 0
    ensures |Chunks(text, size, overlap)| >= 1
  {
    if |text| > size {
      ChunksAreChunksOf(text, size, overlap);
      assert SpansFrom(text, size, overlap, 0, 0) != [];
    }
  }

  /** A window of positive size yields at most `size` characters. */
  lemma CutChunkWidth(text: string, size: int, start: int)
    requires size > 0
    ensures |CutChunk(text, size, start)| <= size
  {
    SliceWidth(text, start, size);
    if IsCut(text, size, start) {
      SliceFrom(Slice(text, start, start + size), 0, LastSpace(text, size, start));
    }
  }

  /** With a positive chunk size no chunk is longer than the chunk size, for
      any overlap. */
  lemma ChunkLengthBound(text: string, size: int, overlap: int)
    requires size > 0
    ensures forall i | 0 <= i < |Chunks(text, size, overlap)| :: |Chunks(text, size, overlap)[i]| <= size
  {
    if |text| > size {
      var spans := SpansFrom(text, size, overlap, 0, 0);
      var chunks := Chunks(text, size, overlap);
      assert chunks == ChunksOf(text, size, spans) by { ChunksAreChunksOf(text, size, overlap); }
      forall i | 0 <= i < |chunks| ensures |chunks[i]| <= size {
        var raw := CutChunk(text, size, spans[i].lo);
        assert chunks[i] == Strip(raw) by { ChunksOfIndex(text, size, spans, i); }
        assert |Strip(raw)| <= |raw| by { StripEnds(raw); }
        CutChunkWidth(text, size, spans[i].lo);
      }
    }
  }

  /** Parameters under which every iteration moves the window forward. */
  predicate WellConfigured(size: int, overlap: int) {
    size > 0 && 0 <= overlap <= size / 2
  }

  /** The defaults are well configured. */
  lemma DefaultsWellConfigured()
    ensures WellConfigured(Config.CHUNK_SIZE, Config.CHUNK_OVERLAP)
  {
  }

  /** A window of positive size starting inside the text ends after more
      than `size // 2` and at most `size` characters, and its chunk is the
      plain slice `text[start:end]`. */
  lemma CutFacts(text: string, size: int, start: int)
    requires size > 0 && 0 <= start < |text|
    ensures start + size / 2 < CutEnd(text, size, start) <= start + size
    ensures CutChunk(text, size, start) == Slice(text, start, CutEnd(text, size, start))
  {
    var end := start + size;
    SliceFrom(text, start, end);
    if IsCut(text, size, start) {
      var lastSpace := LastSpace(text, size, start);
      var chunk := Slice(text, start, end);
      assert chunk == text[start..end];
      assert Slice(chunk, 0, lastSpace) == text[start..start + lastSpace];
    }
  }

  /** Under well-configured parameters every window starts inside the text
      and spans more than `size // 2` and at most `size` characters; the
      first starts at `start`; each next window starts exactly `overlap`
      before the previous one ended, and strictly after the previous one
      started. */
  lemma {:induction false} SpansFacts(text: string, size: int, overlap: int, start: int, count: nat)
    requires WellConfigured(size, overlap) && 0 <= start
    ensures var ws := SpansFrom(text, size, overlap, start, count);
            && (ws != [] ==> ws[0].lo == start)
            && (forall i | 0 <= i < |ws| ::
                  0 <= ws[i].lo < |text| && ws[i].lo + size / 2 < ws[i].hi <= ws[i].lo + size)
            && (forall i | 0 <= i < |ws| - 1 ::
                  ws[i + 1].lo == ws[i].hi - overlap && ws[i].lo < ws[i + 1].lo)
    decreases Config.MAX_CHUNKS_PER_DOCUMENT - count
  {
    if start < |text| && count < Config.MAX_CHUNKS_PER_DOCUMENT {
      var end := CutEnd(text, size, start);
      CutFacts(text, size, start);
      SpansFacts(text, size, overlap, end - overlap, count + 1);
      var ws := SpansFrom(text, size, overlap, start, count);
      var rest := SpansFrom(text, size, overlap, end - overlap, count + 1);
      assert ws == [Span(start, end)] + rest;
      assert forall i | 1 <= i < |ws| :: ws[i] == rest[i - 1];
    }
  }

  /** Every window ends where `CutEnd` puts the end of a window starting
      at its start. */
  lemma {:induction false} SpansEndAtCut(text: string, size: int, overlap: int, start: int, count: nat, i: nat)
    requires i < |SpansFrom(text, size, overlap, start, count)|
    ensures var w := SpansFrom(text, size, overlap, start, count)[i];
            w.hi == CutEnd(text, size, w.lo)
    decreases i
  {
    if i > 0 {
      var next := CutEnd(text, size, start) - overlap;
      SpansEndAtCut(text, size, overlap, next, count + 1, i - 1);
    }
  }

  /** Under well-configured parameters, a text longer than the chunk size is
      cut into windows `text[lo:hi]` with `hi - lo <= size`, each chunk being
      its window stripped. */
  lemma ChunksAreWindows(text: string, size: int, overlap: int)
    requires WellConfigured(size, overlap) && |text| > size
    ensures var ws := SpansFrom(text, size, overlap, 0, 0);
            |Chunks(text, size, overlap)| == |ws|
            && forall i | 0 <= i < |ws| ::
                 ws[i].hi - ws[i].lo <= size
                 && Chunks(text, size, overlap)[i] == Strip(Slice(text, ws[i].lo, ws[i].hi))
  {
    var ws := SpansFrom(text, size, overlap, 0, 0);
    var chunks := Chunks(text, size, overlap);
    assert chunks == ChunksOf(text, size, ws) by { ChunksAreChunksOf(text, size, overlap); }
    SpansFacts(text, size, overlap, 0, 0);
    forall i | 0 <= i < |ws|
      ensures chunks[i] == Strip(Slice(text, ws[i].lo, ws[i].hi))
    {
      assert chunks[i] == Strip(CutChunk(text, size, ws[i].lo)) by { ChunksOfIndex(text, size, ws, i); }
      assert ws[i].hi == CutEnd(text, size, ws[i].lo) by { SpansEndAtCut(text, size, overlap, 0, 0, i); }
      CutFacts(text, size, ws[i].lo);
    }
  }

  /** Under well-configured parameters, unless the cap stopped the loop, the
      windows cover every position of the text from `start` on. */
  lemma {:induction false} SpansCover(text: string, size: int, overlap: int, start: int, count: nat, p: int)
    requires WellConfigured(size, overlap) && 0 <= start <= p < |text|
    requires count <= Config.MAX_CHUNKS_PER_DOCUMENT
    requires |SpansFrom(text, size, overlap, start, count)| < Config.MAX_CHUNKS_PER_DOCUMENT - count
    ensures exists i :: 0 <= i < |SpansFrom(text, size, overlap, start, count)|
                        && SpansFrom(text, size, overlap, start, count)[i].lo <= p
                        && p < SpansFrom(text, size, overlap, start, count)[i].hi
    decreases Config.MAX_CHUNKS_PER_DOCUMENT - count
  {
    var ws := SpansFrom(text, size, overlap, start, count);
    var end := CutEnd(text, size, start);
    CutFacts(text, size, start);
    if p < end {
      assert ws[0].lo <= p < ws[0].hi;
    } else {
      var next := end - overlap;
      var rest := SpansFrom(text, size, overlap, next, count + 1);
      assert ws == [Span(start, end)] + rest;
      SpansCover(text, size, overlap, next, count + 1, p);
      var i :| 0 <= i < |rest| && rest[i].lo <= p < rest[i].hi;
      assert ws[i + 1] == rest[i];
    }
  }

  /** For a text longer than the chunk size, under well-configured parameters
      and unless the cap stopped the loop, every character lies in some
      window: no text is lost between chunks. */
  lemma ChunksCoverText(text: string, size: int, overlap: int, p: int)
    requires WellConfigured(size, overlap) && |text| > size && 0 <= p < |text|
    requires |Chunks(text, size, overlap)| < Config.MAX_CHUNKS_PER_DOCUMENT
    ensures exists i :: 0 <= i < |SpansFrom(text, size, overlap, 0, 0)|
                        && SpansFrom(text, size, overlap, 0, 0)[i].lo <= p
                        && p < SpansFrom(text, size, overlap, 0, 0)[i].hi
  {
    assert |Chunks(text, size, overlap)| == |SpansFrom(text, size, overlap, 0, 0)| by {
      ChunksAreChunksOf(text, size, overlap);
    }
    SpansCover(text, size, overlap, 0, 0, p);
  }

  // ---------------------------------------------------------------------
  // extract_text_with_pages
  // ---------------------------------------------------------------------

  const INVALID_PDF: HttpError := HttpError(400, "Invalid PDF file or corrupted content")
  const NO_TEXT: HttpError := HttpError(400, "No extractable text content found in PDF")

  /** The record of one kept page: the sanitised text stripped, and the
      length of the sanitised text before stripping. */
  function ReadPage(raw: string, pageNumber: nat): PageContent {
    var safe := FileUtils.SanitizeText(raw);
    PageContent(pageNumber, Strip(safe), |safe|)
  }

  /** A page the loop keeps: its raw text is not all whitespace. */
  predicate NonBlank(raw: string) {
    !IsBlank(raw)
  }

  /** The pages among the first `n` that `keep` accepts, each read by `read`
      with its 1-based page number, in page order. */
  function Gather(raw: seq<string>, n: nat, keep: string -> bool, read: (string, nat) -> PageContent): seq<PageContent>
    requires n <= |raw|
  {
    if n == 0 then []
    else Gather(raw, n - 1, keep, read) + (if keep(raw[n - 1]) then [read(raw[n - 1], n)] else [])
  }

  /** Page `q` is among the extracted pages. */
  predicate Kept(ps: seq<PageContent>, q: int) {
    exists j :: 0 <= j < |ps| && ps[j].pageNumber == q
  }

  /** When `read` records the page number it is given, every gathered page
      is numbered from 1 within the first `n`, is accepted by `keep` and is
      that page read. */
  lemma {:induction false} GatherEntries(raw: seq<string>, n: nat, keep: string -> bool, read: (string, nat) -> PageContent)
    requires n <= |raw|
    requires forall s, k :: read(s, k).pageNumber == k
    ensures forall j | 0 <= j < |Gather(raw, n, keep, read)| ::
              var p := Gather(raw, n, keep, read)[j];
              1 <= p.pageNumber <= n && keep(raw[p.pageNumber - 1]) && p == read(raw[p.pageNumber - 1], p.pageNumber)
  {
    if n > 0 {
      GatherEntries(raw, n - 1, keep, read);
      var prev := Gather(raw, n - 1, keep, read);
      var ps := Gather(raw, n, keep, read);
      forall j | 0 <= j < |ps|
        ensures 1 <= ps[j].pageNumber <= n && keep(raw[ps[j].pageNumber - 1])
                && ps[j] == read(raw[ps[j].pageNumber - 1], ps[j].pageNumber)
      {
        if j < |prev| {
          assert ps[j] == prev[j];
        } else {
          assert ps[j] == read(raw[n - 1], n);
        }
      }
    }
  }

  /** ... and their page numbers increase strictly. */
  lemma {:induction false} GatherIncreasing(raw: seq<string>, n: nat, keep: string -> bool, read: (string, nat) -> PageContent)
    requires n <= |raw|
    requires forall s, k :: read(s, k).pageNumber == k
    ensures forall j, k | 0 <= j < k < |Gather(raw, n, keep, read)| ::
              Gather(raw, n, keep, read)[j].pageNumber < Gather(raw, n, keep, read)[k].pageNumber
  {
    if n > 0 {
      GatherIncreasing(raw, n - 1, keep, read);
      GatherEntries(raw, n - 1, keep, read);
      var prev := Gather(raw, n - 1, keep, read);
      var ps := Gather(raw, n, keep, read);
      forall j, k | 0 <= j < k < |ps|
        ensures ps[j].pageNumber < ps[k].pageNumber
      {
        assert ps[j] == prev[j];
        if k < |prev| {
          assert ps[k] == prev[k];
        } else {
          assert ps[k] == read(raw[n - 1], n);
        }
      }
    }
  }

  /** ... and every accepted page among the first `n` is gathered. */
  lemma {:induction false} GatherComplete(raw: seq<string>, n: nat, keep: string -> bool, read: (string, nat) -> PageContent)
    requires n <= |raw|
    requires forall s, k :: read(s, k).pageNumber == k
    ensures forall q | 1 <= q <= n && keep(raw[q - 1]) :: Kept(Gather(raw, n, keep, read), q)
  {
    if n > 0 {
      GatherComplete(raw, n - 1, keep, read);
      var prev := Gather(raw, n - 1, keep, read);
      var ps := Gather(raw, n, keep, read);
      forall q | 1 <= q <= n && keep(raw[q - 1])
        ensures Kept(ps, q)
      {
        if q < n {
          assert Kept(prev, q);
          var j :| 0 <= j < |prev| && prev[j].pageNumber == q;
          assert ps[j] == prev[j];
        } else {
          assert ps[|ps| - 1] == read(raw[n - 1], n);
        }
      }
    }
  }

  /** At most this many pages are read. */
  function PageLimit(raw: seq<string>): nat {
    Min(|raw|, Config.MAX_PDF_PAGES)
  }

  /** What `extract_text_with_pages` returns for a document with these raw page texts. */
  function ExtractedPages(raw: seq<string>): seq<PageContent> {
    Gather(raw, PageLimit(raw), NonBlank, ReadPage)
  }

  /** `extract_text_with_pages`; `document` is None when opening or parsing
      the PDF raises. */
  method ExtractTextWithPages(document: Option<seq<string>>) returns (r: Result<seq<PageContent>>)
    ensures document.None? ==> r == Failure(INVALID_PDF)
    ensures document.Some? ==> r == Success(ExtractedPages(document.value))
  {
    if document.None? {
      return Failure(INVALID_PDF);
    }
    var raw := document.value;
    var pagesContent: seq<PageContent> := [];
    var pageCount := Min(|raw|, Config.MAX_PDF_PAGES);
    for pageNum := 0 to pageCount
      invariant pagesContent == Gather(raw, pageNum, NonBlank, ReadPage)
    {
      var text := raw[pageNum];
      StripEmptyIffBlank(text);
      if Strip(text) != [] {
        var safeText := FileUtils.SanitizeText(text);
        pagesContent := pagesContent + [PageContent(pageNum + 1, Strip(safeText), |safeText|)];
      }
    }
    return Success(pagesContent);
  }

  /** The extracted pages are numbered from 1 within the page limit, in
      strictly increasing order; each is a page whose raw text is not blank,
      holding its sanitised text stripped and the length of the sanitised
      text; and every non-blank page within the limit is extracted. */
  lemma ExtractedPagesFacts(raw: seq<string>)
    ensures PageLimit(raw) <= Config.MAX_PDF_PAGES
    ensures forall j | 0 <= j < |ExtractedPages(raw)| ::
              var p := ExtractedPages(raw)[j];
              1 <= p.pageNumber <= PageLimit(raw) && !IsBlank(raw[p.pageNumber - 1])
              && p.content == Strip(FileUtils.SanitizeText(raw[p.pageNumber - 1]))
              && p.charCount == |FileUtils.SanitizeText(raw[p.pageNumber - 1])|
    ensures forall j, k | 0 <= j < k < |ExtractedPages(raw)| ::
              ExtractedPages(raw)[j].pageNumber < ExtractedPages(raw)[k].pageNumber
    ensures forall q | 1 <= q <= PageLimit(raw) && !IsBlank(raw[q - 1]) :: Kept(ExtractedPages(raw), q)
  {
    forall s, k ensures ReadPage(s, k).pageNumber == k { }
    GatherEntries(raw, PageLimit(raw), NonBlank, ReadPage);
    GatherIncreasing(raw, PageLimit(raw), NonBlank, ReadPage);
    GatherComplete(raw, PageLimit(raw), NonBlank, ReadPage);
  }

  /** The blank check runs on the raw text, before sanitising: a page holding
      only a control character is kept, with empty content. */
  lemma ControlOnlyPageKept()
    ensures ExtractedPages(["\0"]) == [PageContent(1, "", 0)]
  {
    assert !IsSpace('\0') by { BelowRanges(0, SPACE_RANGES); }
    assert !IsBlank("\0") by { assert "\0"[0] == '\0'; }
    assert FileUtils.SanitizeText("\0") == "";
  }

  // ---------------------------------------------------------------------
  // process_pdf
  // ---------------------------------------------------------------------

  /** The page-relative part of a chunk's metadata. */
  datatype PartialMetadata = PartialMetadata(pageNumber: nat, chunkIndex: nat)

  /** The two index-aligned lists `process_pdf` returns. */
  datatype Processed = Processed(chunks: seq<string>, metadata: seq<PartialMetadata>)

  /** `chunk_text(page.content)` with the default parameters. */
  function PageChunks(page: PageContent): seq<string> {
    Chunks(page.content, Config.CHUNK_SIZE, Config.CHUNK_OVERLAP)
  }

  /** The metadata of a page's `n` chunks: its page number and indexes 0..n-1. */
  function PageMetadata(page: PageContent, n: nat): (m: seq<PartialMetadata>)
    ensures |m| == n
    ensures forall i | 0 <= i < n :: m[i] == PartialMetadata(page.pageNumber, i)
  {
    seq(n, i requires 0 <= i < n => PartialMetadata(page.pageNumber, i))
  }

  /** The metadata of a page's chunks. */
  function PageChunkMetadata(page: PageContent): seq<PartialMetadata> {
    PageMetadata(page, |PageChunks(page)|)
  }

  /** `f` of every page, concatenated page after page. */
  function Concat<T>(f: PageContent -> seq<T>, pages: seq<PageContent>): seq<T> {
    if pages == [] then []
    else Concat(f, pages[..|pages| - 1]) + f(pages[|pages| - 1])
  }

  /** Taking one more page appends that page's part. */
  lemma ConcatStep<T>(f: PageContent -> seq<T>, pages: seq<PageContent>, p: nat)
    requires p < |pages|
    ensures Concat(f, pages[..p + 1]) == Concat(f, pages[..p]) + f(pages[p])
  {
    assert pages[..p + 1][..p] == pages[..p];
  }

  /** The chunks of all pages, page after page. */
  function AllChunks(pages: seq<PageContent>): seq<string> {
    Concat(PageChunks, pages)
  }

  /** The metadata of all pages, page after page. */
  function AllMetadata(pages: seq<PageContent>): seq<PartialMetadata> {
    Concat(PageChunkMetadata, pages)
  }

  /** The inner loop of `process_pdf`: appends a page's chunks and their
      metadata. */
  method AppendPage(allChunks: seq<string>, allMetadata: seq<PartialMetadata>, page: PageContent, chunks: seq<string>)
    returns (chunksOut: seq<string>, metadataOut: seq<PartialMetadata>)
    ensures chunksOut == allChunks + chunks
    ensures metadataOut == allMetadata + PageMetadata(page, |chunks|)
  {
    chunksOut, metadataOut := allChunks, allMetadata;
    for i := 0 to |chunks|
      invariant chunksOut == allChunks + chunks[..i]
      invariant metadataOut == allMetadata + PageMetadata(page, i)
    {
      chunksOut := chunksOut + [chunks[i]];
      metadataOut := metadataOut + [PartialMetadata(page.pageNumber, i)];
      assert chunks[..i + 1] == chunks[..i] + [chunks[i]];
    }
    assert chunks[..|chunks|] == chunks;
  }

  /** `process_pdf`. */
  method ProcessPdf(document: Option<seq<string>>) returns (r: Result<Processed>)
    ensures document.None? ==> r == Failure(INVALID_PDF)
    ensures document.Some? && ExtractedPages(document.value) == [] ==> r == Failure(NO_TEXT)
    ensures document.Some? && ExtractedPages(document.value) != [] ==>
              r == Success(Processed(AllChunks(ExtractedPages(document.value)),
                                     AllMetadata(ExtractedPages(document.value))))
  {
    var pagesContent :- ExtractTextWithPages(document);
    if pagesContent == [] {
      return Failure(NO_TEXT);
    }
    var allChunks: seq<string> := [];
    var allMetadata: seq<PartialMetadata> := [];
    for p := 0 to |pagesContent|
      invariant allChunks == AllChunks(pagesContent[..p])
      invariant allMetadata == AllMetadata(pagesContent[..p])
    {
      var pageData := pagesContent[p];
      var chunks := ChunkText(pageData.content, None, None);
      allChunks, allMetadata := AppendPage(allChunks, allMetadata, pageData, chunks);
      ConcatStep(PageChunks, pagesContent, p);
      ConcatStep(PageChunkMetadata, pagesContent, p);
    }
    assert pagesContent[..|pagesContent|] == pagesContent;
    return Success(Processed(allChunks, allMetadata));
  }

  /** The two lists are index-aligned, and every page contributes at least one
      chunk; the cap applies per page, so a document may hold up to
      MAX_CHUNKS_PER_DOCUMENT chunks per page. */
  lemma {:induction false} AllChunksAligned(pages: seq<PageContent>)
    ensures |AllChunks(pages)| == |AllMetadata(pages)|
    ensures |pages| <= |AllChunks(pages)| <= |pages| * Config.MAX_CHUNKS_PER_DOCUMENT
  {
    if pages != [] {
      var last := pages[|pages| - 1];
      AllChunksAligned(pages[..|pages| - 1]);
      ChunkCountBound(last.content, Config.CHUNK_SIZE, Config.CHUNK_OVERLAP);
      ChunksNonEmpty(last.content, Config.CHUNK_SIZE, Config.CHUNK_OVERLAP);
    }
  }

  /** Page numbers strictly increasing. */
  predicate IncreasingPages(pages: seq<PageContent>) {
    forall j, k | 0 <= j < k < |pages| :: pages[j].pageNumber < pages[k].pageNumber
  }

  /** With pages in increasing order, the metadata is ordered by page and then
      by chunk index, so no (page, index) pair occurs twice, and every entry
      lies between the first and the last page. */
  lemma {:induction false} AllMetadataOrdered(pages: seq<PageContent>)
    requires IncreasingPages(pages)
    ensures var m := AllMetadata(pages);
            && (forall a, b | 0 <= a < b < |m| ::
                  m[a].pageNumber < m[b].pageNumber
                  || (m[a].pageNumber == m[b].pageNumber && m[a].chunkIndex < m[b].chunkIndex))
            && (forall a | 0 <= a < |m| ::
                  pages[0].pageNumber <= m[a].pageNumber <= pages[|pages| - 1].pageNumber)
  {
    if pages != [] {
      var init := pages[..|pages| - 1];
      var last := pages[|pages| - 1];
      AllMetadataOrdered(init);
      var prev := AllMetadata(init);
      var m := AllMetadata(pages);
      assert |init| > 0 ==> init[0] == pages[0] && init[|init| - 1].pageNumber < last.pageNumber;
      forall a | 0 <= a < |m| ensures pages[0].pageNumber <= m[a].pageNumber <= last.pageNumber {
        if a < |prev| { assert m[a] == prev[a]; }
      }
      forall a, b | 0 <= a < b < |m|
        ensures m[a].pageNumber < m[b].pageNumber
                || (m[a].pageNumber == m[b].pageNumber && m[a].chunkIndex < m[b].chunkIndex)
      {
        if b < |prev| {
          assert m[a] == prev[a] && m[b] == prev[b];
        } else if a < |prev| {
          assert m[a] == prev[a];
        }
      }
    }
  }

  /** The page numbers occurring in metadata entries. */
  function MetadataPages(ms: seq<PartialMetadata>): set<nat> {
    set m | m in ms :: m.pageNumber
  }

  /** The page numbers of pages. */
  function PageNumbers(pages: seq<PageContent>): set<nat> {
    set p | p in pages :: p.pageNumber
  }

  lemma MetadataPagesAppend(a: seq<PartialMetadata>, b: seq<PartialMetadata>)
    ensures MetadataPages(a + b) == MetadataPages(a) + MetadataPages(b)
  {
    assert forall m :: m in a + b <==> m in a || m in b;
  }

  /** Every extracted page contributes its page number to the metadata, and
      no other page number occurs there. */
  lemma {:induction false} AllMetadataPageNumbers(pages: seq<PageContent>)
    ensures MetadataPages(AllMetadata(pages)) == PageNumbers(pages)
  {
    if pages != [] {
      var init := pages[..|pages| - 1];
      var last := pages[|pages| - 1];
      AllMetadataPageNumbers(init);
      ChunksNonEmpty(last.content, Config.CHUNK_SIZE, Config.CHUNK_OVERLAP);
      var tail := PageChunkMetadata(last);
      assert MetadataPages(tail) == {last.pageNumber} by {
        assert tail[0] in tail;
      }
      assert AllMetadata(pages) == AllMetadata(init) + tail;
      MetadataPagesAppend(AllMetadata(init), tail);
      assert pages == init + [last];
      assert PageNumbers(pages) == PageNumbers(init) + {last.pageNumber} by {
        assert forall p :: p in pages <==> p in init || p == last;
      }
    }
  }
}
