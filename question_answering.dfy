/**
 * `QuestionAnsweringService` (services/question_answering.py): the answer
 * context built from the retrieved chunks under a character budget, the
 * chat-completion call with its error mapping, and the source previews shown
 * under an answer. The chat model is an oracle; the prompt wording is not
 * modelled, only what the prompt is built from.
 */
module QuestionAnswering {
  import opened Builtins
  import opened Http
  import Config
  import opened Schemas
  import VectorStore

  type SearchResult = VectorStore.SearchResult

  const NO_RELEVANT_INFORMATION := "No relevant information found to answer your question."
  const CONTEXT_SEPARATOR := "\n\n"

  // ---------------------------------------------------------------------
  // The answer context
  // ---------------------------------------------------------------------

  /** One context part: the chunk's page number in brackets, then its text. */
  function FormatPart(chunk: SearchResult): (part: string)
    ensures |part| == |chunk.content| + 9 + |NatToString(chunk.metadata.pageNumber)|
    ensures part[|part| - |chunk.content|..] == chunk.content
  {
    "[Page " + NatToString(chunk.metadata.pageNumber) + "]: " + chunk.content
  }

  /** The formatted parts of the first `n` chunks. */
  function PartsOf(chunks: seq<SearchResult>, n: nat): seq<string>
    requires n <= |chunks|
  {
    Map(FormatPart, chunks[..n])
  }

  /** Where the context loop stops when it reaches chunk `i` having used
      `used` characters: at the first chunk that does not fit, or at the end. */
  function CutFrom(chunks: seq<SearchResult>, i: nat, used: nat): (n: nat)
    requires i <= |chunks|
    ensures i <= n <= |chunks|
    decreases |chunks| - i
  {
    if i == |chunks| || used + |FormatPart(chunks[i])| > Config.MAX_CONTEXT_LENGTH then i
    else CutFrom(chunks, i + 1, used + |FormatPart(chunks[i])|)
  }

  /** The context parts `generate_answer` collects. */
  function ContextParts(chunks: seq<SearchResult>): seq<string> {
    PartsOf(chunks, CutFrom(chunks, 0, 0))
  }

  lemma PartsSnoc(chunks: seq<SearchResult>, i: nat)
    requires i < |chunks|
    ensures PartsOf(chunks, i + 1) == PartsOf(chunks, i) + [FormatPart(chunks[i])]
  {
    assert chunks[..i + 1] == chunks[..i] + [chunks[i]];
    MapAppend(FormatPart, chunks[..i], [chunks[i]]);
  }

  /** The loop, entered at chunk `i` with the parts so far within budget,
      stops at a count whose parts are within budget and, unless it reached
      the end, the next part would overflow the budget. */
  lemma {:induction false} CutFromFacts(chunks: seq<SearchResult>, i: nat, used: nat)
    requires i <= |chunks|
    requires used == TotalLength(PartsOf(chunks, i)) <= Config.MAX_CONTEXT_LENGTH
    ensures TotalLength(PartsOf(chunks, CutFrom(chunks, i, used))) <= Config.MAX_CONTEXT_LENGTH
    ensures CutFrom(chunks, i, used) < |chunks| ==>
              TotalLength(PartsOf(chunks, CutFrom(chunks, i, used)))
              + |FormatPart(chunks[CutFrom(chunks, i, used)])| > Config.MAX_CONTEXT_LENGTH
    decreases |chunks| - i
  {
    if i < |chunks| && used + |FormatPart(chunks[i])| <= Config.MAX_CONTEXT_LENGTH {
      PartsSnoc(chunks, i);
      TotalLengthAppend(PartsOf(chunks, i), FormatPart(chunks[i]));
      CutFromFacts(chunks, i + 1, used + |FormatPart(chunks[i])|);
    }
  }

  /** The context is the formatted prefix of the chunks, in order; its parts
      total at most `MAX_CONTEXT_LENGTH` characters, and it stops only where
      the next part would overflow that budget. */
  lemma ContextPartsFit(chunks: seq<SearchResult>)
    ensures |ContextParts(chunks)| <= |chunks|
    ensures ContextParts(chunks) == PartsOf(chunks, |ContextParts(chunks)|)
    ensures TotalLength(ContextParts(chunks)) <= Config.MAX_CONTEXT_LENGTH
    ensures |ContextParts(chunks)| < |chunks| ==>
              TotalLength(ContextParts(chunks)) + |FormatPart(chunks[|ContextParts(chunks)|])| > Config.MAX_CONTEXT_LENGTH
  {
    assert PartsOf(chunks, 0) == [];
    CutFromFacts(chunks, 0, 0);
  }

  /** No longer prefix fits: the loop never skips a chunk that overflows to
      take a shorter one after it, and stops at the longest prefix within
      budget. */
  lemma LongestFittingPrefix(chunks: seq<SearchResult>, m: nat)
    requires m <= |chunks| && TotalLength(PartsOf(chunks, m)) <= Config.MAX_CONTEXT_LENGTH
    ensures m <= |ContextParts(chunks)|
  {
    ContextPartsFit(chunks);
    var n := |ContextParts(chunks)|;
    if m > n {
      var longer := PartsOf(chunks, m);
      assert longer[..n + 1] == PartsOf(chunks, n + 1);
      PartsSnoc(chunks, n);
      TotalLengthAppend(PartsOf(chunks, n), FormatPart(chunks[n]));
      TotalLengthPrefix(longer, n + 1);
    }
  }

  /** The separators are not counted against the budget: the joined context
      is the parts plus two characters between each two of them. */
  lemma ContextLength(chunks: seq<SearchResult>)
    requires ContextParts(chunks) != []
    ensures |Join(ContextParts(chunks), CONTEXT_SEPARATOR)|
            <= Config.MAX_CONTEXT_LENGTH + 2 * (|ContextParts(chunks)| - 1)
  {
    ContextPartsFit(chunks);
    JoinLength(ContextParts(chunks), CONTEXT_SEPARATOR);
  }

  /** The context-building loop of `generate_answer`. */
  method BuildContext(chunks: seq<SearchResult>) returns (parts: seq<string>)
    ensures parts == ContextParts(chunks)
  {
    parts := [];
    var currentLength: nat := 0;
    var i := 0;
    while i < |chunks|
      invariant i <= |chunks|
      invariant parts == PartsOf(chunks, i)
      invariant CutFrom(chunks, i, currentLength) == CutFrom(chunks, 0, 0)
      decreases |chunks| - i
    {
      var chunkText := FormatPart(chunks[i]);
      if currentLength + |chunkText| > Config.MAX_CONTEXT_LENGTH {
        break;
      }
      PartsSnoc(chunks, i);
      parts := parts + [chunkText];
      currentLength := currentLength + |chunkText|;
      i := i + 1;
    }
  }

  // ---------------------------------------------------------------------
  // The chat completion
  // ---------------------------------------------------------------------

  /** What the prompt is built from. */
  datatype ChatRequest = ChatRequest(question: string, context: string)

  /** The chat model: its reply to a prompt, or the exception it raises. */
  datatype ChatApi = ChatApi(complete: ChatRequest -> string, raises: ChatRequest -> Option<ApiError>)

  /** The `HTTPException` a chat-completion exception is turned into. */
  function ChatError(e: ApiError): (r: HttpError)
    ensures r.status == (if e == RateLimited then 429 else 500)
  {
    match e
    case RateLimited => HttpError(429, "Service temporarily unavailable")
    case AuthenticationFailed => HttpError(500, "Service configuration error")
    case OtherFailure => HttpError(500, "Failed to generate answer")
  }

  /** `generate_answer(question, context_chunks)`, with the request it sends
      to the chat model, if any. */
  method GenerateAnswer(chat: ChatApi, question: string, chunks: seq<SearchResult>)
    returns (r: Result<string>, request: Option<ChatRequest>)
    ensures chunks == [] ==> r == Success(NO_RELEVANT_INFORMATION) && request == None
    ensures chunks != [] ==>
              && request == Some(ChatRequest(question, Join(ContextParts(chunks), CONTEXT_SEPARATOR)))
              && (chat.raises(request.value).Some? ==> r == Failure(ChatError(chat.raises(request.value).value)))
              && (chat.raises(request.value).None? ==> r == Success(Strip(chat.complete(request.value))))
  {
    if chunks == [] {
      return Success(NO_RELEVANT_INFORMATION), None;
    }
    var parts := BuildContext(chunks);
    var context := Join(parts, CONTEXT_SEPARATOR);
    var req := ChatRequest(question, context);
    request := Some(req);
    var raised := chat.raises(req);
    if raised.Some? {
      return Failure(ChatError(raised.value)), request;
    }
    r := Success(Strip(chat.complete(req)));
  }

  // ---------------------------------------------------------------------
  // Source previews
  // ---------------------------------------------------------------------

  /** `content` cut to `maxContentLength` characters (a Python slice, so a
      negative bound counts from the end) with "..." appended, when longer. */
  function Preview(content: string, maxContentLength: int): string {
    if |content| > maxContentLength then Slice(content, 0, maxContentLength) + "..." else content
  }

  /** A preview is the content itself when it fits; otherwise a prefix of the
      content followed by "...", exactly `maxContentLength` characters of it
      when that bound is not negative, so at most `maxContentLength + 3`
      characters in all. */
  lemma PreviewFacts(content: string, maxContentLength: int)
    ensures |content| <= maxContentLength ==> Preview(content, maxContentLength) == content
    ensures |content| > maxContentLength ==>
              && 3 <= |Preview(content, maxContentLength)| <= |content| + 3
              && Preview(content, maxContentLength)[|Preview(content, maxContentLength)| - 3..] == "..."
              && Preview(content, maxContentLength)[..|Preview(content, maxContentLength)| - 3]
                 == content[..|Preview(content, maxContentLength)| - 3]
    ensures |content| > maxContentLength >= 0 ==>
              Preview(content, maxContentLength) == content[..maxContentLength] + "..."
    ensures maxContentLength >= 0 ==> |Preview(content, maxContentLength)| <= maxContentLength + 3
  {
    if |content| > maxContentLength {
      var cut := Slice(content, 0, maxContentLength);
      assert cut == content[..|cut|];
    }
  }

  /** `prepare_sources(context_chunks, max_content_length)`. */
  method PrepareSources(chunks: seq<SearchResult>, maxContentLength: int) returns (sources: seq<SourceInfo>)
    ensures |sources| == |chunks|
    ensures forall i | 0 <= i < |chunks| ::
              && sources[i].content == Preview(chunks[i].content, maxContentLength)
              && sources[i].pageNumber == chunks[i].metadata.pageNumber
              && sources[i].filename == chunks[i].metadata.filename
              && sources[i].chunkId == chunks[i].metadata.chunkId
              && sources[i].similarityScore == chunks[i].similarityScore
  {
    sources := [];
    for i := 0 to |chunks|
      invariant |sources| == i
      invariant forall j | 0 <= j < i ::
                  && sources[j].content == Preview(chunks[j].content, maxContentLength)
                  && sources[j].pageNumber == chunks[j].metadata.pageNumber
                  && sources[j].filename == chunks[j].metadata.filename
                  && sources[j].chunkId == chunks[j].metadata.chunkId
                  && sources[j].similarityScore == chunks[j].similarityScore
    {
      var chunk := chunks[i];
      var contentPreview := chunk.content;
      if |contentPreview| > maxContentLength {
        contentPreview := Slice(contentPreview, 0, maxContentLength) + "...";
      }
      sources := sources + [SourceInfo(contentPreview, chunk.metadata.pageNumber, chunk.metadata.filename,
                                       chunk.similarityScore, chunk.metadata.chunkId)];
    }
  }
}
