/**
 * The request and record shapes shared by the services and routers, and the
 * validation of an incoming question.
 */
module Schemas {
  import opened Builtins
  import Config

  /** Text extracted from one PDF page (page numbers start at 1). */
  datatype PageContent = PageContent(pageNumber: nat, content: string, charCount: nat)

  /** Everything stored beside one chunk in the vector store. */
  datatype ChunkMetadata = ChunkMetadata(
    documentId: string,
    filename: string,
    pageNumber: nat,
    chunkIndex: nat,
    chunkId: string,
    fileHash: string)

  /** The per-document record kept in the store's document map. */
  datatype DocumentInfo = DocumentInfo(
    filename: string,
    pagesCount: nat,
    chunksCount: nat,
    uploadTime: string,
    fileHash: string,
    fileSize: nat)

  /** One source shown under an answer. */
  datatype SourceInfo = SourceInfo(
    content: string,
    pageNumber: nat,
    filename: string,
    similarityScore: real,
    chunkId: string)

  datatype UploadResponse = UploadResponse(message: string, documentId: string, pagesProcessed: nat)

  /** A validated question; `maxResults` is None when the client sent null. */
  datatype QuestionRequest = QuestionRequest(question: string, maxResults: Option<int>)

  /** How an optional field arrives in the request body. */
  datatype FieldInput<T> = Omitted | Null | Given(value: T)

  /** Pydantic's verdict: the validated request, or the fields that failed. */
  datatype Validation = Accepted(request: QuestionRequest) | Rejected(fields: seq<string>)

  /** The `sanitize_question` validator: drop every non-printable character,
      then strip. The result is printable throughout, has no whitespace at
      either end, and is obtained from the input by deleting characters. */
  function SanitizeQuestion(v: string): (r: string)
    ensures forall i | 0 <= i < |r| :: IsPrintable(r[i])
    ensures r == [] || (!IsSpace(r[0]) && !IsSpace(r[|r| - 1]))
    ensures IsSubsequence(r, v) && |r| <= |v|
  {
    StrippedPrintable(v);
    StripEnds(Filter(v, IsPrintable));
    Strip(Filter(v, IsPrintable))
  }

  /** Stripping the printable characters keeps them printable and keeps
      their order in `v`. */
  lemma StrippedPrintable(v: string)
    ensures var r := Strip(Filter(v, IsPrintable));
            (forall i | 0 <= i < |r| :: IsPrintable(r[i])) && IsSubsequence(r, v)
  {
    var printable := Filter(v, IsPrintable);
    var r := Strip(printable);
    var lo := StripStart(printable);
    assert r == printable[lo..lo + |r|] by { StripIsSlice(printable); }
    assert IsSubsequence(r, v) by {
      SliceIsSubsequence(printable, lo, lo + |r|);
      FilterIsSubsequence(v, IsPrintable);
      SubsequenceTransitive(r, printable, v);
    }
    forall i | 0 <= i < |r| ensures IsPrintable(r[i]) {
      assert r[i] == printable[lo + i];
    }
  }

  /** Sanitising a sanitised question changes nothing. */
  lemma SanitizeQuestionIdempotent(v: string)
    ensures SanitizeQuestion(SanitizeQuestion(v)) == SanitizeQuestion(v)
  {
    var r := SanitizeQuestion(v);
    assert Filter(r, IsPrintable) == r by { FilterKeepsAll(r, IsPrintable); }
    assert Strip(r) == r by { StripTrimmed(r); }
  }

  predicate QuestionLengthOk(question: string) {
    1 <= |question| <= Config.MAX_QUESTION_LENGTH
  }

  predicate MaxResultsOk(maxResults: FieldInput<int>) {
    maxResults.Given? ==> 1 <= maxResults.value <= 20
  }

  /** `QuestionRequest` validation: the raw question must hold 1 to
      MAX_QUESTION_LENGTH characters (checked before sanitising), and
      `max_results`, when given, must lie in 1..20; omitted, it defaults to
      MAX_RESULTS. An accepted question is the sanitised one. */
  function ValidateQuestionRequest(question: string, maxResults: FieldInput<int>): (r: Validation)
    ensures r.Accepted? <==> QuestionLengthOk(question) && MaxResultsOk(maxResults)
    ensures r.Accepted? ==> r.request.question == SanitizeQuestion(question)
    ensures r.Accepted? && maxResults.Omitted? ==> r.request.maxResults == Some(Config.MAX_RESULTS)
    ensures r.Accepted? && maxResults.Given? ==> r.request.maxResults == Some(maxResults.value)
    ensures r.Accepted? && maxResults.Null? ==> r.request.maxResults == None
    ensures r.Rejected? ==> ("question" in r.fields <==> !QuestionLengthOk(question))
    ensures r.Rejected? ==> ("max_results" in r.fields <==> !MaxResultsOk(maxResults))
  {
    var failed := (if QuestionLengthOk(question) then [] else ["question"])
                  + (if MaxResultsOk(maxResults) then [] else ["max_results"]);
    if failed != [] then Rejected(failed)
    else
      var k := match maxResults
               case Omitted => Some(Config.MAX_RESULTS)
               case Null => None
               case Given(n) => Some(n);
      Accepted(QuestionRequest(SanitizeQuestion(question), k))
  }

  /** The length bound is checked before sanitising, so a question of spaces
      is accepted and becomes the empty string. */
  lemma BlankQuestionAccepted()
    ensures ValidateQuestionRequest("   ", Omitted) == Accepted(QuestionRequest("", Some(Config.MAX_RESULTS)))
  {
    assert Filter("   ", IsPrintable) == "   ";
    assert SkipSpaces("   ", 0) == 3;
  }
}
