/**
 * The vector store: the chunks, their metadata and their embedding vectors,
 * plus the per-document records. The OpenAI embedding endpoint and the FAISS
 * index are replaced by oracles: an embedding function with a per-request
 * failure oracle, and a normalisation function with a search oracle that
 * returns scored positions.
 */
module VectorStore {
  import opened Builtins
  import opened Http
  import opened Schemas
  import Config

  /** An embedding vector; its numbers are never inspected. */
  type Vector = seq<real>

  /** How many texts go into one embedding request. */
  const BATCH_SIZE: nat := 100

  /** The OpenAI embedding endpoint: the vector of each text, and for each
      request (one batch of texts) the exception it raises, if any. */
  datatype EmbeddingApi = EmbeddingApi(embed: string -> Vector, raises: seq<string> -> Option<ApiError>)

  /** One row of a FAISS search: the inner-product score and the stored
      position (-1 when the index had fewer vectors than asked for). */
  datatype ScoredPosition = ScoredPosition(score: real, position: int)

  /** FAISS: `normalize_L2` on one vector, and `IndexFlatIP.search` of the
      stored vectors for one query vector and a result count. */
  datatype VectorIndex = VectorIndex(
    normalize: Vector -> Vector,
    search: (seq<Vector>, Vector, int) -> seq<ScoredPosition>)

  // ---------------------------------------------------------------------
  // create_embeddings
  // ---------------------------------------------------------------------

  /** The `HTTPException` an OpenAI exception is turned into: a rate limit
      becomes 429, everything else 500. */
  function EmbeddingError(e: ApiError): (r: HttpError)
    ensures r.status == (if e == RateLimited then 429 else 500)
  {
    match e
    case RateLimited => HttpError(429, "Service temporarily unavailable due to rate limits")
    case AuthenticationFailed => HttpError(500, "Service configuration error")
    case OtherFailure => HttpError(500, "Failed to process document")
  }

  /** Where the batch starting at offset `i` ends. */
  function BatchEnd(texts: seq<string>, i: nat): nat {
    Min(i + BATCH_SIZE, |texts|)
  }

  /** `texts[i:i + 100]`. */
  function Batch(texts: seq<string>, i: nat): seq<string>
    requires i <= |texts|
  {
    texts[i..BatchEnd(texts, i)]
  }

  /** The batching loop of `create_embeddings` run on from offset `i`, with
      the vectors `acc` collected and the batches `sent` requested so far:
      the result, and every request made. */
  function EmbedLoop(api: EmbeddingApi, texts: seq<string>, i: nat, acc: seq<Vector>, sent: seq<seq<string>>)
    : (Result<seq<Vector>>, seq<seq<string>>)
    requires i <= |texts|
    decreases |texts| - i
  {
    if i == |texts| then (Success(acc), sent)
    else
      var batch := Batch(texts, i);
      match api.raises(batch)
      case Some(e) => (Failure(EmbeddingError(e)), sent + [batch])
      case None => EmbedLoop(api, texts, BatchEnd(texts, i), acc + Map(api.embed, batch), sent + [batch])
  }

  /** What `create_embeddings(texts)` returns or raises. */
  function Embeddings(api: EmbeddingApi, texts: seq<string>): Result<seq<Vector>> {
    EmbedLoop(api, texts, 0, [], []).0
  }

  /** The requests `create_embeddings(texts)` sends, in order. */
  function Requests(api: EmbeddingApi, texts: seq<string>): seq<seq<string>> {
    EmbedLoop(api, texts, 0, [], []).1
  }

  /** The batches from offset `i` on. */
  function BatchesFrom(texts: seq<string>, i: nat): seq<seq<string>>
    requires i <= |texts|
    decreases |texts| - i
  {
    if i == |texts| then [] else [Batch(texts, i)] + BatchesFrom(texts, BatchEnd(texts, i))
  }

  /** The exception of the first batch whose request raises. */
  function FirstRaised(api: EmbeddingApi, batches: seq<seq<string>>): Option<ApiError> {
    if batches == [] then None
    else if api.raises(batches[0]).Some? then api.raises(batches[0])
    else FirstRaised(api, batches[1..])
  }

  /** The batches requested: each in turn, up to and including the first
      whose request raises. */
  function Requested(api: EmbeddingApi, batches: seq<seq<string>>): seq<seq<string>> {
    if batches == [] then []
    else [batches[0]] + (if api.raises(batches[0]).Some? then [] else Requested(api, batches[1..]))
  }

  /** The embeddings of `texts[i:]` when every request succeeds, the first
      exception otherwise. */
  function EmbedRest(api: EmbeddingApi, texts: seq<string>, i: nat, acc: seq<Vector>): Result<seq<Vector>>
    requires i <= |texts|
  {
    match FirstRaised(api, BatchesFrom(texts, i))
    case Some(e) => Failure(EmbeddingError(e))
    case None => Success(acc + Map(api.embed, texts[i..]))
  }

  /** The batches cover `texts[i:]` in order, each holding 1 to 100 texts. */
  lemma {:induction false} BatchesCover(texts: seq<string>, i: nat)
    requires i <= |texts|
    ensures Flatten(BatchesFrom(texts, i)) == texts[i..]
    ensures forall b | b in BatchesFrom(texts, i) :: 1 <= |b| <= BATCH_SIZE
    decreases |texts| - i
  {
    if i < |texts| {
      var j := BatchEnd(texts, i);
      BatchesCover(texts, j);
      assert texts[i..] == texts[i..j] + texts[j..];
    }
  }

  /** One turn of the batching loop that does not raise. */
  lemma EmbedRestStep(api: EmbeddingApi, texts: seq<string>, i: nat, acc: seq<Vector>)
    requires i < |texts| && api.raises(Batch(texts, i)).None?
    ensures EmbedRest(api, texts, i, acc)
            == EmbedRest(api, texts, BatchEnd(texts, i), acc + Map(api.embed, Batch(texts, i)))
  {
    var j := BatchEnd(texts, i);
    var batch := Batch(texts, i);
    var rest := BatchesFrom(texts, j);
    assert BatchesFrom(texts, i) == [batch] + rest;
    assert ([batch] + rest)[1..] == rest;
    if FirstRaised(api, rest).None? {
      assert texts[i..] == batch + texts[j..];
      MapAppend(api.embed, batch, texts[j..]);
      assert acc + Map(api.embed, texts[i..]) == (acc + Map(api.embed, batch)) + Map(api.embed, texts[j..]);
    }
  }

  /** The loop returns the embeddings of every text when no request raises,
      and the first exception otherwise; it sends the batches in order, up to
      and including the first that raises. */
  lemma {:induction false} EmbedLoopResult(api: EmbeddingApi, texts: seq<string>, i: nat,
                                           acc: seq<Vector>, sent: seq<seq<string>>)
    requires i <= |texts|
    ensures EmbedLoop(api, texts, i, acc, sent).0 == EmbedRest(api, texts, i, acc)
    ensures EmbedLoop(api, texts, i, acc, sent).1 == sent + Requested(api, BatchesFrom(texts, i))
    decreases |texts| - i
  {
    if i < |texts| {
      var batch := Batch(texts, i);
      var j := BatchEnd(texts, i);
      var rest := BatchesFrom(texts, j);
      assert BatchesFrom(texts, i) == [batch] + rest;
      assert ([batch] + rest)[0] == batch && ([batch] + rest)[1..] == rest;
      if api.raises(batch).None? {
        EmbedLoopResult(api, texts, j, acc + Map(api.embed, batch), sent + [batch]);
        EmbedRestStep(api, texts, i, acc);
        AppendCons(sent, batch, Requested(api, rest));
      } else {
        assert Requested(api, BatchesFrom(texts, i)) == [batch] + [];
      }
    } else {
      assert Map(api.embed, texts[i..]) == [];
      assert acc + [] == acc && sent + [] == sent;
    }
  }

  /** `create_embeddings` returns one vector per text, the text's own, in
      order, unless a request raises; then it raises the mapped exception of
      the first request that did. It requests the batches of at most 100
      texts that cover the input in order, stopping after a raise. */
  lemma EmbeddingsResult(api: EmbeddingApi, texts: seq<string>)
    ensures FirstRaised(api, BatchesFrom(texts, 0)).None? ==>
              Embeddings(api, texts) == Success(Map(api.embed, texts))
    ensures FirstRaised(api, BatchesFrom(texts, 0)).Some? ==>
              Embeddings(api, texts) == Failure(EmbeddingError(FirstRaised(api, BatchesFrom(texts, 0)).value))
    ensures Requests(api, texts) == Requested(api, BatchesFrom(texts, 0))
    ensures Flatten(BatchesFrom(texts, 0)) == texts
    ensures forall b | b in BatchesFrom(texts, 0) :: 1 <= |b| <= BATCH_SIZE
  {
    EmbedLoopResult(api, texts, 0, [], []);
    BatchesCover(texts, 0);
    assert texts[0..] == texts;
    assert [] + Map(api.embed, texts) == Map(api.embed, texts);
    assert [] + Requested(api, BatchesFrom(texts, 0)) == Requested(api, BatchesFrom(texts, 0));
  }

  /** `create_embeddings` raises only `HTTPException`s, and on success
      returns one vector per text. */
  lemma EmbeddingsShape(api: EmbeddingApi, texts: seq<string>)
    ensures !Embeddings(api, texts).Crash?
    ensures Embeddings(api, texts).Success? ==> |Embeddings(api, texts).value| == |texts|
  {
    EmbeddingsResult(api, texts);
  }

  /** Every batch is requested when none raises. */
  lemma {:induction false} RequestedAll(api: EmbeddingApi, batches: seq<seq<string>>)
    requires FirstRaised(api, batches).None?
    ensures Requested(api, batches) == batches
  {
    if batches != [] {
      RequestedAll(api, batches[1..]);
      assert batches == [batches[0]] + batches[1..];
    }
  }

  /** Otherwise the requests are the batches up to the first that raises,
      which comes last and raised the reported exception, all before it
      having succeeded. */
  lemma {:induction false} RequestedStops(api: EmbeddingApi, batches: seq<seq<string>>)
    requires FirstRaised(api, batches).Some?
    ensures 0 < |Requested(api, batches)| <= |batches|
    ensures Requested(api, batches) == batches[..|Requested(api, batches)|]
    ensures api.raises(Requested(api, batches)[|Requested(api, batches)| - 1]) == FirstRaised(api, batches)
    ensures forall i | 0 <= i < |Requested(api, batches)| - 1 :: api.raises(Requested(api, batches)[i]).None?
  {
    var req := Requested(api, batches);
    if api.raises(batches[0]).None? {
      RequestedStops(api, batches[1..]);
      var tail := Requested(api, batches[1..]);
      assert req == [batches[0]] + tail;
      assert batches[..|req|] == [batches[0]] + batches[1..][..|tail|];
    } else {
      assert req == [batches[0]];
    }
  }

  /** A single text is one request. */
  lemma SingleRequest(api: EmbeddingApi, text: string)
    ensures Requests(api, [text]) == [[text]]
    ensures Embeddings(api, [text])
            == if api.raises([text]).Some? then Failure(EmbeddingError(api.raises([text]).value))
               else Success([api.embed(text)])
  {
    EmbeddingsResult(api, [text]);
    assert BatchesFrom([text], 0) == [[text]] by {
      assert Batch([text], 0) == [text];
      assert BatchesFrom([text], 1) == [];
    }
    assert [[text]][1..] == [];
    assert Requested(api, [[text]]) == [[text]] + [];
    assert Map(api.embed, [text]) == [api.embed(text)];
  }

  // ---------------------------------------------------------------------
  // search
  // ---------------------------------------------------------------------

  /** One search result: the chunk, its metadata and its score. */
  datatype SearchResult = SearchResult(content: string, metadata: ChunkMetadata, similarityScore: real)

  /** `min(k or MAX_RESULTS, ntotal, 20)`. */
  function SearchK(k: Option<int>, ntotal: nat): (r: int)
    ensures r <= ntotal && r <= 20
    ensures r == Min(Min(OrDefault(k, Config.MAX_RESULTS), ntotal), 20)
  {
    Min(Min(OrDefault(k, Config.MAX_RESULTS), ntotal), 20)
  }

  /** The result loop of `search` over the rows `rows`: rows whose position
      lies outside the chunk list are skipped; the others give a result in
      the order of the rows, and raise `IndexError` when the metadata list is
      shorter than the chunk list at that position. */
  function CollectResults(chunks: seq<string>, metadata: seq<ChunkMetadata>, rows: seq<ScoredPosition>)
    : Result<seq<SearchResult>>
  {
    if rows == [] then Success([])
    else
      match CollectResults(chunks, metadata, rows[..|rows| - 1])
      case Success(results) =>
        var row := rows[|rows| - 1];
        if 0 <= row.position < |chunks| then
          if row.position < |metadata| then
            Success(results + [SearchResult(chunks[row.position], metadata[row.position], row.score)])
          else Crash
        else Success(results)
      case other => other
  }

  /** Once the loop raises, it has raised for the whole list. */
  lemma {:induction false} CrashPersists(chunks: seq<string>, metadata: seq<ChunkMetadata>, rows: seq<ScoredPosition>, j: nat)
    requires j <= |rows| && CollectResults(chunks, metadata, rows[..j]).Crash?
    ensures CollectResults(chunks, metadata, rows).Crash?
    decreases |rows| - j
  {
    if j < |rows| {
      assert rows[..j + 1][..j] == rows[..j];
      CrashPersists(chunks, metadata, rows, j + 1);
    } else {
      assert rows[..j] == rows;
    }
  }

  /** A row the result loop keeps. */
  predicate InRange(chunks: seq<string>, row: ScoredPosition) {
    0 <= row.position < |chunks|
  }

  /** The indexes of the rows the result loop keeps, in order. */
  function KeptRows(chunks: seq<string>, rows: seq<ScoredPosition>): seq<nat> {
    if rows == [] then []
    else
      var n := |rows| - 1;
      KeptRows(chunks, rows[..n]) + (if InRange(chunks, rows[n]) then [n] else [])
  }

  /** The result loop fails exactly when some kept row has no metadata. */
  lemma {:induction false} CollectCrashes(chunks: seq<string>, metadata: seq<ChunkMetadata>, rows: seq<ScoredPosition>)
    ensures CollectResults(chunks, metadata, rows).Success?
            <==> forall j | 0 <= j < |rows| && InRange(chunks, rows[j]) :: rows[j].position < |metadata|
    ensures !CollectResults(chunks, metadata, rows).Failure?
  {
    if rows != [] {
      var n := |rows| - 1;
      CollectCrashes(chunks, metadata, rows[..n]);
      assert forall j | 0 <= j < n :: rows[..n][j] == rows[j];
    }
  }

  /** The results are those of the kept rows, in the order of the rows: the
      j-th result pairs `chunks[idx]` with `metadata[idx]` for the position
      `idx` of the j-th kept row. */
  lemma {:induction false} CollectKeptRows(chunks: seq<string>, metadata: seq<ChunkMetadata>, rows: seq<ScoredPosition>)
    requires CollectResults(chunks, metadata, rows).Success?
    ensures |CollectResults(chunks, metadata, rows).value| == |KeptRows(chunks, rows)|
    ensures forall i | 0 <= i < |KeptRows(chunks, rows)| ::
              var j := KeptRows(chunks, rows)[i];
              j < |rows| && InRange(chunks, rows[j]) && rows[j].position < |metadata|
              && CollectResults(chunks, metadata, rows).value[i]
                 == SearchResult(chunks[rows[j].position], metadata[rows[j].position], rows[j].score)
  {
    if rows != [] {
      var n := |rows| - 1;
      var init := rows[..n];
      CollectKeptRows(chunks, metadata, init);
      var prev := CollectResults(chunks, metadata, init).value;
      var results := CollectResults(chunks, metadata, rows).value;
      var kept := KeptRows(chunks, rows);
      var keptInit := KeptRows(chunks, init);
      forall i | 0 <= i < |kept|
        ensures var j := kept[i];
                j < |rows| && InRange(chunks, rows[j]) && rows[j].position < |metadata|
                && results[i] == SearchResult(chunks[rows[j].position], metadata[rows[j].position], rows[j].score)
      {
        if i < |keptInit| {
          assert kept[i] == keptInit[i] && results[i] == prev[i];
          assert init[keptInit[i]] == rows[keptInit[i]];
        } else {
          assert kept[i] == n;
        }
      }
    }
  }

  /** The kept rows are listed in increasing order, and every row inside the
      chunk list is among them. */
  lemma {:induction false} KeptRowsOrdered(chunks: seq<string>, rows: seq<ScoredPosition>)
    ensures forall i | 0 <= i < |KeptRows(chunks, rows)| :: KeptRows(chunks, rows)[i] < |rows|
    ensures forall i, i' | 0 <= i < i' < |KeptRows(chunks, rows)| :: KeptRows(chunks, rows)[i] < KeptRows(chunks, rows)[i']
    ensures forall j | 0 <= j < |rows| && InRange(chunks, rows[j]) :: j in KeptRows(chunks, rows)
  {
    if rows != [] {
      var n := |rows| - 1;
      KeptRowsOrdered(chunks, rows[..n]);
      var kept := KeptRows(chunks, rows);
      var keptInit := KeptRows(chunks, rows[..n]);
      assert forall i | 0 <= i < |keptInit| :: kept[i] == keptInit[i];
      forall j | 0 <= j < |rows| && InRange(chunks, rows[j])
        ensures j in kept
      {
        if j < n {
          assert rows[..n][j] == rows[j];
          assert j in keptInit;
        } else {
          assert kept[|kept| - 1] == n;
        }
      }
    }
  }

  /** A FAISS search never returns more rows than it was asked for. */
  ghost predicate ReturnsAtMostK(faiss: VectorIndex) {
    forall vs, q, k | k >= 0 :: |faiss.search(vs, q, k)| <= k
  }

  // ---------------------------------------------------------------------
  // The service
  // ---------------------------------------------------------------------

  /** The files `save` writes: the FAISS index, the pickled chunks and
      metadata, and the JSON document map; None until written. */
  datatype Disk = Disk(
    index: Option<seq<Vector>>,
    chunks: Option<seq<string>>,
    metadata: Option<seq<ChunkMetadata>>,
    documents: Option<map<string, DocumentInfo>>)

  /** What `get_stats` reports. */
  datatype Stats = Stats(totalDocuments: nat, totalChunks: nat, indexSize: nat, documents: seq<DocumentInfo>)

  /** `ntotal` of an index, 0 when it does not exist yet. */
  function IndexSize(index: Option<seq<Vector>>): nat {
    if index.Some? then |index.value| else 0
  }

  /** The vectors of an index, none when it does not exist yet. */
  function Vectors(index: Option<seq<Vector>>): seq<Vector> {
    if index.Some? then index.value else []
  }

  /** The values of a dictionary in its insertion order `order`. */
  function ValuesInOrder(m: map<string, DocumentInfo>, order: seq<string>): (r: seq<DocumentInfo>)
    ensures |r| <= |order|
  {
    if order == [] then []
    else (if order[0] in m then [m[order[0]]] else []) + ValuesInOrder(m, order[1..])
  }

  /** When the order lists exactly the keys, every key once, there is one
      value per key, each in its key's place. */
  lemma {:induction false} ValuesInOrderFacts(m: map<string, DocumentInfo>, order: seq<string>)
    requires forall d | d in order :: d in m
    ensures |ValuesInOrder(m, order)| == |order|
    ensures forall i | 0 <= i < |order| :: ValuesInOrder(m, order)[i] == m[order[i]]
  {
    if order != [] {
      ValuesInOrderFacts(m, order[1..]);
    }
  }

  /** The size of a map whose keys a duplicate-free sequence lists exactly. */
  lemma {:induction false} OrderCardinality(m: map<string, DocumentInfo>, order: seq<string>)
    requires Distinct(order)
    requires m.Keys == set d | d in order
    ensures |m| == |order|
  {
    DistinctCardinality(order);
  }

  class VectorStoreService {
    /** The FAISS index, created on the first successful `add_documents`. */
    var index: Option<seq<Vector>>
    var chunks: seq<string>
    var metadata: seq<ChunkMetadata>
    /** `document_metadata`, a dictionary; `documentOrder` keeps its
        insertion order, which `list(values())` follows. */
    var documentMetadata: map<string, DocumentInfo>
    var documentOrder: seq<string>
    var disk: Disk

    /** The index holds one vector per chunk, the total chunk cap holds, and
        the insertion order lists every document once. */
    predicate Valid()
      reads this
    {
      && IndexSize(index) == |chunks|
      && |chunks| <= Config.MAX_TOTAL_CHUNKS
      && Distinct(documentOrder)
      && documentMetadata.Keys == set d | d in documentOrder
    }

    constructor()
      ensures index == None && chunks == [] && metadata == []
      ensures documentMetadata == map[] && documentOrder == []
      ensures disk == Disk(None, None, None, None)
      ensures Valid()
    {
      index := None;
      chunks := [];
      metadata := [];
      documentMetadata := map[];
      documentOrder := [];
      disk := Disk(None, None, None, None);
    }

    /** `create_embeddings(texts)`, with the requests it sends. */
    method CreateEmbeddings(api: EmbeddingApi, texts: seq<string>) returns (r: Result<seq<Vector>>, sent: seq<seq<string>>)
      ensures r == Embeddings(api, texts) && sent == Requests(api, texts)
    {
      var allEmbeddings: seq<Vector> := [];
      sent := [];
      var i: nat := 0;
      while i < |texts|
        invariant i <= |texts|
        invariant EmbedLoop(api, texts, i, allEmbeddings, sent) == EmbedLoop(api, texts, 0, [], [])
        decreases |texts| - i
      {
        var batch := texts[i..BatchEnd(texts, i)];
        sent := sent + [batch];
        var raised := api.raises(batch);
        if raised.Some? {
          return Failure(EmbeddingError(raised.value)), sent;
        }
        allEmbeddings := allEmbeddings + Map(api.embed, batch);
        i := BatchEnd(texts, i);
      }
      r := Success(allEmbeddings);
    }

    /** The 413 raised when the chunks would exceed the total cap. */
    static function CapacityExceeded(): HttpError {
      HttpError(413, "Maximum number of chunks (" + NatToString(Config.MAX_TOTAL_CHUNKS) + ") exceeded")
    }

    /** `add_documents(chunks, metadata)`, with the embedding requests it sends. */
    method AddDocuments(api: EmbeddingApi, faiss: VectorIndex, newChunks: seq<string>, newMetadata: seq<ChunkMetadata>)
      returns (o: Outcome, sent: seq<seq<string>>)
      modifies this
      ensures newChunks == [] ==> o == Pass
      ensures newChunks != [] && |old(chunks)| + |newChunks| > Config.MAX_TOTAL_CHUNKS ==> o == Fail(CapacityExceeded())
      ensures newChunks == [] || |old(chunks)| + |newChunks| > Config.MAX_TOTAL_CHUNKS ==> sent == [] && unchanged(this)
      ensures newChunks != [] && |old(chunks)| + |newChunks| <= Config.MAX_TOTAL_CHUNKS ==>
                sent == Requests(api, newChunks)
                && (Embeddings(api, newChunks).Failure? ==> o == Fail(Embeddings(api, newChunks).error) && unchanged(this))
                && (Embeddings(api, newChunks).Success? ==>
                      && o == Pass
                      && index == Some(Vectors(old(index)) + Map(faiss.normalize, Embeddings(api, newChunks).value))
                      && chunks == old(chunks) + newChunks
                      && metadata == old(metadata) + newMetadata
                      && documentMetadata == old(documentMetadata) && documentOrder == old(documentOrder)
                      && disk == old(disk))
      ensures old(Valid()) ==> Valid()
    {
      if newChunks == [] {
        return Pass, [];
      }
      if |chunks| + |newChunks| > Config.MAX_TOTAL_CHUNKS {
        return Fail(CapacityExceeded()), [];
      }
      var embeddings;
      embeddings, sent := CreateEmbeddings(api, newChunks);
      EmbeddingsShape(api, newChunks);
      if !embeddings.Success? {
        return Fail(embeddings.error), sent;
      }
      var vectors := Map(faiss.normalize, embeddings.value);
      assert |vectors| == |newChunks|;
      if index.None? {
        index := Some([]);
      }
      index := Some(index.value + vectors);
      chunks := chunks + newChunks;
      metadata := metadata + newMetadata;
      o := Pass;
    }

    /** `search(query, k)`, with the embedding requests it sends. */
    method Search(api: EmbeddingApi, faiss: VectorIndex, query: string, k: Option<int>)
      returns (r: Result<seq<SearchResult>>, sent: seq<seq<string>>)
      ensures IndexSize(index) == 0 || IsBlank(query) ==> r == Success([]) && sent == []
      ensures IndexSize(index) > 0 && !IsBlank(query) ==>
                sent == [[query]]
                && (api.raises([query]).Some? ==> r == Failure(EmbeddingError(api.raises([query]).value)))
                && (api.raises([query]).None? ==>
                      r == CollectResults(chunks, metadata,
                             faiss.search(Vectors(index), faiss.normalize(api.embed(query)), SearchK(k, IndexSize(index)))))
    {
      if index.None? || |index.value| == 0 {
        return Success([]), [];
      }
      StripEmptyIffBlank(query);
      if query == [] || |Strip(query)| == 0 {
        return Success([]), [];
      }
      var queryEmbedding;
      queryEmbedding, sent := CreateEmbeddings(api, [query]);
      SingleRequest(api, query);
      if !queryEmbedding.Success? {
        return Failure(queryEmbedding.error), sent;
      }
      var q := faiss.normalize(queryEmbedding.value[0]);
      var searchK := SearchK(k, |index.value|);
      var rows := faiss.search(index.value, q, searchK);
      var results: seq<SearchResult> := [];
      for j := 0 to |rows|
        invariant CollectResults(chunks, metadata, rows[..j]) == Success(results)
      {
        assert rows[..j + 1][..j] == rows[..j];
        var row := rows[j];
        if 0 <= row.position < |chunks| {
          if row.position >= |metadata| {
            CrashPersists(chunks, metadata, rows, j + 1);
            return Crash, sent;
          }
          results := results + [SearchResult(chunks[row.position], metadata[row.position], row.score)];
        }
      }
      assert rows[..|rows|] == rows;
      r := Success(results);
    }

    /** `save()` to the default paths: the index file is written only when
        the index exists; the chunks, metadata and document map always. */
    method Save()
      modifies this
      ensures disk == Disk(if index.Some? then index else old(disk.index),
                           Some(chunks), Some(metadata), Some(documentMetadata))
      ensures index == old(index) && chunks == old(chunks) && metadata == old(metadata)
      ensures documentMetadata == old(documentMetadata) && documentOrder == old(documentOrder)
    {
      var savedIndex := if index.Some? then index else disk.index;
      disk := Disk(savedIndex, Some(chunks), Some(metadata), Some(documentMetadata));
    }

    /** `get_stats()`: the document and chunk counts, the index's `ntotal`
        and the document records in insertion order. On a consistent store
        the index holds one vector per chunk and one record is listed per
        document. */
    function GetStats(): (s: Stats)
      reads this
      ensures s.totalDocuments == |documentMetadata| && s.totalChunks == |chunks|
      ensures s.indexSize == IndexSize(index)
      ensures Valid() ==> s.indexSize == s.totalChunks <= Config.MAX_TOTAL_CHUNKS
      ensures Valid() ==> s.totalDocuments == |s.documents|
    {
      var s := Stats(|documentMetadata|, |chunks|, IndexSize(index), ValuesInOrder(documentMetadata, documentOrder));
      if Valid() then
        OrderCardinality(documentMetadata, documentOrder);
        ValuesInOrderFacts(documentMetadata, documentOrder);
        s
      else s
    }

    /** `add_document_metadata(doc_id, metadata)`: inserts or overwrites
        `doc_id` only; a new key goes last in the insertion order, an
        overwritten one keeps its place. */
    method AddDocumentMetadata(docId: string, info: DocumentInfo)
      modifies this
      ensures documentMetadata == old(documentMetadata)[docId := info]
      ensures documentOrder == if docId in old(documentMetadata) then old(documentOrder) else old(documentOrder) + [docId]
      ensures index == old(index) && chunks == old(chunks) && metadata == old(metadata) && disk == old(disk)
      ensures old(Valid()) ==> Valid()
    {
      if docId !in documentMetadata {
        documentOrder := documentOrder + [docId];
      }
      documentMetadata := documentMetadata[docId := info];
    }
  }

  /** On a consistent store, `get_stats` counts one document per record it
      lists, in insertion order, and the index size equals the chunk count. */
  lemma StatsConsistent(store: VectorStoreService)
    requires store.Valid()
    ensures store.GetStats().indexSize == store.GetStats().totalChunks <= Config.MAX_TOTAL_CHUNKS
    ensures store.GetStats().totalDocuments == |store.GetStats().documents| == |store.documentOrder|
    ensures forall i | 0 <= i < |store.documentOrder| ::
              store.GetStats().documents[i] == store.documentMetadata[store.documentOrder[i]]
  {
    OrderCardinality(store.documentMetadata, store.documentOrder);
    ValuesInOrderFacts(store.documentMetadata, store.documentOrder);
  }

  /** Over consistent metadata, `search` returns at most `SearchK` results,
      each holding a chunk and its metadata at one in-range position, in the
      order FAISS ranked them, and every in-range row gives a result. */
  lemma SearchResultsFacts(faiss: VectorIndex, chunks: seq<string>, metadata: seq<ChunkMetadata>,
                           vectors: seq<Vector>, q: Vector, k: Option<int>)
    requires |metadata| == |chunks| == |vectors|
    ensures var rows := faiss.search(vectors, q, SearchK(k, |vectors|));
            var r := CollectResults(chunks, metadata, rows);
            && r.Success?
            && (ReturnsAtMostK(faiss) && SearchK(k, |vectors|) >= 0 ==> |r.value| <= SearchK(k, |vectors|))
            && |r.value| == |KeptRows(chunks, rows)|
            && (forall i | 0 <= i < |r.value| ::
                  KeptRows(chunks, rows)[i] < |rows|
                  && 0 <= rows[KeptRows(chunks, rows)[i]].position < |chunks|
                  && r.value[i].content == chunks[rows[KeptRows(chunks, rows)[i]].position]
                  && r.value[i].metadata == metadata[rows[KeptRows(chunks, rows)[i]].position])
  {
    var rows := faiss.search(vectors, q, SearchK(k, |vectors|));
    CollectCrashes(chunks, metadata, rows);
    CollectKeptRows(chunks, metadata, rows);
    KeptRowsOrdered(chunks, rows);
    KeptCountBound(KeptRows(chunks, rows), |rows|);
  }

  /** A strictly increasing sequence of naturals below `n` has at most `n` elements. */
  lemma {:induction false} KeptCountBound(s: seq<nat>, n: nat)
    requires forall i | 0 <= i < |s| :: s[i] < n
    requires forall i, i' | 0 <= i < i' < |s| :: s[i] < s[i']
    ensures |s| <= n
  {
    if s != [] {
      var last := s[|s| - 1];
      KeptCountBound(s[..|s| - 1], last);
    }
  }
}
