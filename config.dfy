/**
 * Application settings: the numeric limits every service reads, the two
 * comma-separated list settings and the storage paths under the data
 * directory. Values are the defaults; reading them from the environment is
 * not modelled.
 */
module Config {
  import opened Builtins

  // Processing configuration
  const CHUNK_SIZE: int := 1000
  const CHUNK_OVERLAP: int := 200
  const MAX_RESULTS: int := 5
  const MAX_CONTEXT_LENGTH: int := 4000

  // Resource limits
  const MAX_FILE_SIZE: int := 52428800
  const MAX_QUESTION_LENGTH: int := 1000
  const MAX_PDF_PAGES: nat := 500
  const MAX_CHUNKS_PER_DOCUMENT: nat := 1000
  const MAX_TOTAL_CHUNKS: nat := 10000

  /** A list setting as it arrives: a raw string, or an already split list. */
  datatype ListSetting = Text(text: string) | Items(items: seq<string>)

  /** The `mode='before'` validator of `ALLOWED_HOSTS` and of `CORS_ORIGINS`:
      a string is split on commas, a list passes through. The split loses
      nothing (joining the parts with commas restores the string), no part
      holds a comma, and there is one part more than there are commas. */
  function ParseListSetting(v: ListSetting): (r: ListSetting)
    ensures r.Items?
    ensures v.Items? ==> r == v
    ensures v.Text? ==> Join(r.items, ",") == v.text
    ensures v.Text? ==> |r.items| == Count(v.text, ',') + 1
    ensures v.Text? ==> forall p | p in r.items :: ',' !in p
  {
    match v
    case Items(_) => v
    case Text(s) =>
      JoinSplit(s, ',');
      SplitParts(s, ',');
      Items(Split(s, ','))
  }

  /** A filesystem path as its sequence of components (`Path("data")` is ["data"]). */
  type Path = seq<string>

  /** `DATA_DIR / "vector_db"`: one level below the data directory. */
  function VectorDbPath(dataDir: Path): (p: Path)
    ensures |p| == |dataDir| + 1 && p[..|dataDir|] == dataDir
    ensures p[|dataDir|] == "vector_db"
  {
    dataDir + ["vector_db"]
  }

  /** `DATA_DIR / "metadata.json"`: one level below the data directory. */
  function MetadataPath(dataDir: Path): (p: Path)
    ensures |p| == |dataDir| + 1 && p[..|dataDir|] == dataDir
    ensures p[|dataDir|] == "metadata.json"
  {
    dataDir + ["metadata.json"]
  }

  /** The index directory and the document-metadata file never coincide. */
  lemma StorePathsDistinct(dataDir: Path)
    ensures VectorDbPath(dataDir) != MetadataPath(dataDir)
  {
    assert VectorDbPath(dataDir)[|dataDir|] != MetadataPath(dataDir)[|dataDir|];
  }
}
