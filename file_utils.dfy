/**
 * The security helpers used on uploads and extracted text: filename and text
 * sanitising, the size check and the extension part of the PDF check.
 */
module FileUtils {
  import opened Builtins

  /** Filenames are cut to this many characters. */
  const MAX_FILENAME_LENGTH: nat := 255

  /** The characters a stored filename may contain: ASCII letters, digits,
      '.', '-' and '_'. */
  predicate IsSafeFilenameChar(c: char) {
    'a' <= c <= 'z' || 'A' <= c <= 'Z' || '0' <= c <= '9' || c == '.' || c == '-' || c == '_'
  }

  /** `sanitize_filename`: keep only safe characters, then keep at most 255 of
      them. The result is a prefix of the filtered name, holds only safe
      characters and so no path separator. */
  function SanitizeFilename(filename: string): (r: string)
    ensures |r| == Min(|Filter(filename, IsSafeFilenameChar)|, MAX_FILENAME_LENGTH)
    ensures r == Filter(filename, IsSafeFilenameChar)[..|r|]
    ensures forall i | 0 <= i < |r| :: IsSafeFilenameChar(r[i])
    ensures '/' !in r && '\\' !in r
  {
    var r := Slice(Filter(filename, IsSafeFilenameChar), 0, MAX_FILENAME_LENGTH);
    assert forall c | c in r :: IsSafeFilenameChar(c);
    r
  }

  /** Sanitising a sanitised filename changes nothing. */
  lemma SanitizeFilenameIdempotent(filename: string)
    ensures SanitizeFilename(SanitizeFilename(filename)) == SanitizeFilename(filename)
  {
    var r := SanitizeFilename(filename);
    FilterKeepsAll(r, IsSafeFilenameChar);
  }

  predicate IsPrintableOrSpace(c: char) {
    IsPrintable(c) || IsSpace(c)
  }

  /** `sanitize_text`: the printable and whitespace characters of `text`, in
      their original order. */
  function SanitizeText(text: string): (r: string)
    ensures forall i | 0 <= i < |r| :: IsPrintable(r[i]) || IsSpace(r[i])
    ensures IsSubsequence(r, text)
  {
    FilterIsSubsequence(text, IsPrintableOrSpace);
    Filter(text, IsPrintableOrSpace)
  }

  /** A character is kept exactly when it is printable or whitespace, and
      then every one of its occurrences is kept. */
  lemma SanitizeTextKeeps(text: string, c: char)
    ensures c in SanitizeText(text) <==> c in text && (IsPrintable(c) || IsSpace(c))
    ensures multiset(SanitizeText(text))[c] == if IsPrintable(c) || IsSpace(c) then multiset(text)[c] else 0
  {
    FilterMembership(text, IsPrintableOrSpace, c);
    FilterCount(text, IsPrintableOrSpace, c);
  }

  /** Sanitising sanitised text changes nothing. */
  lemma SanitizeTextIdempotent(text: string)
    ensures SanitizeText(SanitizeText(text)) == SanitizeText(text)
  {
    FilterKeepsAll(SanitizeText(text), IsPrintableOrSpace);
  }

  /** `validate_file_size`: the content is neither empty nor over the limit. */
  function ValidateFileSize(content: seq<bv8>, maxSize: int): (ok: bool)
    ensures ok <==> 0 < |content| <= maxSize
  {
    |content| <= maxSize && |content| > 0
  }

  /** Python's `str.lower()` restricted to ASCII letters. Enough for the
      ".pdf" test: no other code point lower-cases to a string ending in one
      of '.', 'p', 'd', 'f'. */
  function LowerChar(c: char): char {
    if 'A' <= c <= 'Z' then (c as int + 32) as char else c
  }

  function Lower(s: string): (r: string)
    ensures |r| == |s|
    ensures forall i | 0 <= i < |s| :: r[i] == LowerChar(s[i])
  {
    if s == [] then [] else [LowerChar(s[0])] + Lower(s[1..])
  }

  function EndsWith(s: string, suffix: string): bool {
    |suffix| <= |s| && s[|s| - |suffix|..] == suffix
  }

  /** `validate_pdf_file`: the lower-cased name ends in ".pdf" and the type
      guessed from the name is `application/pdf`. `guessedType` stands for
      what `mimetypes.guess_type` returns. An accepted name ends in a dot and
      the letters p, d, f in either case. */
  function ValidatePdfFile(filename: string, guessedType: Option<string>): (ok: bool)
    ensures ok <==> EndsWith(Lower(filename), ".pdf") && guessedType == Some("application/pdf")
    ensures ok ==> |filename| >= 4 && filename[|filename| - 4] == '.'
                   && filename[|filename| - 3] in "pP" && filename[|filename| - 2] in "dD"
                   && filename[|filename| - 1] in "fF"
  {
    var n := |filename|;
    if !EndsWith(Lower(filename), ".pdf") then false
    else
      assert Lower(filename)[n - 4..] == ".pdf";
      assert LowerChar(filename[n - 4]) == '.' && LowerChar(filename[n - 3]) == 'p';
      assert LowerChar(filename[n - 2]) == 'd' && LowerChar(filename[n - 1]) == 'f';
      guessedType == Some("application/pdf")
  }
}
