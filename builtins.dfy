/**
 * The Python built-ins the service relies on, stated over Dafny sequences:
 * `str.isspace` / `str.isprintable`, `str.strip`, slicing with negative
 * indices, `str.rfind`, `str.split` / `str.join`, `str(int)`, the
 * `''.join(c for c in s if keep(c))` filter and `len(set(...))`.
 */
module Builtins {

  datatype Option<+T> = None | Some(value: T)

  function Min(a: int, b: int): int { if a <= b then a else b }

  /** Python's `x or default` on an optional integer parameter: None and 0
      both fall back to the default. */
  function OrDefault(x: Option<int>, default: int): (r: int)
    ensures x.None? || x == Some(0) ==> r == default
    ensures x.Some? && x.value != 0 ==> r == x.value
  {
    if x.None? || x.value == 0 then default else x.value
  }

  // ---------------------------------------------------------------------
  // Character classes
  // ---------------------------------------------------------------------

  /** A code point range, both ends included. */
  datatype Range = Range(lo: int, hi: int)

  /** `n` lies in one of the ranges. */
  predicate InRanges(n: int, ranges: seq<Range>) {
    ranges != [] && (ranges[0].lo <= n <= ranges[0].hi || InRanges(n, ranges[1..]))
  }

  /** A code point below the start of every range lies in none of them. */
  lemma {:induction false} BelowRanges(n: int, ranges: seq<Range>)
    requires forall i | 0 <= i < |ranges| :: n < ranges[i].lo
    ensures !InRanges(n, ranges)
  {
    if ranges != [] {
      BelowRanges(n, ranges[1..]);
    }
  }

  /** The code points Python's `str.isspace` accepts (bidirectional class WS,
      B or S, or category Zs). */
  const SPACE_RANGES: seq<Range> := [
    Range(0x09, 0x0d), Range(0x1c, 0x20), Range(0x85, 0x85), Range(0xa0, 0xa0),
    Range(0x1680, 0x1680), Range(0x2000, 0x200a), Range(0x2028, 0x2029),
    Range(0x202f, 0x202f), Range(0x205f, 0x205f), Range(0x3000, 0x3000)]

  /** Control characters (category Cc). */
  const CONTROL_RANGES: seq<Range> := [Range(0x00, 0x1f), Range(0x7f, 0x9f)]

  /** Format characters (category Cf) as of Unicode 15. */
  const FORMAT_RANGES: seq<Range> := [
    Range(0xad, 0xad), Range(0x600, 0x605), Range(0x61c, 0x61c), Range(0x6dd, 0x6dd),
    Range(0x70f, 0x70f), Range(0x890, 0x891), Range(0x8e2, 0x8e2), Range(0x180e, 0x180e),
    Range(0x200b, 0x200f), Range(0x202a, 0x202e), Range(0x2060, 0x2064), Range(0x2066, 0x206f),
    Range(0xfeff, 0xfeff), Range(0xfff9, 0xfffb), Range(0x110bd, 0x110bd), Range(0x110cd, 0x110cd),
    Range(0x13430, 0x1343f), Range(0x1bca0, 0x1bca3), Range(0x1d173, 0x1d17a),
    Range(0xe0001, 0xe0001), Range(0xe0020, 0xe007f)]

  /** Private-use code points (category Co). */
  const PRIVATE_USE_RANGES: seq<Range> := [
    Range(0xe000, 0xf8ff), Range(0xf0000, 0xffffd), Range(0x100000, 0x10fffd)]

  /** Python's `str.isspace` on one code point. */
  predicate IsSpace(c: char) {
    InRanges(c as int, SPACE_RANGES)
  }

  predicate IsControl(c: char) {
    InRanges(c as int, CONTROL_RANGES)
  }

  predicate IsFormat(c: char) {
    InRanges(c as int, FORMAT_RANGES)
  }

  predicate IsPrivateUse(c: char) {
    InRanges(c as int, PRIVATE_USE_RANGES)
  }

  /** Python's `str.isprintable` on one code point: everything except the
      "Other" and "Separator" categories, with the ASCII space let through. */
  predicate IsPrintable(c: char) {
    c == ' ' || (!IsSpace(c) && !IsControl(c) && !IsFormat(c) && !IsPrivateUse(c))
  }

  /** The space is the only character that is both printable and whitespace. */
  lemma PrintableSpaceIsBlank(c: char)
    requires IsPrintable(c) && IsSpace(c)
    ensures c == ' '
  {
  }

  /** Python's `not s.strip()`: the string is empty or whitespace only. */
  predicate IsBlank(s: string) {
    forall i | 0 <= i < |s| :: IsSpace(s[i])
  }

  // ---------------------------------------------------------------------
  // str.strip()
  // ---------------------------------------------------------------------

  /** The first index at or after `i` that does not hold whitespace, or `|s|`. */
  function SkipSpaces(s: string, i: nat): (j: nat)
    requires i <= |s|
    ensures i <= j <= |s|
    ensures j == |s| || !IsSpace(s[j])
    decreases |s| - i
  {
    if i < |s| && IsSpace(s[i]) then SkipSpaces(s, i + 1) else i
  }

  /** Walking back from `j`, but not past `lo`: the end of the last
      non-whitespace character, or `lo`. */
  function BackSpaces(s: string, lo: nat, j: nat): (k: nat)
    requires lo <= j <= |s|
    ensures lo <= k <= j
    ensures k == lo || !IsSpace(s[k - 1])
  {
    if j > lo && IsSpace(s[j - 1]) then BackSpaces(s, lo, j - 1) else j
  }

  /** Where `s.strip()` starts in `s`. */
  function StripStart(s: string): (lo: nat)
    ensures lo <= |s|
  {
    SkipSpaces(s, 0)
  }

  /** Where `s.strip()` ends in `s`. */
  function StripEnd(s: string): (hi: nat)
    ensures StripStart(s) <= hi <= |s|
  {
    BackSpaces(s, StripStart(s), |s|)
  }

  /** Python's `s.strip()`: drop leading and trailing whitespace. */
  function Strip(s: string): string {
    s[StripStart(s)..StripEnd(s)]
  }

  /** The stripped string is no longer than `s` and neither starts nor ends
      with whitespace. */
  lemma StripEnds(s: string)
    ensures var r := Strip(s);
            |r| <= |s| && (r == [] || (!IsSpace(r[0]) && !IsSpace(r[|r| - 1])))
  {
  }

  /** `SkipSpaces` passes over whitespace only. */
  lemma {:induction false} SkipSpacesBlank(s: string, i: nat)
    requires i <= |s|
    ensures forall k | i <= k < SkipSpaces(s, i) :: IsSpace(s[k])
    decreases |s| - i
  {
    if i < |s| && IsSpace(s[i]) {
      SkipSpacesBlank(s, i + 1);
    }
  }

  /** `BackSpaces` passes over whitespace only. */
  lemma {:induction false} BackSpacesBlank(s: string, lo: nat, j: nat)
    requires lo <= j <= |s|
    ensures forall k | BackSpaces(s, lo, j) <= k < j :: IsSpace(s[k])
  {
    if j > lo && IsSpace(s[j - 1]) {
      BackSpacesBlank(s, lo, j - 1);
    }
  }

  /** `s.strip()` is empty exactly when `s` is blank. */
  lemma StripEmptyIffBlank(s: string)
    ensures Strip(s) == [] <==> IsBlank(s)
  {
    SkipSpacesBlank(s, 0);
    BackSpacesBlank(s, StripStart(s), |s|);
  }

  /** The stripped string is the piece of `s` between `StripStart` and
      `StripEnd`, and what is cut off on either side is whitespace. */
  lemma StripIsSlice(s: string)
    ensures var lo := StripStart(s);
            lo + |Strip(s)| <= |s| && Strip(s) == s[lo..lo + |Strip(s)|]
            && IsBlank(s[..lo]) && IsBlank(s[lo + |Strip(s)|..])
  {
    SkipSpacesBlank(s, 0);
    BackSpacesBlank(s, StripStart(s), |s|);
  }

  /** A string that already has no whitespace at either end is left alone. */
  lemma StripTrimmed(s: string)
    requires s == [] || (!IsSpace(s[0]) && !IsSpace(s[|s| - 1]))
    ensures Strip(s) == s
  {
    assert s[0..|s|] == s;
  }

  /** `strip` is idempotent. */
  lemma StripIdempotent(s: string)
    ensures Strip(Strip(s)) == Strip(s)
  {
    StripEnds(s);
    StripTrimmed(Strip(s));
  }

  // ---------------------------------------------------------------------
  // Slicing s[i:j]
  // ---------------------------------------------------------------------

  /** Python's normalisation of a slice bound against a length `n`: a negative
      bound counts from the end, and the result is clamped into [0, n]. */
  function SliceBound(i: int, n: nat): (r: nat)
    ensures r <= n
    ensures 0 <= i <= n ==> r == i
  {
    if i < 0 then (if i + n < 0 then 0 else i + n)
    else if i > n then n
    else i
  }

  /** Python's `s[i:j]` for any integers `i` and `j`. */
  function Slice<T>(s: seq<T>, i: int, j: int): seq<T> {
    var a, b := SliceBound(i, |s|), SliceBound(j, |s|);
    if a < b then s[a..b] else []
  }

  /** A slice of positive width `w` never holds more than `w` elements,
      whatever the sign of its start. */
  lemma SliceWidth<T>(s: seq<T>, i: int, w: int)
    requires w > 0
    ensures |Slice(s, i, i + w)| <= w
  {
  }

  /** A slice with a non-negative start is the plain sub-sequence up to the
      clamped end. */
  lemma SliceFrom<T>(s: seq<T>, i: int, j: int)
    requires 0 <= i <= |s| && i <= j
    ensures Slice(s, i, j) == s[i..Min(j, |s|)]
  {
  }

  // ---------------------------------------------------------------------
  // str.rfind(c)
  // ---------------------------------------------------------------------

  /** The last index below `n` holding `c`, or -1. */
  function FindBefore(s: string, c: char, n: nat): (r: int)
    requires n <= |s|
    ensures -1 <= r < n
    ensures r >= 0 ==> s[r] == c
  {
    if n == 0 then -1
    else if s[n - 1] == c then n - 1
    else FindBefore(s, c, n - 1)
  }

  /** Python's `s.rfind(c)`: the last index of `c` in `s`, or -1. */
  function RFind(s: string, c: char): (r: int)
    ensures -1 <= r < |s|
    ensures r >= 0 ==> s[r] == c
  {
    FindBefore(s, c, |s|)
  }

  lemma {:induction false} FindBeforeIsLast(s: string, c: char, n: nat)
    requires n <= |s|
    ensures forall k | FindBefore(s, c, n) < k < n :: s[k] != c
  {
    if n > 0 && s[n - 1] != c {
      FindBeforeIsLast(s, c, n - 1);
    }
  }

  /** `rfind` finds the last occurrence, and -1 means there is none. */
  lemma RFindIsLast(s: string, c: char)
    ensures forall k | RFind(s, c) < k < |s| :: s[k] != c
  {
    FindBeforeIsLast(s, c, |s|);
  }

  // ---------------------------------------------------------------------
  // str.split(sep) and sep.join(parts)
  // ---------------------------------------------------------------------

  /** Python's `s.split(sep)` for a one-character separator: empty parts are
      kept, and the empty string splits into one empty part. */
  function Split(s: string, sep: char): (parts: seq<string>)
    ensures |parts| >= 1
  {
    if s == [] then [[]]
    else
      var rest := Split(s[1..], sep);
      if s[0] == sep then [[]] + rest
      else [[s[0]] + rest[0]] + rest[1..]
  }

  /** Python's `sep.join(parts)`. */
  function Join(parts: seq<string>, sep: string): string {
    if |parts| == 0 then []
    else if |parts| == 1 then parts[0]
    else parts[0] + sep + Join(parts[1..], sep)
  }

  /** Number of occurrences of `c` in `s`. */
  function Count(s: string, c: char): nat {
    if s == [] then 0 else (if s[0] == c then 1 else 0) + Count(s[1..], c)
  }

  /** Joining the parts of a split with the separator gives back the string. */
  lemma {:induction false} JoinSplit(s: string, sep: char)
    ensures Join(Split(s, sep), [sep]) == s
  {
    if s != [] {
      var rest := Split(s[1..], sep);
      JoinSplit(s[1..], sep);
      if s[0] == sep {
        assert ([[]] + rest)[1..] == rest;
      } else if |rest| > 1 {
        var parts := [[s[0]] + rest[0]] + rest[1..];
        assert parts[1..] == rest[1..];
        assert Join(rest, [sep]) == rest[0] + [sep] + Join(rest[1..], [sep]);
      }
    }
  }

  /** The parts of a split hold no separator, and there is one more part than
      there are separators. */
  lemma {:induction false} SplitParts(s: string, sep: char)
    ensures |Split(s, sep)| == Count(s, sep) + 1
    ensures forall p | p in Split(s, sep) :: sep !in p
  {
    if s != [] {
      SplitParts(s[1..], sep);
      var rest := Split(s[1..], sep);
      if s[0] != sep {
        forall p | p in Split(s, sep) ensures sep !in p {
          if p == [s[0]] + rest[0] {
            assert rest[0] in rest;
          } else {
            assert p in rest[1..];
          }
        }
      }
    }
  }

  /** Sum of the lengths of `parts` (the separators of a join not counted). */
  function TotalLength(parts: seq<string>): nat {
    if parts == [] then 0 else |parts[0]| + TotalLength(parts[1..])
  }

  lemma {:induction false} TotalLengthAppend(parts: seq<string>, x: string)
    ensures TotalLength(parts + [x]) == TotalLength(parts) + |x|
  {
    if parts != [] {
      assert (parts + [x])[1..] == parts[1..] + [x];
      TotalLengthAppend(parts[1..], x);
    }
  }

  /** A prefix of the parts is no longer in total than all of them. */
  lemma {:induction false} TotalLengthPrefix(parts: seq<string>, k: nat)
    requires k <= |parts|
    ensures TotalLength(parts[..k]) <= TotalLength(parts)
    decreases |parts| - k
  {
    if k < |parts| {
      assert parts[..k + 1] == parts[..k] + [parts[k]];
      TotalLengthAppend(parts[..k], parts[k]);
      TotalLengthPrefix(parts, k + 1);
    } else {
      assert parts[..k] == parts;
    }
  }

  /** A join is as long as its parts plus one separator between each two. */
  lemma {:induction false} JoinLength(parts: seq<string>, sep: string)
    requires parts != []
    ensures |Join(parts, sep)| == TotalLength(parts) + |sep| * (|parts| - 1)
  {
    if |parts| > 1 {
      JoinLength(parts[1..], sep);
    }
  }

  // ---------------------------------------------------------------------
  // str(n) for a non-negative integer
  // ---------------------------------------------------------------------

  function DigitChar(d: nat): (c: char)
    requires d < 10
    ensures '0' <= c <= '9'
  {
    ('0' as int + d) as char
  }

  predicate IsDigits(s: string) {
    forall i | 0 <= i < |s| :: '0' <= s[i] <= '9'
  }

  /** Python's `str(n)`: decimal digits, no leading zero. */
  function NatToString(n: nat): (r: string)
    ensures |r| >= 1 && IsDigits(r)
    ensures n >= 10 ==> |r| >= 2
  {
    if n < 10 then [DigitChar(n)] else NatToString(n / 10) + [DigitChar(n % 10)]
  }

  /** Different numbers print differently. */
  lemma {:induction false} NatToStringInjective(m: nat, n: nat)
    requires NatToString(m) == NatToString(n)
    ensures m == n
  {
    var a, b := NatToString(m), NatToString(n);
    if m >= 10 && n >= 10 {
      assert a[..|a| - 1] == NatToString(m / 10);
      assert b[..|b| - 1] == NatToString(n / 10);
      NatToStringInjective(m / 10, n / 10);
      assert DigitChar(m % 10) == a[|a| - 1] == DigitChar(n % 10);
    }
  }

  // ---------------------------------------------------------------------
  // ''.join(c for c in s if keep(c))
  // ---------------------------------------------------------------------

  /** The characters of `s` that satisfy `keep`, in their original order. */
  function Filter(s: string, keep: char -> bool): (r: string)
    ensures |r| <= |s|
    ensures forall i | 0 <= i < |r| :: keep(r[i])
  {
    if s == [] then []
    else (if keep(s[0]) then [s[0]] else []) + Filter(s[1..], keep)
  }

  /** A character survives the filter exactly when it occurs in `s` and
      satisfies `keep`. */
  lemma {:induction false} FilterMembership(s: string, keep: char -> bool, c: char)
    ensures c in Filter(s, keep) <==> c in s && keep(c)
  {
    if s != [] {
      FilterMembership(s[1..], keep, c);
      assert s == [s[0]] + s[1..];
    }
  }

  /** The filter keeps every occurrence of a kept character and none of the
      others. */
  lemma {:induction false} FilterCount(s: string, keep: char -> bool, c: char)
    ensures multiset(Filter(s, keep))[c] == if keep(c) then multiset(s)[c] else 0
  {
    if s != [] {
      FilterCount(s[1..], keep, c);
      assert s == [s[0]] + s[1..];
    }
  }

  /** A string whose characters all satisfy `keep` passes the filter unchanged. */
  lemma {:induction false} FilterKeepsAll(s: string, keep: char -> bool)
    requires forall i | 0 <= i < |s| :: keep(s[i])
    ensures Filter(s, keep) == s
  {
    if s != [] {
      FilterKeepsAll(s[1..], keep);
    }
  }

  // ---------------------------------------------------------------------
  // Sequence concatenation
  // ---------------------------------------------------------------------

  /** `f` applied to every element of `s`, in order. */
  function Map<A, B>(f: A -> B, s: seq<A>): (r: seq<B>)
    ensures |r| == |s|
  {
    seq(|s|, i requires 0 <= i < |s| => f(s[i]))
  }

  lemma MapCons<A, B>(f: A -> B, x: A, s: seq<A>)
    ensures Map(f, [x] + s) == [f(x)] + Map(f, s)
  {
    assert forall i | 1 <= i <= |s| :: ([x] + s)[i] == s[i - 1];
  }

  lemma {:induction false} MapAppend<A, B>(f: A -> B, a: seq<A>, b: seq<A>)
    ensures Map(f, a + b) == Map(f, a) + Map(f, b)
  {
    assert forall i | 0 <= i < |a + b| :: Map(f, a + b)[i] == (Map(f, a) + Map(f, b))[i];
  }

  /** The sequences of `ss` concatenated in order. */
  function Flatten<T>(ss: seq<seq<T>>): seq<T> {
    if ss == [] then [] else ss[0] + Flatten(ss[1..])
  }

  lemma AppendCons<T>(a: seq<T>, x: T, b: seq<T>)
    ensures (a + [x]) + b == a + ([x] + b)
  {
  }

  // ---------------------------------------------------------------------
  // Subsequences
  // ---------------------------------------------------------------------

  /** `a` can be obtained from `b` by deleting elements. */
  predicate IsSubsequence<T(==)>(a: seq<T>, b: seq<T>)
    decreases |b|
  {
    if |a| == 0 then true
    else if |b| == 0 then false
    else (a[0] == b[0] && IsSubsequence(a[1..], b[1..])) || IsSubsequence(a, b[1..])
  }

  lemma {:induction false} SubsequenceTransitive<T>(a: seq<T>, b: seq<T>, c: seq<T>)
    requires IsSubsequence(a, b) && IsSubsequence(b, c)
    ensures IsSubsequence(a, c)
    decreases |c|
  {
    if |a| > 0 {
      if IsSubsequence(b, c[1..]) {
        SubsequenceTransitive(a, b, c[1..]);
      } else if IsSubsequence(a, b[1..]) {
        SubsequenceTransitive(a, b[1..], c[1..]);
      } else {
        SubsequenceTransitive(a[1..], b[1..], c[1..]);
      }
    }
  }

  lemma {:induction false} SliceIsSubsequence<T>(s: seq<T>, i: nat, j: nat)
    requires i <= j <= |s|
    ensures IsSubsequence(s[i..j], s)
    decreases |s|
  {
    if i < j {
      if i > 0 {
        assert s[1..][i - 1..j - 1] == s[i..j];
        SliceIsSubsequence(s[1..], i - 1, j - 1);
      } else {
        assert s[1..][0..j - 1] == s[i..j][1..];
        SliceIsSubsequence(s[1..], 0, j - 1);
      }
    }
  }

  lemma {:induction false} FilterIsSubsequence(s: string, keep: char -> bool)
    ensures IsSubsequence(Filter(s, keep), s)
  {
    if s != [] {
      FilterIsSubsequence(s[1..], keep);
      var r := Filter(s, keep);
      if keep(s[0]) {
        assert r[0] == s[0] && r[1..] == Filter(s[1..], keep);
      } else if r != [] {
        assert r == Filter(s[1..], keep);
      }
    }
  }

  // ---------------------------------------------------------------------
  // len(set(xs))
  // ---------------------------------------------------------------------

  predicate Distinct<T(==)>(s: seq<T>) {
    forall i, j | 0 <= i < j < |s| :: s[i] != s[j]
  }

  /** A sequence without repetitions has as many distinct elements as entries. */
  lemma {:induction false} DistinctCardinality<T>(s: seq<T>)
    requires Distinct(s)
    ensures |set x | x in s| == |s|
  {
    if s != [] {
      DistinctCardinality(s[1..]);
      var rest := set x | x in s[1..];
      assert (set x | x in s) == {s[0]} + rest;
      assert s[0] !in rest;
    }
  }
}
