/** Character classes and string operations used by the server (PHP) and the
    front end (TypeScript). Strings are sequences of characters; case mapping
    is ASCII only. */
module Strings {

  predicate IsAsciiLetter(c: char) {
    ('a' <= c <= 'z') || ('A' <= c <= 'Z')
  }

  /** `\s` of a PCRE pattern without the `u` flag: space, tab, line feed,
      vertical tab, form feed, carriage return. */
  predicate IsPcreSpace(c: char) {
    c == ' ' || c == '\t' || c == '\n' || c == '\U{0B}' || c == '\U{0C}' || c == '\r'
  }

  /** The characters PHP's `trim` strips by default: " \t\n\r\0\x0B". */
  predicate IsPhpTrimChar(c: char) {
    c == ' ' || c == '\t' || c == '\n' || c == '\r' || c == '\0' || c == '\U{0B}'
  }

  /** The characters JavaScript's `String.prototype.trim` strips: white space
      (including the Unicode space separators) and line terminators. */
  predicate IsJsSpace(c: char) {
    c == ' ' || c == '\t' || c == '\n' || c == '\U{0B}' || c == '\U{0C}' || c == '\r'
    || c == '\U{A0}' || c == '\U{1680}' || ('\U{2000}' <= c <= '\U{200A}')
    || c == '\U{2028}' || c == '\U{2029}' || c == '\U{202F}' || c == '\U{205F}'
    || c == '\U{3000}' || c == '\U{FEFF}'
  }

  /** The first index at or after `i` whose character is not strippable
      (`|s|` when there is none). */
  function SkipStart(s: string, strip: char -> bool, i: nat): (j: nat)
    requires i <= |s|
    ensures i <= j <= |s|
    ensures forall k :: i <= k < j ==> strip(s[k])
    ensures j == |s| || !strip(s[j])
    decreases |s| - i
  {
    if i == |s| || !strip(s[i]) then i else SkipStart(s, strip, i + 1)
  }

  /** Going down from `j`, the end of the strippable run that finishes at `j`,
      stopping at `lo`. */
  function SkipEnd(s: string, strip: char -> bool, lo: nat, j: nat): (i: nat)
    requires lo <= j <= |s|
    ensures lo <= i <= j
    ensures forall k :: i <= k < j ==> strip(s[k])
    ensures i == lo || !strip(s[i - 1])
    decreases j
  {
    if j == lo || !strip(s[j - 1]) then j else SkipEnd(s, strip, lo, j - 1)
  }

  /** Drops leading and trailing characters that satisfy `strip`: what is
      left neither starts nor ends with one. */
  function TrimBy(s: string, strip: char -> bool): (r: string)
    ensures r == [] || (!strip(r[0]) && !strip(r[|r| - 1]))
  {
    var a := SkipStart(s, strip, 0);
    var b := SkipEnd(s, strip, a, |s|);
    s[a..b]
  }

  /** Trimming is idempotent. */
  lemma TrimByIdempotent(s: string, strip: char -> bool)
    ensures TrimBy(TrimBy(s, strip), strip) == TrimBy(s, strip)
  {
    var r := TrimBy(s, strip);
    if r != [] {
      assert SkipStart(r, strip, 0) == 0;
      assert SkipEnd(r, strip, 0, |r|) == |r|;
    }
  }

  /** A string trims to nothing exactly when all its characters are strippable. */
  lemma TrimByEmpty(s: string, strip: char -> bool)
    ensures TrimBy(s, strip) == [] <==> forall i :: 0 <= i < |s| ==> strip(s[i])
  {
    var a := SkipStart(s, strip, 0);
    var b := SkipEnd(s, strip, a, |s|);
    assert TrimBy(s, strip) == s[a..b];
  }

  /** PHP `trim($s)`. */
  function PhpTrim(s: string): string {
    TrimBy(s, IsPhpTrimChar)
  }

  /** JavaScript `s.trim()`. */
  function JsTrim(s: string): string {
    TrimBy(s, IsJsSpace)
  }

  function LowerChar(c: char): (d: char)
    ensures IsAsciiLetter(c) <==> IsAsciiLetter(d)
    ensures !('A' <= d <= 'Z')
  {
    if 'A' <= c <= 'Z' then (c as int + 32) as char else c
  }

  function UpperChar(c: char): (d: char)
    ensures IsAsciiLetter(c) <==> IsAsciiLetter(d)
    ensures !('a' <= d <= 'z')
  {
    if 'a' <= c <= 'z' then (c as int - 32) as char else c
  }

  /** `s.toLowerCase()` (ASCII letters only). */
  function Lower(s: string): (r: string)
    ensures |r| == |s|
    ensures forall i :: 0 <= i < |s| ==> r[i] == LowerChar(s[i])
  {
    seq(|s|, i requires 0 <= i < |s| => LowerChar(s[i]))
  }

  /** `s.toUpperCase()` (ASCII letters only). */
  function Upper(s: string): (r: string)
    ensures |r| == |s|
    ensures forall i :: 0 <= i < |s| ==> r[i] == UpperChar(s[i])
  {
    seq(|s|, i requires 0 <= i < |s| => UpperChar(s[i]))
  }

  /** Upper-casing first loses nothing that lower-casing keeps. */
  lemma LowerOfUpper(s: string)
    ensures Lower(Upper(s)) == Lower(s)
  {
    forall i | 0 <= i < |s|
      ensures Lower(Upper(s))[i] == Lower(s)[i]
    {
      var c := s[i];
      if 'a' <= c <= 'z' {
        assert UpperChar(c) == (c as int - 32) as char;
      }
    }
  }

  /** Lower-casing twice is lower-casing once. */
  lemma LowerIdempotent(s: string)
    ensures Lower(Lower(s)) == Lower(s)
  {
  }

  /** `s.startsWith(p)`. */
  predicate StartsWith(s: string, p: string) {
    |p| <= |s| && s[..|p|] == p
  }

  /** `s.includes(sub)`, PHP `str_contains`, SQL `LIKE '%sub%'` with no wildcard in sub. */
  predicate Contains(s: string, sub: string) {
    exists i | 0 <= i <= |s| - |sub| :: OccursAt(s, sub, i)
  }

  predicate OccursAt(s: string, sub: string, i: int)
    requires 0 <= i <= |s| - |sub|
  {
    s[i..i + |sub|] == sub
  }

  lemma StartsWithContains(s: string, p: string)
    requires StartsWith(s, p)
    ensures Contains(s, p)
  {
    assert OccursAt(s, p, 0);
  }

  /** Case-insensitive containment (both sides lower-cased). */
  predicate ContainsIgnoringCase(s: string, sub: string) {
    Contains(Lower(s), Lower(sub))
  }

  /** JavaScript `path.split('/').pop()`: the text after the last '/'
      (the whole string when there is none). */
  function LastSegment(path: string): (r: string)
    ensures |r| <= |path| && r == path[|path| - |r|..]
    ensures '/' !in r
    ensures |r| == |path| || path[|path| - |r| - 1] == '/'
  {
    if path == [] then []
    else if path[|path| - 1] == '/' then []
    else LastSegment(path[..|path| - 1]) + [path[|path| - 1]]
  }

  /** `s.charAt(0).toUpperCase() + s.slice(1)`. */
  function Capitalize(s: string): (r: string)
    ensures |r| == |s|
    ensures |s| > 0 ==> r[0] == UpperChar(s[0]) && r[1..] == s[1..]
  {
    if s == [] then [] else [UpperChar(s[0])] + s[1..]
  }

  /** Capitalising changes only the case of the first letter. */
  lemma LowerOfCapitalize(s: string)
    ensures Lower(Capitalize(s)) == Lower(s)
  {
    if s != [] {
      var c := s[0];
      if 'a' <= c <= 'z' {
        assert UpperChar(c) == (c as int - 32) as char;
      }
      assert Lower(Capitalize(s))[0] == Lower(s)[0];
    }
  }

  /** `parts.join(sep)`. */
  function Join(parts: seq<string>, sep: string): string {
    if parts == [] then []
    else if |parts| == 1 then parts[0]
    else parts[0] + sep + Join(parts[1..], sep)
  }

  function DigitChar(d: nat): char
    requires d < 10
  {
    ('0' as int + d) as char
  }

  /** The decimal notation of a natural number, as PHP prints `time()`. */
  function Decimal(n: nat): (r: string)
    ensures |r| > 0
    ensures forall i :: 0 <= i < |r| ==> '0' <= r[i] <= '9'
  {
    if n < 10 then [DigitChar(n)] else Decimal(n / 10) + [DigitChar(n % 10)]
  }
}
