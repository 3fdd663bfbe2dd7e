/** Character classes and small string helpers shared by the models of the
    Python and JavaScript code. Letters, digits and trimming are modelled on
    the ASCII range; Python's blankness test covers its full whitespace set. */
module Ascii {

  predicate IsAscii(s: string) {
    forall i :: 0 <= i < |s| ==> s[i] < '\U{80}'
  }

  predicate IsDigit(c: char) { '0' <= c <= '9' }

  predicate IsLowerLetter(c: char) { 'a' <= c <= 'z' }

  predicate IsUpperLetter(c: char) { 'A' <= c <= 'Z' }

  function DigitValue(c: char): (v: nat)
    requires IsDigit(c)
    ensures v < 10
  {
    (c as int) - ('0' as int)
  }

  function DigitChar(v: nat): (c: char)
    requires v < 10
    ensures IsDigit(c) && DigitValue(c) == v
  {
    (('0' as int) + v) as char
  }

  /** ASCII lower-casing, as both Python's `str.lower` and JavaScript's
      `toLowerCase` do it on ASCII input. */
  function ToLower(c: char): (d: char)
    ensures IsUpperLetter(c) ==> IsLowerLetter(d)
    ensures !IsUpperLetter(c) ==> d == c
  {
    if IsUpperLetter(c) then (c as int + 32) as char else c
  }

  function Lower(s: string): (r: string)
    ensures |r| == |s|
    ensures forall i :: 0 <= i < |s| ==> r[i] == ToLower(s[i])
  {
    if s == [] then [] else [ToLower(s[0])] + Lower(s[1..])
  }

  /** ASCII whitespace: C's `isspace` set, which is also the ASCII part of
      JavaScript's `\s` class and of what `trim` removes. */
  predicate IsAsciiSpace(c: char) {
    c == ' ' || c == '\t' || c == '\n' || c == '\r' || c == '\U{B}' || c == '\U{C}'
  }

  /** The characters Python's `str.isspace()` accepts and `str.strip()`
      removes: the C whitespace set, the separators U+001C to U+001F, and
      the Unicode spaces and line and paragraph separators. */
  predicate IsPySpace(c: char) {
    || IsAsciiSpace(c)
    || ('\U{1C}' <= c <= '\U{1F}')
    || c == '\U{85}' || c == '\U{A0}' || c == '\U{1680}'
    || ('\U{2000}' <= c <= '\U{200A}')
    || c == '\U{2028}' || c == '\U{2029}' || c == '\U{202F}' || c == '\U{205F}'
    || c == '\U{3000}'
  }

  /** `s.strip() == ""` in Python. */
  predicate IsPyBlank(s: string) {
    forall i :: 0 <= i < |s| ==> IsPySpace(s[i])
  }

  /** Python's `needle in haystack` for strings. */
  predicate Contains(haystack: string, needle: string) {
    needle <= haystack || (haystack != [] && Contains(haystack[1..], needle))
  }

  /** Number of occurrences of `c` in `s`. */
  function Count(s: string, c: char): (n: nat)
    ensures n <= |s|
    ensures n == 0 <==> c !in s
  {
    if s == [] then 0 else (if s[0] == c then 1 else 0) + Count(s[1..], c)
  }

  /** Drops the leading run of ASCII whitespace. */
  function TrimStart(s: string): (r: string)
    ensures |r| <= |s|
  {
    if s != [] && IsAsciiSpace(s[0]) then TrimStart(s[1..]) else s
  }

  /** Drops the trailing run of ASCII whitespace. */
  function TrimEnd(s: string): (r: string)
    ensures |r| <= |s|
  {
    if s != [] && IsAsciiSpace(s[|s| - 1]) then TrimEnd(s[..|s| - 1]) else s
  }

  /** Whitespace trimming on both sides, as JavaScript's `trim` and as the
      whitespace `int()` skips around a number. */
  function Trim(s: string): string
  {
    TrimEnd(TrimStart(s))
  }

  /** A string that neither starts nor ends with whitespace is its own trim. */
  lemma TrimUnchanged(s: string)
    requires s != [] && !IsAsciiSpace(s[0]) && !IsAsciiSpace(s[|s| - 1])
    ensures Trim(s) == s
  {
  }

  /** Trimming the start leaves a suffix of the input. */
  lemma {:induction false} TrimStartSuffix(s: string)
    ensures TrimStart(s) == s[|s| - |TrimStart(s)|..]
  {
    if s != [] && IsAsciiSpace(s[0]) {
      var t := s[1..];
      TrimStartSuffix(t);
      assert s[|s| - |TrimStart(t)|..] == t[|t| - |TrimStart(t)|..];
    }
  }

  /** Trimming the start removes exactly the leading run of whitespace: the
      rest is a suffix that does not start with whitespace, and everything
      removed is whitespace. */
  lemma {:induction false} TrimStartSpec(s: string)
    ensures TrimStart(s) == s[|s| - |TrimStart(s)|..]
    ensures TrimStart(s) != [] ==> !IsAsciiSpace(TrimStart(s)[0])
    ensures forall i :: 0 <= i < |s| - |TrimStart(s)| ==> IsAsciiSpace(s[i])
  {
    TrimStartSuffix(s);
    if s != [] && IsAsciiSpace(s[0]) {
      var t := s[1..];
      TrimStartSpec(t);
      forall i | 0 <= i < |s| - |TrimStart(s)|
        ensures IsAsciiSpace(s[i])
      {
        if i > 0 {
          assert s[i] == t[i - 1];
        }
      }
    }
  }

  /** Trimming the end removes exactly the trailing run of whitespace. */
  lemma {:induction false} TrimEndSpec(s: string)
    ensures TrimEnd(s) == s[..|TrimEnd(s)|]
    ensures TrimEnd(s) != [] ==> !IsAsciiSpace(TrimEnd(s)[|TrimEnd(s)| - 1])
    ensures forall i :: |TrimEnd(s)| <= i < |s| ==> IsAsciiSpace(s[i])
  {
    if s != [] && IsAsciiSpace(s[|s| - 1]) {
      TrimEndSpec(s[..|s| - 1]);
    }
  }
}
