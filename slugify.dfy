/** The `slugify` helper of the front-end script, which derives a record's
    `reference` from its `name` as the user types: lower-case, trim, turn
    every character outside `a-z`, `0-9`, whitespace and `-` into a space,
    trim again, and collapse each run of whitespace and hyphens into one
    hyphen. Modelled on ASCII input, where the accent-stripping step (NFD
    normalisation, then removal of combining marks) changes nothing. */
module Slugify {
  import opened Ascii

  predicate IsAlnum(c: char) { IsLowerLetter(c) || IsDigit(c) }

  predicate IsSeparator(c: char) { IsAsciiSpace(c) || c == '-' }

  predicate IsSlugChar(c: char) { IsAlnum(c) || c == '-' }

  /** `replace(/[^a-z0-9\s-]/g, ' ')`. */
  function ReplaceInvalid(s: string): (r: string)
    ensures |r| == |s|
    ensures forall i :: 0 <= i < |s| ==> r[i] == (if IsAlnum(s[i]) || IsSeparator(s[i]) then s[i] else ' ')
  {
    if s == [] then [] else
      [if IsAlnum(s[0]) || IsSeparator(s[0]) then s[0] else ' '] + ReplaceInvalid(s[1..])
  }

  /** What is left after the run of separators at the start of `s`. */
  function DropSeparators(s: string): (r: string)
    ensures |r| <= |s|
    ensures s != [] && IsSeparator(s[0]) ==> |r| < |s|
    ensures r != [] ==> !IsSeparator(r[0])
  {
    if s != [] && IsSeparator(s[0]) then DropSeparators(s[1..]) else s
  }

  /** The run of separators dropped is a prefix of `s`. */
  lemma {:induction false} DropSeparatorsSpec(s: string)
    ensures DropSeparators(s) == s[|s| - |DropSeparators(s)|..]
    ensures forall i :: 0 <= i < |s| - |DropSeparators(s)| ==> IsSeparator(s[i])
  {
    if s != [] && IsSeparator(s[0]) {
      var t := s[1..];
      DropSeparatorsSpec(t);
      assert s[|s| - |DropSeparators(t)|..] == t[|t| - |DropSeparators(t)|..];
      forall i | 0 <= i < |s| - |DropSeparators(s)|
        ensures IsSeparator(s[i])
      {
        if i > 0 {
          assert s[i] == t[i - 1];
        }
      }
    }
  }

  /** `replace(/[\s-]+/g, '-')`: each maximal run of separators becomes one `-`. */
  function CollapseRuns(s: string): (r: string)
    ensures |r| <= |s|
    ensures s != [] ==> r != [] && r[0] == (if IsSeparator(s[0]) then '-' else s[0])
    decreases |s|
  {
    if s == [] then []
    else if IsSeparator(s[0]) then "-" + CollapseRuns(DropSeparators(s))
    else [s[0]] + CollapseRuns(s[1..])
  }

  /** `slugify(input)` on an ASCII string. */
  function Slugify(input: string): (r: string)
    requires IsAscii(input)
    ensures |r| <= |input|
  {
    if input == [] then ""
    else CollapseRuns(Trim(ReplaceInvalid(Trim(Lower(input)))))
  }

  /** The letters and digits of `s`, in order. */
  function Alnums(s: string): string
  {
    if s == [] then [] else (if IsAlnum(s[0]) then [s[0]] else []) + Alnums(s[1..])
  }

  predicate AllSlugChars(s: string) {
    forall i :: 0 <= i < |s| ==> IsSlugChar(s[i])
  }

  predicate NoDoubleHyphen(s: string) {
    forall i :: 0 <= i < |s| - 1 ==> !(s[i] == '-' && s[i + 1] == '-')
  }

  lemma {:induction false} AlnumsAppend(a: string, b: string)
    ensures Alnums(a + b) == Alnums(a) + Alnums(b)
  {
    if a == [] {
      assert a + b == b;
    } else {
      var head := if IsAlnum(a[0]) then [a[0]] else [];
      assert (a + b)[0] == a[0];
      assert (a + b)[1..] == a[1..] + b;
      AlnumsAppend(a[1..], b);
      calc {
        Alnums(a + b);
        head + Alnums(a[1..] + b);
        head + (Alnums(a[1..]) + Alnums(b));
        (head + Alnums(a[1..])) + Alnums(b);
        Alnums(a) + Alnums(b);
      }
    }
  }

  lemma {:induction false} AlnumsOfSpaces(s: string)
    requires forall i :: 0 <= i < |s| ==> IsAsciiSpace(s[i])
    ensures Alnums(s) == []
  {
    if s != [] {
      AlnumsOfSpaces(s[1..]);
    }
  }

  /** Trimming removes whitespace only, so it keeps every letter and digit. */
  lemma TrimKeepsAlnums(s: string)
    ensures Alnums(Trim(s)) == Alnums(s)
  {
    var t := TrimStart(s);
    TrimStartSpec(s);
    assert s == s[..|s| - |t|] + t;
    AlnumsAppend(s[..|s| - |t|], t);
    AlnumsOfSpaces(s[..|s| - |t|]);
    var u := TrimEnd(t);
    TrimEndSpec(t);
    assert t == u + t[|u|..];
    AlnumsAppend(u, t[|u|..]);
    AlnumsOfSpaces(t[|u|..]);
  }

  lemma {:induction false} ReplaceKeepsAlnums(s: string)
    ensures Alnums(ReplaceInvalid(s)) == Alnums(s)
  {
    if s != [] {
      assert ReplaceInvalid(s)[1..] == ReplaceInvalid(s[1..]);
      ReplaceKeepsAlnums(s[1..]);
    }
  }

  lemma {:induction false} CollapseKeepsAlnums(s: string)
    ensures Alnums(CollapseRuns(s)) == Alnums(s)
    decreases |s|
  {
    if s != [] {
      if IsSeparator(s[0]) {
        var t := DropSeparators(s);
        DropSeparatorsSpec(s);
        CollapseKeepsAlnums(t);
        assert s == s[..|s| - |t|] + t;
        AlnumsAppend(s[..|s| - |t|], t);
        AlnumsOfSeparators(s[..|s| - |t|]);
      } else {
        CollapseKeepsAlnums(s[1..]);
      }
    }
  }

  lemma {:induction false} AlnumsOfSeparators(s: string)
    requires forall i :: 0 <= i < |s| ==> IsSeparator(s[i])
    ensures Alnums(s) == []
  {
    if s != [] {
      AlnumsOfSeparators(s[1..]);
    }
  }

  /** The input's letters, lower-cased, and its digits appear in the slug
      in the same order, and nothing else but hyphens is in the slug. */
  lemma SlugKeepsAlnums(input: string)
    requires IsAscii(input)
    ensures Alnums(Slugify(input)) == Alnums(Lower(input))
    ensures forall i :: 0 <= i < |Slugify(input)| && !IsAlnum(Slugify(input)[i]) ==> Slugify(input)[i] == '-'
  {
    if input != [] {
      var a := Trim(Lower(input));
      var b := Trim(ReplaceInvalid(a));
      TrimKeepsAlnums(Lower(input));
      ReplaceKeepsAlnums(a);
      TrimKeepsAlnums(ReplaceInvalid(a));
      CollapseKeepsAlnums(b);
      SlugCharsOnly(input);
    }
  }

  lemma {:induction false} CollapseSlugChars(s: string)
    requires forall i :: 0 <= i < |s| ==> IsAlnum(s[i]) || IsSeparator(s[i])
    ensures AllSlugChars(CollapseRuns(s))
    decreases |s|
  {
    if s != [] {
      if IsSeparator(s[0]) {
        DropSeparatorsSpec(s);
        CollapseSlugChars(DropSeparators(s));
      } else {
        CollapseSlugChars(s[1..]);
      }
    }
  }

  /** A slug holds only `a-z`, `0-9` and `-`: in particular no whitespace. */
  lemma SlugCharsOnly(input: string)
    requires IsAscii(input)
    ensures AllSlugChars(Slugify(input))
  {
    if input != [] {
      var a := ReplaceInvalid(Trim(Lower(input)));
      var t := TrimStart(a);
      var b := TrimEnd(t);
      TrimStartSpec(a);
      TrimEndSpec(t);
      forall i | 0 <= i < |b|
        ensures IsAlnum(b[i]) || IsSeparator(b[i])
      {
        assert b[i] == t[i] == a[|a| - |t| + i];
      }
      CollapseSlugChars(b);
    }
  }

  lemma {:induction false} CollapseNoDoubleHyphen(s: string)
    ensures NoDoubleHyphen(CollapseRuns(s))
    decreases |s|
  {
    if s != [] {
      if IsSeparator(s[0]) {
        CollapseNoDoubleHyphen(DropSeparators(s));
      } else {
        CollapseNoDoubleHyphen(s[1..]);
      }
    }
  }

  /** A slug never holds two hyphens in a row. */
  lemma SlugNoDoubleHyphen(input: string)
    requires IsAscii(input)
    ensures NoDoubleHyphen(Slugify(input))
  {
    if input != [] {
      CollapseNoDoubleHyphen(Trim(ReplaceInvalid(Trim(Lower(input)))));
    }
  }

  lemma {:induction false} CollapseFixedPoint(s: string)
    requires AllSlugChars(s) && NoDoubleHyphen(s)
    ensures CollapseRuns(s) == s
    decreases |s|
  {
    if s != [] {
      if s[0] == '-' {
        assert |s| > 1 ==> !IsSeparator(s[1]);
        assert DropSeparators(s) == s[1..];
      }
      CollapseFixedPoint(s[1..]);
    }
  }

  lemma {:induction false} LowerFixedPoint(s: string)
    requires AllSlugChars(s)
    ensures Lower(s) == s
  {
  }

  lemma {:induction false} TrimFixedPoint(s: string)
    requires AllSlugChars(s)
    ensures Trim(s) == s
  {
    if s != [] {
      assert !IsAsciiSpace(s[0]) && !IsAsciiSpace(s[|s| - 1]);
    }
  }

  lemma ReplaceFixedPoint(s: string)
    requires forall i :: 0 <= i < |s| ==> IsAlnum(s[i]) || IsSeparator(s[i])
    ensures ReplaceInvalid(s) == s
  {
  }

  lemma SlugCharsAreAscii(r: string)
    requires AllSlugChars(r)
    ensures IsAscii(r)
  {
    forall i | 0 <= i < |r| ensures r[i] < '\U{80}' {
      assert IsSlugChar(r[i]);
    }
  }

  lemma SlugFixedPoint(r: string)
    requires AllSlugChars(r) && NoDoubleHyphen(r) && IsAscii(r)
    ensures Slugify(r) == r
  {
    if r != [] {
      LowerFixedPoint(r);
      TrimFixedPoint(r);
      ReplaceFixedPoint(r);
      CollapseFixedPoint(r);
    }
  }

  /** `slugify` is idempotent: a slug is its own slug. */
  lemma SlugifyIdempotent(input: string)
    requires IsAscii(input)
    ensures IsAscii(Slugify(input))
    ensures Slugify(Slugify(input)) == Slugify(input)
  {
    SlugCharsOnly(input);
    SlugNoDoubleHyphen(input);
    SlugCharsAreAscii(Slugify(input));
    SlugFixedPoint(Slugify(input));
  }

  /** "A b" gives "a-b": the capital is lowered and the space becomes a
      hyphen. */
  lemma ExampleSpace()
    ensures Slugify("A b") == "a-b"
  {
    var l := Lower("A b");
    assert l == "a b";
    TrimUnchanged(l);
    ReplaceFixedPoint(l);
    var t := l[1..];
    assert t == " b" && t[1..] == "b";
    assert DropSeparators(t) == "b";
    assert CollapseRuns("b") == "b";
    assert CollapseRuns(t) == "-b";
    assert CollapseRuns(l) == "a-b";
  }

  /** " X! " gives "x": the surrounding spaces are trimmed, the `!` turns into
      a space, and the second trim removes it. */
  lemma ExampleTrimInvalid()
    ensures Slugify(" X! ") == "x"
  {
    var l := Lower(" X! ");
    assert l == " x! ";
    var t := Trim(l);
    assert TrimStart(l) == "x! ";
    assert t == "x!";
    var r := ReplaceInvalid(t);
    assert r == "x ";
    assert TrimStart(r) == r;
    assert r[..1] == "x";
    assert TrimEnd(r) == TrimEnd("x");
    assert TrimEnd("x") == "x";
    assert CollapseRuns("x") == "x";
  }

  /** Empty input gives the empty slug. */
  lemma ExampleEmpty()
    ensures Slugify("") == ""
  {
  }
}
