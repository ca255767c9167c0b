/**
 * The JavaScript string operations the core relies on: `split`, `includes`,
 * `startsWith`, ASCII case mapping, `trim`, and the character classes
 * `\d`, `\w` and `\s` of JavaScript regular expressions (without the `u` flag).
 */
module JsStrings {

  /** What `split` returns: never an empty array. */
  type Path = p: seq<string> | |p| > 0 witness [""]

  function Count(s: string, c: char): nat {
    if s == [] then 0 else (if s[0] == c then 1 else 0) + Count(s[1..], c)
  }

  /** `s.split(sep)` for a one-character separator. */
  function Split(s: string, sep: char): Path {
    if s == [] then [""]
    else if s[0] == sep then [""] + Split(s[1..], sep)
    else
      var t := Split(s[1..], sep);
      [[s[0]] + t[0]] + t[1..]
  }

  /** `p.join(sep)` */
  function Join(p: Path, sep: char): string
    decreases |p|
  {
    if |p| == 1 then p[0] else p[0] + [sep] + Join(p[1..], sep)
  }

  /** `p[p.length - 1]`, what `pop()` returns. */
  function Last(p: Path): string {
    p[|p| - 1]
  }

  /** `split` produces one more piece than there are separators. */
  lemma {:induction false} SplitLength(s: string, sep: char)
    ensures |Split(s, sep)| == Count(s, sep) + 1
  {
    if s != [] {
      SplitLength(s[1..], sep);
    }
  }

  lemma {:induction false} SplitNoSep(s: string, sep: char)
    requires sep !in s
    ensures Split(s, sep) == [s]
  {
    if s != [] {
      assert sep !in s[1..];
      SplitNoSep(s[1..], sep);
      assert [s[0]] + s[1..] == s;
    }
  }

  /** A separator-free piece followed by a separator splits off as one piece. */
  lemma {:induction false} SplitCons(a: string, sep: char, t: string)
    requires sep !in a
    ensures Split(a + [sep] + t, sep) == [a] + Split(t, sep)
  {
    var s := a + [sep] + t;
    if a == [] {
      assert s == [sep] + t;
      assert s[1..] == t;
    } else {
      assert s[0] == a[0];
      assert s[1..] == a[1..] + [sep] + t;
      assert sep !in a[1..];
      SplitCons(a[1..], sep, t);
      assert [a[0]] + a[1..] == a;
    }
  }

  /** Joining separator-free pieces and splitting again gives the pieces back. */
  lemma {:induction false} SplitJoin(p: Path, sep: char)
    requires forall i :: 0 <= i < |p| ==> sep !in p[i]
    ensures Split(Join(p, sep), sep) == p
    decreases |p|
  {
    if |p| == 1 {
      SplitNoSep(p[0], sep);
    } else {
      SplitJoin(p[1..], sep);
      SplitCons(p[0], sep, Join(p[1..], sep));
      assert [p[0]] + p[1..] == p;
    }
  }

  /** Whatever precedes a separator does not change the last piece. */
  lemma {:induction false} LastSplitAfterSep(a: string, sep: char, t: string)
    ensures Last(Split(a + [sep] + t, sep)) == Last(Split(t, sep))
    decreases |a|
  {
    var s := a + [sep] + t;
    if a == [] {
      assert s == [sep] + t && s[1..] == t;
    } else {
      assert s[1..] == a[1..] + [sep] + t;
      LastSplitAfterSep(a[1..], sep, t);
      if s[0] != sep {
        assert s[1..][|a| - 1] == sep;
        SplitAtLeastTwo(s[1..], sep);
      }
    }
  }

  /** A string holding the separator splits into at least two pieces. */
  lemma {:induction false} SplitAtLeastTwo(s: string, sep: char)
    requires sep in s
    ensures |Split(s, sep)| >= 2
  {
    SplitLength(s, sep);
    CountPositive(s, sep);
  }

  lemma {:induction false} CountPositive(s: string, c: char)
    requires c in s
    ensures Count(s, c) >= 1
  {
    if s[0] != c {
      assert c in s[1..];
      CountPositive(s[1..], c);
    }
  }

  /** No piece contains the separator. */
  lemma {:induction false} SplitPiecesNoSep(s: string, sep: char)
    ensures forall i :: 0 <= i < |Split(s, sep)| ==> sep !in Split(s, sep)[i]
  {
    if s != [] {
      SplitPiecesNoSep(s[1..], sep);
      if s[0] != sep {
        var t := Split(s[1..], sep);
        assert sep !in [s[0]] + t[0];
        var r := Split(s, sep);
        forall i | 0 <= i < |r| ensures sep !in r[i] {
          if i > 0 { assert r[i] == t[i]; }
        }
      }
    }
  }

  lemma {:induction false} CountZero(s: string, c: char)
    requires Count(s, c) == 0
    ensures c !in s
  {
    if s != [] {
      CountZero(s[1..], c);
    }
  }

  /** The last piece is what follows the last separator: a suffix of the string. */
  lemma {:induction false} LastSplitSuffix(s: string, sep: char)
    ensures |Last(Split(s, sep))| <= |s|
    ensures s[|s| - |Last(Split(s, sep))|..] == Last(Split(s, sep))
  {
    if s != [] {
      var rest := s[1..];
      var t := Split(rest, sep);
      LastSplitSuffix(rest, sep);
      var l := Last(t);
      if s[0] == sep || |t| > 1 {
        assert Last(Split(s, sep)) == l;
        assert s[|s| - |l|..] == rest[|rest| - |l|..];
      } else {
        SplitLength(rest, sep);
        CountZero(rest, sep);
        SplitNoSep(rest, sep);
        assert Split(s, sep) == [[s[0]] + rest];
        assert [s[0]] + rest == s;
      }
    }
  }

  /** The last piece is the whole string or comes right after a separator. */
  lemma {:induction false} LastSplitAfterLastSep(s: string, sep: char)
    ensures |Last(Split(s, sep))| < |s| ==> s[|s| - |Last(Split(s, sep))| - 1] == sep
  {
    if sep !in s {
      SplitNoSep(s, sep);
    } else if s != [sep] {
      var rest := s[1..];
      var l := Last(Split(rest, sep));
      LastSplitDropFirst(s, sep);
      LastSplitSuffix(rest, sep);
      LastSplitAfterLastSep(rest, sep);
      if s[0] != sep {
        SplitPiecesNoSep(rest, sep);
        SepFreeSuffixShorter(rest, l, sep);
      }
      if |l| < |rest| {
        assert s[|s| - |l| - 1] == rest[|rest| - |l| - 1];
      }
    }
  }

  /** Past a leading separator, or when another one follows, the first character does not reach the last piece. */
  lemma LastSplitDropFirst(s: string, sep: char)
    requires s != [] && (s[0] == sep || sep in s[1..])
    ensures Last(Split(s, sep)) == Last(Split(s[1..], sep))
  {
    if s[0] != sep {
      SplitAtLeastTwo(s[1..], sep);
    }
  }

  /** A separator-free suffix of a string that holds a separator is shorter than it. */
  lemma SepFreeSuffixShorter(r: string, l: string, sep: char)
    requires |l| <= |r| && r[|r| - |l|..] == l && sep !in l && sep in r
    ensures |l| < |r|
  {
    forall k | |r| - |l| <= k < |r| ensures r[k] != sep {
      assert r[k] == l[k - (|r| - |l|)];
    }
  }

  lemma {:induction false} CountConcat(a: string, b: string, c: char)
    ensures Count(a + b, c) == Count(a, c) + Count(b, c)
  {
    if a != [] {
      assert (a + b)[0] == a[0] && (a + b)[1..] == a[1..] + b;
      CountConcat(a[1..], b, c);
    } else {
      assert a + b == b;
    }
  }

  // ---------------------------------------------------------------------------
  // Searching

  /** `s.includes(sub)` */
  predicate Contains(s: string, sub: string)
    decreases |s|
  {
    sub <= s || (s != [] && Contains(s[1..], sub))
  }

  /** A string missing one of `sub`'s characters does not contain `sub`. */
  lemma {:induction false} NotContains(s: string, sub: string, c: char)
    requires c in sub && c !in s
    ensures !Contains(s, sub)
    decreases |s|
  {
    if s != [] {
      assert c !in s[1..];
      NotContains(s[1..], sub, c);
    }
  }

  /** `s.startsWith(p)` */
  predicate StartsWith(s: string, p: string) {
    p <= s
  }

  // ---------------------------------------------------------------------------
  // Character classes

  predicate IsAsciiUpper(c: char) { 'A' <= c <= 'Z' }
  predicate IsAsciiLower(c: char) { 'a' <= c <= 'z' }
  /** `\d` */
  predicate IsDigit(c: char) { '0' <= c <= '9' }
  /** `\w` */
  predicate IsWordChar(c: char) { IsAsciiUpper(c) || IsAsciiLower(c) || IsDigit(c) || c == '_' }

  /** `\s`, and what `trim` removes: WhiteSpace and LineTerminator of ECMAScript. */
  predicate IsJsWhitespace(c: char) {
    c == '\t' || c == '\n' || c == '\U{000B}' || c == '\U{000C}' || c == '\r' || c == ' '
    || c == '\U{00A0}' || c == '\U{1680}' || ('\U{2000}' <= c <= '\U{200A}')
    || c == '\U{2028}' || c == '\U{2029}' || c == '\U{202F}' || c == '\U{205F}'
    || c == '\U{3000}' || c == '\U{FEFF}'
  }

  function ToLowerChar(c: char): char {
    if IsAsciiUpper(c) then (c as int + 32) as char else c
  }

  function ToUpperChar(c: char): char {
    if IsAsciiLower(c) then (c as int - 32) as char else c
  }

  /** `s.toLowerCase()` on the ASCII letters. */
  function ToLower(s: string): (r: string)
    ensures |r| == |s|
  {
    seq(|s|, i requires 0 <= i < |s| => ToLowerChar(s[i]))
  }

  // ---------------------------------------------------------------------------
  // trim

  /** The number of whitespace characters `trim` removes from the front. */
  function LeadingSpace(s: string): (n: nat)
    ensures n <= |s|
    ensures forall k :: 0 <= k < n ==> IsJsWhitespace(s[k])
    ensures n < |s| ==> !IsJsWhitespace(s[n])
  {
    if s == [] || !IsJsWhitespace(s[0]) then 0 else 1 + LeadingSpace(s[1..])
  }

  /** The number of whitespace characters `trim` removes from the back. */
  function TrailingSpace(s: string): (n: nat)
    ensures n <= |s|
    ensures forall k :: |s| - n <= k < |s| ==> IsJsWhitespace(s[k])
    ensures n < |s| ==> !IsJsWhitespace(s[|s| - 1 - n])
  {
    if s == [] || !IsJsWhitespace(s[|s| - 1]) then 0 else 1 + TrailingSpace(s[..|s| - 1])
  }

  /** `s.trim()` */
  function Trim(s: string): (r: string)
    ensures |r| > 0 ==> !IsJsWhitespace(r[0]) && !IsJsWhitespace(r[|r| - 1])
    ensures |r| <= |s|
    ensures forall c :: c in r ==> c in s
  {
    var t := s[LeadingSpace(s)..];
    t[..|t| - TrailingSpace(t)]
  }

  /** Trimming what is already trimmed changes nothing. */
  lemma TrimIdempotent(s: string)
    ensures Trim(Trim(s)) == Trim(s)
  {
    var r := Trim(s);
    assert LeadingSpace(r) == 0;
    assert r[0..] == r;
    assert TrailingSpace(r) == 0;
    assert r[..|r|] == r;
  }

  /** Only whitespace is removed, and only at the ends. */
  lemma TrimRemovesOnlySpace(s: string)
    ensures exists i, j ::
      0 <= i <= j <= |s| && Trim(s) == s[i..j]
      && (forall k :: 0 <= k < i ==> IsJsWhitespace(s[k]))
      && (forall k :: j <= k < |s| ==> IsJsWhitespace(s[k]))
  {
    var i := LeadingSpace(s);
    var t := s[i..];
    var j := i + |t| - TrailingSpace(t);
    assert t[..|t| - TrailingSpace(t)] == s[i..j];
    assert Trim(s) == s[i..j];
    forall k | j <= k < |s| ensures IsJsWhitespace(s[k]) {
      assert s[k] == t[k - i];
    }
  }
}
