/** The string operations of Python's `str` that the converters rely on:
    `strip()`, `split(sep)` on a one-character separator, `in` and `replace`. */
module Text {

  /** Python's `str.isspace()` for one character: the characters `strip()` removes
      and the regular-expression class `\s` matches. */
  predicate IsSpace(c: char) {
    c == ' ' || c == '\t' || c == '\n' || c == '\r' || c == '\U{0B}' || c == '\U{0C}'
    || c == '\U{1C}' || c == '\U{1D}' || c == '\U{1E}' || c == '\U{1F}'
    || c == '\U{85}' || c == '\U{A0}' || c == '\U{1680}'
    || ('\U{2000}' <= c <= '\U{200A}')
    || c == '\U{2028}' || c == '\U{2029}' || c == '\U{202F}' || c == '\U{205F}' || c == '\U{3000}'
  }

  predicate AllSpace(s: string) {
    forall i :: 0 <= i < |s| ==> IsSpace(s[i])
  }

  /** Neither the first nor the last character is white space. */
  predicate IsStripped(s: string) {
    s == [] || (!IsSpace(s[0]) && !IsSpace(s[|s| - 1]))
  }

  /** `s.lstrip()`: the text without its leading white space. */
  function StripLeft(s: string): string {
    if s != [] && IsSpace(s[0]) then StripLeft(s[1..]) else s
  }

  /** `s.rstrip()`: the text without its trailing white space. */
  function StripRight(s: string): string {
    if s != [] && IsSpace(s[|s| - 1]) then StripRight(s[..|s| - 1]) else s
  }

  /** `s.lstrip()` keeps a suffix of `s` and removes only white space before it. */
  lemma {:induction false} StripLeftShape(s: string)
    ensures var r := StripLeft(s);
      |r| <= |s| && r == s[|s| - |r|..] && AllSpace(s[..|s| - |r|]) && (r == [] || !IsSpace(r[0]))
  {
    if s != [] && IsSpace(s[0]) {
      StripLeftShape(s[1..]);
      var r := StripLeft(s);
      forall i | 0 <= i < |s| - |r|
        ensures IsSpace(s[i])
      {
        if i > 0 {
          assert s[..|s| - |r|][i] == s[1..][..|s| - 1 - |r|][i - 1];
        }
      }
    }
  }

  /** `s.rstrip()` keeps a prefix of `s` and removes only white space after it. */
  lemma {:induction false} StripRightShape(s: string)
    ensures var r := StripRight(s);
      |r| <= |s| && r == s[..|r|] && AllSpace(s[|r|..]) && (r == [] || !IsSpace(r[|r| - 1]))
  {
    if s != [] && IsSpace(s[|s| - 1]) {
      var t := s[..|s| - 1];
      StripRightShape(t);
      var r := StripRight(s);
      assert r == StripRight(t);
      assert r == s[..|r|] by { assert t[..|r|] == s[..|r|]; }
      forall i | |r| <= i < |s|
        ensures IsSpace(s[i])
      {
        if i < |s| - 1 {
          assert s[|r|..][i - |r|] == t[|r|..][i - |r|];
        }
      }
    }
  }

  /** `r` is what is left of `s` once the white space `s[..i]` before it and
      the white space after it are cut off. */
  predicate StrippedFrom(s: string, r: string, i: int) {
    0 <= i && i + |r| <= |s| && s[i..i + |r|] == r && AllSpace(s[..i]) && AllSpace(s[i + |r|..])
  }

  /** `s.strip()`. */
  function Strip(s: string): string {
    StripRight(StripLeft(s))
  }

  /** `s.strip()` starts and ends with a character other than white space, and is
      what is left of `s` once white space is cut off at both ends. */
  lemma StripShape(s: string)
    ensures IsStripped(Strip(s))
    ensures StrippedFrom(s, Strip(s), |s| - |StripLeft(s)|)
  {
    var l := StripLeft(s);
    var r := StripRight(l);
    StripLeftShape(s);
    StripRightShape(l);
    assert s[|s| - |l|..][..|r|] == r;
    assert s[|s| - |l| + |r|..] == l[|r|..];
  }

  /** Stripping twice removes nothing more: the label the GeoJSON converter
      strips a second time is the label it already stripped. */
  lemma StripIdempotent(s: string)
    ensures Strip(Strip(s)) == Strip(s)
  {
    StripShape(s);
    StrippedIsFixed(Strip(s));
  }

  lemma StrippedIsFixed(s: string)
    requires IsStripped(s)
    ensures Strip(s) == s
  {
    assert StripLeft(s) == s;
    assert StripRight(s) == s;
  }

  /** Text with white space around a part that neither starts nor ends with white
      space strips to that part. */
  lemma StripAround(a: string, t: string, b: string)
    requires AllSpace(a) && AllSpace(b)
    requires t != [] && !IsSpace(t[0]) && !IsSpace(t[|t| - 1])
    ensures Strip(a + t + b) == t
  {
    assert a + t + b == a + (t + b);
    StripLeftPast(a, t + b);
    StripRightPast(t, b);
  }

  lemma {:induction false} StripLeftPast(a: string, u: string)
    requires AllSpace(a) && u != [] && !IsSpace(u[0])
    ensures StripLeft(a + u) == u
  {
    if a == [] {
      assert a + u == u;
    } else {
      assert (a + u)[0] == a[0] && (a + u)[1..] == a[1..] + u;
      StripLeftPast(a[1..], u);
    }
  }

  lemma {:induction false} StripRightPast(u: string, b: string)
    requires AllSpace(b) && u != [] && !IsSpace(u[|u| - 1])
    ensures StripRight(u + b) == u
  {
    if b == [] {
      assert u + b == u;
    } else {
      var init := b[..|b| - 1];
      assert (u + b)[|u + b| - 1] == b[|b| - 1];
      assert (u + b)[..|u + b| - 1] == u + init;
      StripRightPast(u, init);
    }
  }

  /** A string of white space strips to the empty string, and only such a string does. */
  lemma {:induction false} StripEmptyIff(s: string)
    ensures Strip(s) == [] <==> AllSpace(s)
  {
    var r := Strip(s);
    StripShape(s);
    var i := |s| - |StripLeft(s)|;
    forall j | 0 <= j < |r|
      ensures r[j] == s[i + j]
    {
      assert s[i..i + |r|][j] == s[i + j];
    }
    if r == [] {
      forall k | 0 <= k < |s|
        ensures IsSpace(s[k])
      {
        if k < i {
          assert s[..i][k] == s[k];
        } else {
          assert s[i..][k - i] == s[k];
        }
      }
    }
  }

  /** Stripping only removes characters. */
  lemma StripKeepsOnlyOwnChars(s: string, c: char)
    requires c in Strip(s)
    ensures c in s
  {
    var r := Strip(s);
    StripShape(s);
    var i := |s| - |StripLeft(s)|;
    var j :| 0 <= j < |r| && r[j] == c;
    assert s[i..i + |r|][j] == s[i + j];
  }

  /** Stripping only removes white space. */
  lemma StripKeepsNonSpace(s: string, c: char)
    requires c in s && !IsSpace(c)
    ensures c in Strip(s)
  {
    var l := StripLeft(s);
    StripLeftShape(s);
    var k :| 0 <= k < |s| && s[k] == c;
    var cut := |s| - |l|;
    forall j | 0 <= j < cut
      ensures IsSpace(s[j])
    {
      assert s[..cut][j] == s[j];
    }
    assert l[k - cut] == c;
    var r := StripRight(l);
    StripRightShape(l);
    forall j | |r| <= j < |l|
      ensures IsSpace(l[j])
    {
      assert l[|r|..][j - |r|] == l[j];
    }
    assert r[k - cut] == c;
  }

  /** `sep in s`: how many times the separator occurs. */
  function Count(s: string, c: char): nat {
    if s == [] then 0 else (if s[0] == c then 1 else 0) + Count(s[1..], c)
  }

  /** `s.split(sep)` for a one-character separator: the pieces between the
      separators, empty pieces kept, so there is always at least one. */
  function Split(s: string, sep: char): (parts: seq<string>)
    ensures |parts| == Count(s, sep) + 1
    ensures forall k :: 0 <= k < |parts| ==> sep !in parts[k]
  {
    if s == [] then [""]
    else
      var rest := Split(s[1..], sep);
      if s[0] == sep then [""] + rest
      else [[s[0]] + rest[0]] + rest[1..]
  }

  /** A string that holds the separator splits into at least two pieces. */
  lemma {:induction false} CountPositive(s: string, c: char)
    requires c in s
    ensures Count(s, c) >= 1
  {
    if s[0] != c {
      var k :| 0 <= k < |s| && s[k] == c;
      assert s[1..][k - 1] == c;
      CountPositive(s[1..], c);
    }
  }

  /** `sep.join(parts)`. */
  function Join(parts: seq<string>, sep: char): string
    requires |parts| >= 1
  {
    if |parts| == 1 then parts[0] else parts[0] + [sep] + Join(parts[1..], sep)
  }

  /** Splitting loses nothing: joining the pieces gives the string back. */
  lemma {:induction false} JoinSplit(s: string, sep: char)
    ensures Join(Split(s, sep), sep) == s
  {
    if s != [] {
      JoinSplit(s[1..], sep);
      var rest := Split(s[1..], sep);
      if s[0] != sep {
        var parts := Split(s, sep);
        if |rest| == 1 {
          assert parts == [[s[0]] + rest[0]];
        } else {
          assert parts[1..] == rest[1..];
          assert Join(parts, sep) == [s[0]] + rest[0] + [sep] + Join(rest[1..], sep);
        }
      }
    }
  }

  /** Joining pieces that hold no separator and splitting again gives the pieces back. */
  lemma {:induction false} SplitJoin(parts: seq<string>, sep: char)
    requires |parts| >= 1
    requires forall k :: 0 <= k < |parts| ==> sep !in parts[k]
    ensures Split(Join(parts, sep), sep) == parts
  {
    if |parts| == 1 {
      SplitPiece(parts[0], sep);
    } else {
      SplitJoin(parts[1..], sep);
      SplitPieceThen(parts[0], Join(parts[1..], sep), sep);
      assert Join(parts, sep) == parts[0] + ([sep] + Join(parts[1..], sep));
      assert [parts[0]] + parts[1..] == parts;
    }
  }

  lemma {:induction false} SplitPiece(p: string, sep: char)
    requires sep !in p
    ensures Split(p, sep) == [p]
  {
    if p != [] {
      SplitPiece(p[1..], sep);
      assert [p[0]] + p[1..] == p;
    }
  }

  /** A piece without separator, a separator, then anything: the piece comes first. */
  lemma {:induction false} SplitPieceThen(p: string, t: string, sep: char)
    requires sep !in p
    ensures Split(p + ([sep] + t), sep) == [p] + Split(t, sep)
  {
    if p == [] {
      assert p + ([sep] + t) == [sep] + t;
      assert ([sep] + t)[1..] == t;
    } else {
      SplitPieceThen(p[1..], t, sep);
      assert (p + ([sep] + t))[1..] == p[1..] + ([sep] + t);
      assert [p[0]] + p[1..] == p;
    }
  }

  /** `sub in s` for strings. */
  predicate Contains(s: string, sub: string) {
    exists i | 0 <= i <= |s| - |sub| :: OccursAt(s, sub, i)
  }

  /** `sub` occurs in `s` starting at index `i`. */
  predicate OccursAt(s: string, sub: string, i: int) {
    0 <= i && i + |sub| <= |s| && s[i..i + |sub|] == sub
  }

  /** `s.replace(from, to)` for single characters. */
  function Replace(s: string, from: char, to: char): (r: string)
    ensures |r| == |s|
    ensures forall k :: 0 <= k < |s| ==> r[k] == (if s[k] == from then to else s[k])
  {
    if s == [] then [] else [if s[0] == from then to else s[0]] + Replace(s[1..], from, to)
  }
}
