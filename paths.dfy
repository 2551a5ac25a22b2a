/** `os.path.splitext` on POSIX paths, from which every converter derives its
    default output file name. */
module Paths {

  /** The last index below `n` that holds `c`, or -1. */
  function LastIndexBelow(s: string, c: char, n: nat): (i: int)
    requires n <= |s|
    ensures -1 <= i < n
    ensures i >= 0 ==> s[i] == c
    ensures forall k :: i < k < n ==> s[k] != c
  {
    if n == 0 then -1
    else if s[n - 1] == c then n - 1
    else LastIndexBelow(s, c, n - 1)
  }

  /** `s.rfind(c)`: the last index of `c` in `s`, or -1. */
  function LastIndexOf(s: string, c: char): int {
    LastIndexBelow(s, c, |s|)
  }

  /** No character of `s` is a dot or a slash. */
  predicate NoDotOrSlash(s: string) {
    forall k :: 0 <= k < |s| ==> s[k] != '.' && s[k] != '/'
  }

  /** The file name (the part after the last `/`) holds a character other than `.`:
      the path names a file whose name is more than dots. */
  predicate HasStem(p: string) {
    exists j | LastIndexOf(p, '/') < j < |p| :: p[j] != '.'
  }

  /** An extension as `splitext` reports one: a dot, then neither a dot nor a `/`. */
  predicate IsExtension(e: string) {
    |e| >= 1 && e[0] == '.' && NoDotOrSlash(e[1..])
  }

  /** `os.path.splitext(p)`: the extension is the last `.` of the file name and what
      follows it, unless only dots precede it in the file name. */
  function SplitExt(p: string): (parts: (string, string))
    ensures parts.0 + parts.1 == p
    ensures parts.1 == [] || IsExtension(parts.1)
  {
    var sep := LastIndexOf(p, '/');
    var dot := LastIndexOf(p, '.');
    if dot > sep && exists j | sep < j < dot :: p[j] != '.' then
      assert p[..dot] + p[dot..] == p;
      assert forall k :: 0 <= k < |p[dot..][1..]| ==> p[dot..][1..][k] == p[dot + 1 + k];
      (p[..dot], p[dot..])
    else (p, "")
  }

  /** `os.path.splitext(p)[0]`. */
  function Root(p: string): string {
    SplitExt(p).0
  }

  /** An index holding `c` with no `c` after it is the last index of `c`. */
  lemma LastIndexUnique(s: string, c: char, i: int)
    requires 0 <= i < |s| && s[i] == c
    requires forall k :: i < k < |s| ==> s[k] != c
    ensures LastIndexOf(s, c) == i
  {
  }

  /** A string without `c` has no last index of `c`. */
  lemma LastIndexAbsent(s: string, c: char)
    requires forall k :: 0 <= k < |s| ==> s[k] != c
    ensures LastIndexOf(s, c) == -1
  {
  }

  /** The path without its extension still names a file with a name. */
  lemma RootHasStem(p: string)
    requires HasStem(p)
    ensures HasStem(Root(p))
  {
    var sep := LastIndexOf(p, '/');
    var dot := LastIndexOf(p, '.');
    if dot > sep && exists j | sep < j < dot :: p[j] != '.' {
      var j :| sep < j < dot && p[j] != '.';
      var r := p[..dot];
      assert r == Root(p);
      if sep >= 0 {
        LastIndexUnique(r, '/', sep);
      } else {
        LastIndexAbsent(r, '/');
      }
      assert r[j] == p[j];
    }
  }

  /** A converter's default output path: the input without its extension, then a
      suffix free of `.` and `/`, then a new extension. Such a path splits back into
      the input's stem plus suffix and the new extension. */
  lemma SplitDefaultPath(p: string, suffix: string, ext: string)
    requires HasStem(p)
    requires NoDotOrSlash(suffix)
    requires IsExtension(ext)
    ensures SplitExt(Root(p) + suffix + ext) == (Root(p) + suffix, ext)
  {
    RootHasStem(p);
    var r := Root(p);
    var q := r + suffix + ext;
    var stem := r + suffix;
    var dot := |stem|;
    assert q[dot] == '.';
    forall k | dot < k < |q|
      ensures q[k] != '.' && q[k] != '/'
    {
      assert q[k] == ext[1..][k - dot - 1];
    }
    forall k | |r| <= k < dot
      ensures q[k] != '.' && q[k] != '/'
    {
      assert q[k] == suffix[k - |r|];
    }
    LastIndexUnique(q, '.', dot);
    var sepR := LastIndexOf(r, '/');
    var j :| sepR < j < |r| && r[j] != '.';
    assert q[j] == r[j];
    forall k | sepR < k < |r|
      ensures q[k] != '/'
    {
      assert q[k] == r[k];
    }
    if sepR >= 0 {
      assert q[sepR] == '/';
      LastIndexUnique(q, '/', sepR);
    } else {
      LastIndexAbsent(q, '/');
    }
    assert q[..dot] == stem && q[dot..] == ext;
  }
}
