/**
 Slash-separated path manipulation as Go's path/filepath does it on Unix:
 `Ext` and `Base` for every string, `Dir` and `Join` for clean absolute paths
 (the only paths the organiser ever hands them, since every path it works on
 comes out of filepath.Abs or filepath.Glob).
 */
module Paths {

  type Path = string

  /** A path that filepath.Clean would leave unchanged and that starts at the root. */
  type AbsPath = p: Path | CleanAbs(p) witness "/"

  /** A clean absolute path that names something below the root. */
  type FilePath = p: Path | CleanAbs(p) && p != "/" witness "/a"

  /** strings.ToLower on one character (ASCII letters only). */
  function LowerChar(c: char): char {
    if 'A' <= c <= 'Z' then (c as int - 'A' as int + 'a' as int) as char else c
  }

  /** strings.ToLower, character by character. */
  function Lower(s: string): (r: string)
    ensures |r| == |s|
    ensures forall i :: 0 <= i < |s| ==> r[i] == LowerChar(s[i])
  {
    seq(|s|, i requires 0 <= i < |s| => LowerChar(s[i]))
  }

  /** Lower-casing changes letters only: it never creates or removes a separator or a dot. */
  lemma LowerCharKeepsPunctuation(c: char)
    ensures LowerChar(c) == '/' <==> c == '/'
    ensures LowerChar(c) == '.' <==> c == '.'
    ensures LowerChar(LowerChar(c)) == LowerChar(c)
  {
  }

  lemma LowerIdempotent(s: string)
    ensures Lower(Lower(s)) == Lower(s)
  {
    forall i | 0 <= i < |s|
      ensures Lower(Lower(s))[i] == Lower(s)[i]
    {
      LowerCharKeepsPunctuation(s[i]);
    }
  }

  /** Index of the last '/' in p, or -1 when p has none. */
  function LastSlash(p: string): (i: int)
    ensures -1 <= i < |p|
    ensures 0 <= i ==> p[i] == '/'
    ensures forall j :: i < j < |p| ==> p[j] != '/'
  {
    if |p| == 0 then -1
    else if p[|p| - 1] == '/' then |p| - 1
    else LastSlash(p[..|p| - 1])
  }

  /** One path element: non-empty, no separator, and not "." or "..". */
  predicate IsElement(s: string) {
    && |s| > 0
    && s != "." && s != ".."
    && forall i :: 0 <= i < |s| ==> s[i] != '/'
  }

  /** Clean absolute paths: "/", or "/" and an element after either nothing or a clean absolute path other than "/". */
  predicate CleanAbs(p: string)
    decreases |p|
  {
    && |p| > 0
    && p[0] == '/'
    && (p == "/" ||
        var i := LastSlash(p);
        IsElement(p[i + 1..]) && (i == 0 || (p[..i] != "/" && CleanAbs(p[..i]))))
  }

  /** Position of the dot that starts filepath.Ext(p): the last '.' after the last '/', or -1. */
  function ExtStart(p: string): (k: int)
    ensures -1 <= k < |p|
    ensures 0 <= k ==> p[k] == '.'
    ensures 0 <= k ==> forall j :: k < j < |p| ==> p[j] != '/' && p[j] != '.'
    ensures k < 0 ==> forall j :: LastSlash(p) < j < |p| ==> p[j] != '.'
  {
    if |p| == 0 then -1
    else if p[|p| - 1] == '/' then -1
    else if p[|p| - 1] == '.' then |p| - 1
    else ExtStart(p[..|p| - 1])
  }

  /** filepath.Ext: the suffix starting at the final dot of the last element, or "". */
  function Ext(p: string): (e: string)
    ensures e == "" || (e[0] == '.' && forall j :: 0 <= j < |e| ==> e[j] != '/')
    ensures |e| <= |p| && e == p[|p| - |e|..]
  {
    var k := ExtStart(p);
    if k < 0 then "" else p[k..]
  }

  /** getLowerCaseExt: the extension, lower-cased. */
  function LowerCaseExt(p: string): (e: string)
    ensures e == "" || IsExtension(e)
  {
    var x := Ext(p);
    if x == "" then "" else LowerKeepsExtension(x); Lower(x)
  }

  /** A dot followed by characters that are neither dots nor separators. */
  predicate IsExtension(e: string) {
    && |e| > 0
    && e[0] == '.'
    && forall j :: 1 <= j < |e| ==> e[j] != '.' && e[j] != '/'
  }

  lemma {:induction false} ExtStartOfExtension(s: string, e: string)
    requires IsExtension(e)
    ensures ExtStart(s + e) == |s|
    decreases |e|
  {
    var p := s + e;
    if |e| == 1 {
      assert p[|p| - 1] == '.';
    } else {
      assert p[..|p| - 1] == s + e[..|e| - 1];
      assert p[|p| - 1] == e[|e| - 1];
      ExtStartOfExtension(s, e[..|e| - 1]);
    }
  }

  /** Whatever precedes it, a trailing extension is what filepath.Ext returns. */
  lemma ExtOfExtension(s: string, e: string)
    requires IsExtension(e)
    ensures Ext(s + e) == e
  {
    ExtStartOfExtension(s, e);
    assert (s + e)[|s|..] == e;
  }

  lemma {:induction false} ExtStartAfterSlash(a: string, b: string)
    requires forall j :: 0 <= j < |b| ==> b[j] != '/'
    ensures ExtStart(a + "/" + b) == (if ExtStart(b) < 0 then -1 else |a| + 1 + ExtStart(b))
    decreases |b|
  {
    var p := a + "/" + b;
    if |b| == 0 {
      assert p[|p| - 1] == '/';
    } else {
      assert p[..|p| - 1] == a + "/" + b[..|b| - 1];
      assert p[|p| - 1] == b[|b| - 1];
      ExtStartAfterSlash(a, b[..|b| - 1]);
    }
  }

  lemma {:induction false} ExtStartWithoutDot(b: string)
    requires forall j :: 0 <= j < |b| ==> b[j] != '.' && b[j] != '/'
    ensures ExtStart(b) == -1
    decreases |b|
  {
    if |b| > 0 {
      ExtStartWithoutDot(b[..|b| - 1]);
    }
  }

  /** filepath.Ext looks at the last element only. */
  lemma ExtOfLastElement(a: string, b: string)
    requires forall j :: 0 <= j < |b| ==> b[j] != '/'
    ensures Ext(a + "/" + b) == Ext(b)
  {
    ExtStartAfterSlash(a, b);
    var k := ExtStart(b);
    if 0 <= k {
      assert (a + "/" + b)[|a| + 1 + k..] == b[k..];
    }
  }

  lemma {:induction false} ExtStartLower(p: string)
    ensures ExtStart(Lower(p)) == ExtStart(p)
    decreases |p|
  {
    if |p| > 0 {
      var q := Lower(p);
      LowerCharKeepsPunctuation(p[|p| - 1]);
      assert q[..|q| - 1] == Lower(p[..|p| - 1]);
      ExtStartLower(p[..|p| - 1]);
    }
  }

  /** Lower-casing a path and taking its extension commute. */
  lemma LowerExtCommutes(p: string)
    ensures Lower(Ext(p)) == Ext(Lower(p))
  {
    ExtStartLower(p);
    var k := ExtStart(p);
    if 0 <= k {
      var q := Lower(p);
      assert Ext(q) == q[k..];
      forall i | 0 <= i < |p| - k ensures q[k..][i] == Lower(p[k..])[i] {
      }
    }
  }

  /** A lower-cased extension is still an extension. */
  lemma LowerKeepsExtension(e: string)
    requires IsExtension(e)
    ensures IsExtension(Lower(e))
  {
    forall j | 0 <= j < |e| {
      LowerCharKeepsPunctuation(e[j]);
    }
  }

  /** filepath.Base with every trailing separator removed first. */
  function TrimTrailingSlashes(p: string): (q: string)
    ensures |q| <= |p| && q == p[..|q|]
    ensures |q| > 0 ==> q[|q| - 1] != '/'
    ensures forall j :: |q| <= j < |p| ==> p[j] == '/'
  {
    if |p| == 0 || p[|p| - 1] != '/' then p else TrimTrailingSlashes(p[..|p| - 1])
  }

  /** filepath.Base: the last element, "/" for a path of separators only, "." for "". */
  function Base(p: string): (b: string)
    ensures |b| > 0
  {
    if p == "" then "."
    else
      var q := TrimTrailingSlashes(p);
      if q == "" then "/" else q[LastSlash(q) + 1..]
  }

  /** filepath.Dir of a clean absolute path: everything before the last separator, or "/". */
  function Dir(p: AbsPath): (d: AbsPath)
    ensures p == "/" ==> d == "/"
    ensures |d| <= |p|
  {
    var i := LastSlash(p);
    if i == 0 then "/" else p[..i]
  }

  lemma LastSlashOfJoin(a: string, b: string)
    requires forall j :: 0 <= j < |b| ==> b[j] != '/'
    ensures LastSlash(a + "/" + b) == |a|
    decreases |b|
  {
    var p := a + "/" + b;
    if |b| > 0 {
      assert p[..|p| - 1] == a + "/" + b[..|b| - 1];
      LastSlashOfJoin(a, b[..|b| - 1]);
    }
  }

  /** filepath.Join of a clean absolute directory and one element; Clean changes nothing here. */
  function Join(dir: AbsPath, name: string): (r: FilePath)
    requires IsElement(name)
    ensures Dir(r) == dir
    ensures Base(r) == name
  {
    var prefix := if dir == "/" then "" else dir;
    var r := prefix + "/" + name;
    LastSlashOfJoin(prefix, name);
    assert r[..|prefix|] == prefix;
    assert r[|prefix| + 1..] == name;
    assert TrimTrailingSlashes(r) == r;
    r
  }

  /** A path below the root is its directory joined with its base name. */
  lemma JoinDirBase(p: FilePath)
    ensures IsElement(Base(p))
    ensures Join(Dir(p), Base(p)) == p
  {
    var i := LastSlash(p);
    assert TrimTrailingSlashes(p) == p;
    if i == 0 {
      assert p == "/" + p[1..];
    } else {
      assert p == p[..i] + "/" + p[i + 1..];
    }
  }
}
