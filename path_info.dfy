/**
 * PHP's basename and pathinfo (PATHINFO_FILENAME, PATHINFO_EXTENSION) on
 * POSIX paths, where '/' is the only directory separator.
 */
module PathInfo {

  /** The index of the last occurrence of c in s, or -1 when there is none. */
  function LastIndexOf(s: string, c: char): (k: int)
    ensures -1 <= k < |s|
    ensures k >= 0 ==> s[k] == c && c !in s[k + 1..]
    ensures k < 0 <==> c !in s
  {
    if s == [] then -1
    else if s[|s| - 1] == c then |s| - 1
    else
      var k := LastIndexOf(s[..|s| - 1], c);
      assert s == s[..|s| - 1] + [s[|s| - 1]];
      k
  }

  /** The path without its trailing run of '/'. */
  function StripTrailingSlashes(path: string): (r: string)
    ensures |r| <= |path| && r == path[..|r|]
    ensures r == [] || r[|r| - 1] != '/'
    ensures forall i :: |r| <= i < |path| ==> path[i] == '/'
  {
    if path != [] && path[|path| - 1] == '/' then StripTrailingSlashes(path[..|path| - 1])
    else path
  }

  /** PHP's basename: the last path component, ignoring trailing slashes. */
  function Basename(path: string): (b: string)
    ensures '/' !in b
  {
    var t := StripTrailingSlashes(path);
    t[LastIndexOf(t, '/') + 1..]
  }

  /**
   * The basename is the last component of the path once trailing slashes
   * are stripped: a suffix of what is left, preceded by a '/' unless it is
   * all of it.
   */
  lemma BasenameIsLastComponent(path: string)
    ensures var t := StripTrailingSlashes(path); var b := Basename(path);
      |b| <= |t| && b == t[|t| - |b|..] && (|b| < |t| ==> t[|t| - |b| - 1] == '/')
  {
  }

  /** pathinfo(path, PATHINFO_FILENAME): the basename up to its last '.'. */
  function Stem(path: string): (r: string)
  {
    var b := Basename(path);
    var k := LastIndexOf(b, '.');
    if k < 0 then b else b[..k]
  }

  /** pathinfo(path, PATHINFO_EXTENSION): the basename after its last '.', or "". */
  function Extension(path: string): (r: string)
  {
    var b := Basename(path);
    var k := LastIndexOf(b, '.');
    if k < 0 then "" else b[k + 1..]
  }

  /** Stem and extension split the basename at its last dot and lose nothing. */
  lemma {:induction false} BasenameSplits(path: string)
    ensures var b := Basename(path);
      b == Stem(path) + (if '.' in b then "." + Extension(path) else "")
    ensures '.' !in Extension(path) && '/' !in Stem(path) && '/' !in Extension(path)
    ensures '.' !in Basename(path) ==> Extension(path) == "" && Stem(path) == Basename(path)
  {
    var b := Basename(path);
    var k := LastIndexOf(b, '.');
    SplitAtLastDot(b, k);
  }

  lemma {:induction false} SplitAtLastDot(b: string, k: int)
    requires k == LastIndexOf(b, '.')
    ensures b == (if k < 0 then b else b[..k]) + (if '.' in b then "." + (if k < 0 then "" else b[k + 1..]) else "")
  {
    if k >= 0 {
      assert b == b[..k] + "." + b[k + 1..];
    }
  }

  lemma LastIndexOfLast(a: string, c: char, b: string)
    requires c !in b
    ensures LastIndexOf(a + [c] + b, c) == |a|
  {
    var s := a + [c] + b;
    assert s[|a|] == c;
  }

  /** A name composed of a stem without '/' and an extension without '.' or '/' splits back into the two. */
  lemma {:induction false} StemAndExtensionOfName(stem: string, ext: string)
    requires '/' !in stem && '/' !in ext && '.' !in ext
    ensures Basename(stem + "." + ext) == stem + "." + ext
    ensures Stem(stem + "." + ext) == stem
    ensures Extension(stem + "." + ext) == ext
  {
    var name := stem + "." + ext;
    assert name == stem + ['.'] + ext;
    assert name[|name| - 1] != '/' by {
      if ext == [] { assert name[|name| - 1] == '.'; }
      else { assert name[|name| - 1] == ext[|ext| - 1]; }
    }
    assert StripTrailingSlashes(name) == name;
    assert '/' !in name;
    assert Basename(name) == name;
    LastIndexOfLast(stem, '.', ext);
  }

  /** The directory part of a path never reaches the basename. */
  lemma {:induction false} BasenameOfJoinedPath(dir: string, name: string)
    requires name != [] && '/' !in name
    ensures Basename(dir + "/" + name) == name
  {
    var path := dir + "/" + name;
    assert path == dir + ['/'] + name;
    assert path[|path| - 1] == name[|name| - 1];
    assert StripTrailingSlashes(path) == path;
    LastIndexOfLast(dir, '/', name);
    assert path[|dir| + 1..] == name;
  }
}
