/** Node's POSIX `path.basename` and `path.extname`, which the upload code uses
    to name stored files and to resolve a URL back to a stored file. */
module Paths {
  import opened Wrappers

  /** The last position of `c` in `s`, if any. */
  function LastIndexOf(s: string, c: char): (r: Option<nat>)
    ensures r.Some? ==> r.value < |s| && s[r.value] == c
    ensures r.Some? ==> forall j :: r.value < j < |s| ==> s[j] != c
    ensures r.None? <==> c !in s
    decreases |s|
  {
    if |s| == 0 then None
    else if s[|s| - 1] == c then Some(|s| - 1)
    else LastIndexOf(s[..|s| - 1], c)
  }

  /** `p` without its trailing `/` characters. */
  function StripTrailingSlashes(p: string): (r: string)
    ensures |r| <= |p| && r == p[..|r|]
    ensures |r| == 0 || r[|r| - 1] != '/'
    ensures forall j :: |r| <= j < |p| ==> p[j] == '/'
    decreases |p|
  {
    if |p| > 0 && p[|p| - 1] == '/' then StripTrailingSlashes(p[..|p| - 1]) else p
  }

  /** What follows the last `/` of `p` (all of `p` when it has none). */
  function AfterLastSlash(p: string): (r: string)
    ensures '/' !in r
  {
    match LastIndexOf(p, '/')
    case None => p
    case Some(i) => p[i + 1..]
  }

  /** `path.basename(p)`: the last `/`-separated segment, ignoring trailing slashes. */
  function Basename(p: string): string {
    AfterLastSlash(StripTrailingSlashes(p))
  }

  /** `path.extname(p)`: from the last `.` of the last segment to its end, or
      empty when the segment has no `.`, starts with its only relevant `.`
      (a dot-file such as `.env`), or is `..`. */
  function ExtName(p: string): string {
    var seg := Basename(p);
    match LastIndexOf(seg, '.')
    case None => ""
    case Some(d) => if d == 0 || seg == ".." then "" else seg[d..]
  }

  lemma NoSlashIsOwnSegment(p: string)
    requires '/' !in p
    ensures StripTrailingSlashes(p) == p && AfterLastSlash(p) == p
  {
    if |p| > 0 {
      assert p[|p| - 1] != '/';
    }
  }

  /** The basename never contains a `/`, so joining it to a directory names a direct child. */
  lemma BasenameHasNoSlash(p: string)
    ensures '/' !in Basename(p)
  {
  }

  /** A non-empty `/`-free name placed after a `/` is the basename of the whole. */
  lemma BasenameAfterSlash(prefix: string, f: string)
    requires |f| > 0 && '/' !in f
    ensures Basename(prefix + "/" + f) == f
  {
    var p := prefix + "/" + f;
    assert p[|p| - 1] == f[|f| - 1] != '/';
    assert StripTrailingSlashes(p) == p;
    assert p[|prefix|] == '/';
    assert forall j :: |prefix| < j < |p| ==> p[j] == f[j - |prefix| - 1] != '/';
    var k := LastIndexOf(p, '/').value;
    assert k == |prefix|;
    assert p[k + 1..] == f;
  }

  /** What `extname` returns: nothing, or a `.` followed by `/`- and `.`-free text. */
  lemma ExtNameShape(p: string)
    ensures var e := ExtName(p);
      '/' !in e && (e == "" || (e[0] == '.' && '.' !in e[1..]))
  {
    var seg := Basename(p);
    var ld := LastIndexOf(seg, '.');
    if ld.Some? && ld.value != 0 && seg != ".." {
      var d := ld.value;
      var e := seg[d..];
      assert ExtName(p) == e;
      assert forall j :: 0 <= j < |e| ==> e[j] == seg[d + j] != '/';
      assert forall j :: 0 <= j < |e[1..]| ==> e[1..][j] == seg[d + 1 + j] != '.';
    } else {
      assert ExtName(p) == "";
    }
  }

  /** Prefixing a non-empty name free of `.` and `/` to an extension keeps that extension. */
  lemma ExtNameOfPrefixed(u: string, e: string)
    requires |u| > 0 && '.' !in u && '/' !in u
    requires '/' !in e && (e == "" || (e[0] == '.' && '.' !in e[1..]))
    ensures ExtName(u + e) == e
  {
    var s := u + e;
    assert forall j :: 0 <= j < |s| ==> s[j] != '/' by {
      assert forall j :: 0 <= j < |u| ==> s[j] == u[j];
      assert forall j :: |u| <= j < |s| ==> s[j] == e[j - |u|];
    }
    NoSlashIsOwnSegment(s);
    assert Basename(s) == s;
    if e == "" {
      assert s == u;
    } else {
      assert s[|u|] == '.';
      assert forall j :: |u| < j < |s| ==> s[j] == e[1..][j - |u| - 1] != '.';
      var d := LastIndexOf(s, '.').value;
      assert d == |u|;
      assert s != ".." by {
        assert s[0] == u[0] != '.';
      }
      assert s[d..] == e;
    }
  }
}
