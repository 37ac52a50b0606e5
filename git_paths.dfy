/**
 * Path and diff-line helpers shared by both `GitOperations` classes: the
 * normalisation of the configured database path, the second whitespace-separated
 * field of a `git diff --name-status` line, and POSIX `path.basename`.
 */
module GitPaths {
  import opened Wrappers
  import opened JsString

  /**
   * The constructor's `relativePath`: one leading "/" removed unless the path is
   * exactly "/", then a trailing "/" appended when missing.
   */
  function NormalizedRelativePath(path: string): (r: string)
    ensures EndsWith(r, "/")
    ensures path == "/" ==> r == "/"
  {
    var stripped := if path != "/" && StartsWith(path, "/") then path[1..] else path;
    if EndsWith(stripped, "/") then stripped
    else
      assert (stripped + "/")[|stripped + "/"| - 1..] == "/";
      stripped + "/"
  }

  /** The normalised path is the input without one leading "/", extended by at most the trailing "/". */
  lemma NormalizedShape(path: string)
    ensures var r := NormalizedRelativePath(path);
      var core := if path != "/" && StartsWith(path, "/") then path[1..] else path;
      |core| <= |r| <= |core| + 1 && r[..|core|] == core && (EndsWith(core, "/") ==> r == core)
  {
  }

  /** A path that starts with "/" (and is not "/") loses exactly that one slash; a second one stays. */
  lemma NormalizedStripsOneSlash(rest: string)
    requires rest != []
    ensures var r := NormalizedRelativePath("/" + rest); r[..|rest|] == rest && |r| <= |rest| + 1
  {
    var path := "/" + rest;
    assert path != "/" && StartsWith(path, "/");
    assert path[1..] == rest;
    NormalizedShape(path);
  }

  /** A path that neither starts nor ends with "/" only gains the trailing slash. */
  lemma NormalizedPlainPath(path: string)
    requires !StartsWith(path, "/") && !EndsWith(path, "/")
    ensures NormalizedRelativePath(path) == path + "/"
  {
  }

  /** Normalising twice changes nothing for a path that does not start with "/". */
  lemma NormalizedStable(path: string)
    requires !StartsWith(path, "/")
    ensures NormalizedRelativePath(NormalizedRelativePath(path)) == NormalizedRelativePath(path)
  {
    var r := NormalizedRelativePath(path);
    NormalizedShape(path);
    if path != [] {
      assert r[0] == path[0];
    }
  }

  // ---------------------------------------------------------------------------
  // `line.split(/\s+/, 2)`
  // ---------------------------------------------------------------------------

  /** The first position at or after `from` that holds white space, or `|s|`. */
  function WhiteSpaceFrom(s: string, from: nat): (r: nat)
    requires from <= |s|
    ensures from <= r <= |s| && (r < |s| ==> IsWhiteSpace(s[r]))
    ensures forall k :: from <= k < r ==> !IsWhiteSpace(s[k])
    decreases |s| - from
  {
    if from == |s| || IsWhiteSpace(s[from]) then from else WhiteSpaceFrom(s, from + 1)
  }

  /** The first position at or after `from` that does not hold white space, or `|s|`. */
  function WhiteSpaceEnd(s: string, from: nat): (r: nat)
    requires from <= |s|
    ensures from <= r <= |s| && (r < |s| ==> !IsWhiteSpace(s[r]))
    ensures forall k :: from <= k < r ==> IsWhiteSpace(s[k])
    decreases |s| - from
  {
    if from == |s| || !IsWhiteSpace(s[from]) then from else WhiteSpaceEnd(s, from + 1)
  }

  predicate NoWhiteSpace(s: string) {
    forall k :: 0 <= k < |s| ==> !IsWhiteSpace(s[k])
  }

  /**
   * The second element of `line.split(/\s+/, 2)`: `None` when the line has no
   * white space (the split yields one element), otherwise the text between the
   * first white-space run and the next one (possibly empty).
   */
  function SecondField(line: string): (r: Option<string>)
    ensures r.None? <==> NoWhiteSpace(line)
    ensures r.Some? ==> NoWhiteSpace(r.value)
  {
    var i := WhiteSpaceFrom(line, 0);
    if i == |line| then None
    else
      var j := WhiteSpaceEnd(line, i);
      var k := WhiteSpaceFrom(line, j);
      assert forall m :: 0 <= m < k - j ==> line[j..k][m] == line[j + m];
      Some(line[j..k])
  }

  /** A field, a white-space run, a second field and the rest (empty, or from the next white space) give that second field. */
  lemma SecondFieldOf(first: string, gap: string, second: string, rest: string)
    requires NoWhiteSpace(first) && gap != [] && forall k :: 0 <= k < |gap| ==> IsWhiteSpace(gap[k])
    requires NoWhiteSpace(second) && (rest == [] || IsWhiteSpace(rest[0]))
    requires second != [] || rest == []
    ensures SecondField(first + gap + second + rest) == Some(second)
  {
    var line := first + gap + second + rest;
    var i := |first|;
    var j := |first| + |gap|;
    var k := j + |second|;
    assert forall m :: 0 <= m < i ==> line[m] == first[m];
    assert forall m :: i <= m < j ==> line[m] == gap[m - i];
    assert forall m :: j <= m < k ==> line[m] == second[m - j];
    assert k < |line| ==> line[k] == rest[0];
    WhiteSpaceFromIs(line, 0, i);
    WhiteSpaceEndIs(line, i, j);
    WhiteSpaceFromIs(line, j, k);
    assert line[j..k] == second;
  }

  lemma {:induction false} WhiteSpaceFromIs(s: string, from: nat, r: nat)
    requires from <= r <= |s| && (r < |s| ==> IsWhiteSpace(s[r]))
    requires forall k :: from <= k < r ==> !IsWhiteSpace(s[k])
    ensures WhiteSpaceFrom(s, from) == r
    decreases r - from
  {
    if from < r {
      WhiteSpaceFromIs(s, from + 1, r);
    }
  }

  lemma {:induction false} WhiteSpaceEndIs(s: string, from: nat, r: nat)
    requires from <= r <= |s| && (r < |s| ==> !IsWhiteSpace(s[r]))
    requires forall k :: from <= k < r ==> IsWhiteSpace(s[k])
    ensures WhiteSpaceEnd(s, from) == r
    decreases r - from
  {
    if from < r {
      WhiteSpaceEndIs(s, from + 1, r);
    }
  }

  // ---------------------------------------------------------------------------
  // POSIX `path.basename`
  // ---------------------------------------------------------------------------

  /** The path without its trailing slashes. */
  function StripTrailingSlashes(p: string): (r: string)
    ensures |r| <= |p| && r == p[..|r|]
    ensures r == [] || r[|r| - 1] != '/'
    ensures forall k :: |r| <= k < |p| ==> p[k] == '/'
  {
    if p != [] && p[|p| - 1] == '/' then StripTrailingSlashes(p[..|p| - 1]) else p
  }

  /** What follows the last "/" (all of it when there is none). */
  function AfterLastSlash(p: string): (r: string)
    ensures '/' !in r && |r| <= |p|
  {
    if p == [] then []
    else if p[|p| - 1] == '/' then []
    else AfterLastSlash(p[..|p| - 1]) + [p[|p| - 1]]
  }

  /** `path.basename(p)` on POSIX. */
  function Basename(p: string): (r: string)
    ensures '/' !in r
  {
    AfterLastSlash(StripTrailingSlashes(p))
  }

  /** The name after the last separator of a path is its basename, with or without directories before it. */
  lemma BasenameOf(dir: string, name: string)
    requires name != [] && '/' !in name
    ensures Basename(name) == name
    ensures Basename(dir + "/" + name) == name
  {
    AfterLastSlashOf([], name);
    assert [] + name == name;
    AfterLastSlashOf(dir + "/", name);
    assert dir + "/" + name == (dir + "/") + name;
  }

  lemma {:induction false} AfterLastSlashOf(prefix: string, name: string)
    requires forall k :: 0 <= k < |name| ==> name[k] != '/'
    requires prefix == [] || prefix[|prefix| - 1] == '/'
    ensures AfterLastSlash(prefix + name) == name
    decreases |name|
  {
    if name == [] {
      assert prefix + name == prefix;
    } else {
      var n := |name|;
      var p := prefix + name;
      assert p[|p| - 1] == name[n - 1];
      assert p[..|p| - 1] == prefix + name[..n - 1];
      AfterLastSlashOf(prefix, name[..n - 1]);
      assert name == name[..n - 1] + [name[n - 1]];
    }
  }
}
