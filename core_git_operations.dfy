/**
 * `src/core/gitOperations.ts`: the configured database path, the parsing of
 * `git diff --name-status -- '*.md'` output into changed paths, and the flag
 * `pullLatest` returns. The git commands themselves are left to the caller: the
 * diff output and the revisions before and after a pull are parameters.
 */
module CoreGitOperations {
  import opened Wrappers
  import opened JsString
  import opened Seqs
  import opened GitPaths

  /** The path a `--name-status` line names: its second field, when there is one and it is not empty. */
  function LinePath(line: string): (r: Option<string>)
    ensures r.Some? ==> r.value != [] && NoWhiteSpace(r.value)
  {
    match SecondField(line)
    case None => None
    case Some(path) => if path == [] then None else Some(path)
  }

  /** The paths of the lines, in order, that `keep` accepts. */
  function PathsKept(lines: seq<string>, keep: string -> bool): (paths: seq<string>)
    ensures |paths| <= |lines|
    ensures forall k :: 0 <= k < |paths| ==> paths[k] != [] && keep(paths[k])
  {
    if lines == [] then [] else LineKept(lines[0], keep) + PathsKept(lines[1..], keep)
  }

  /** The path of one line, when it has one that `keep` accepts. */
  function LineKept(line: string, keep: string -> bool): seq<string> {
    match LinePath(line)
    case Some(path) => if keep(path) then [path] else []
    case None => []
  }

  /** Some line names `path`. */
  predicate SomeLineNames(lines: seq<string>, path: string) {
    exists i :: 0 <= i < |lines| && LinePath(lines[i]) == Some(path)
  }

  /** Each path listed comes from a line, and each accepted line path is listed. */
  lemma {:induction false} PathsKeptMembers(lines: seq<string>, keep: string -> bool, path: string)
    ensures path in PathsKept(lines, keep) <==> keep(path) && SomeLineNames(lines, path)
  {
    if lines != [] {
      PathsKeptMembers(lines[1..], keep, path);
      if exists i :: 0 <= i < |lines[1..]| && LinePath(lines[1..][i]) == Some(path) {
        var i :| 0 <= i < |lines[1..]| && LinePath(lines[1..][i]) == Some(path);
        assert LinePath(lines[i + 1]) == Some(path);
      }
      if exists i :: 0 <= i < |lines| && LinePath(lines[i]) == Some(path) {
        var i :| 0 <= i < |lines| && LinePath(lines[i]) == Some(path);
        if i > 0 {
          assert LinePath(lines[1..][i - 1]) == Some(path);
        }
      }
    }
  }

  /** Parsing distributes over the lines: a block of output parses to the paths of its parts. */
  lemma {:induction false} PathsKeptAppend(a: seq<string>, b: seq<string>, keep: string -> bool)
    ensures PathsKept(a + b, keep) == PathsKept(a, keep) + PathsKept(b, keep)
  {
    if a == [] {
      assert a + b == b;
    } else {
      var head := LineKept(a[0], keep);
      assert (a + b)[0] == a[0] && (a + b)[1..] == a[1..] + b;
      assert PathsKept(a + b, keep) == head + PathsKept(a[1..] + b, keep);
      PathsKeptAppend(a[1..], b, keep);
      AppendAssoc(head, PathsKept(a[1..], keep), PathsKept(b, keep));
    }
  }

  /** The filter as written: the path starts with `relativePath`. */
  function StartsWithRelative(relativePath: string): string -> bool {
    (path: string) => StartsWith(path, relativePath)
  }

  /** `getChangedMarkdownFiles` as written: "" or white space gives no paths; otherwise the parsed paths under `relativePath`. */
  function ChangedMarkdownFilesAsWritten(diffOutput: string, relativePath: string): (paths: seq<string>)
    ensures Trim(diffOutput) == [] ==> paths == []
    ensures forall k :: 0 <= k < |paths| ==> StartsWith(paths[k], relativePath)
  {
    if Trim(diffOutput) == [] then [] else PathsKept(Split(diffOutput, '\n'), StartsWithRelative(relativePath))
  }

  /**
   * Git reports paths relative to the top of the repository, never with a
   * leading "/"; a database configured at the repository root ("/", which the
   * constructor keeps as "/") therefore sees none of its changes.
   */
  lemma RootDropsEveryChange(status: string, path: string)
    requires status != [] && NoWhiteSpace(status) && path != [] && NoWhiteSpace(path) && path[0] != '/'
    requires '\n' !in status && '\n' !in path
    ensures ChangedMarkdownFilesAsWritten(status + "\t" + path, "/") == []
    ensures ChangedMarkdownFiles(status + "\t" + path, "/") == [path]
  {
    var line := status + "\t" + path;
    NameStatusLine(status, path);
    assert !StartsWith(path, "/") by {
      assert path[..1] != "/";
    }
    PathsKeptSingle(line, StartsWithRelative("/"));
    PathsKeptSingle(line, InDatabase("/"));
  }

  lemma PathsKeptSingle(line: string, keep: string -> bool)
    ensures PathsKept([line], keep) == LineKept(line, keep)
  {
    assert [line][1..] == [];
  }

  /** The corrected filter: the database root accepts every path, any other prefix its own paths. */
  function InDatabase(relativePath: string): string -> bool {
    (path: string) => relativePath == "/" || StartsWith(path, relativePath)
  }

  /** `getChangedMarkdownFiles`, with the root database keeping every path. */
  function ChangedMarkdownFiles(diffOutput: string, relativePath: string): (paths: seq<string>)
    ensures Trim(diffOutput) == [] ==> paths == []
    ensures relativePath != "/" ==> paths == ChangedMarkdownFilesAsWritten(diffOutput, relativePath)
  {
    if Trim(diffOutput) == [] then []
    else
      var lines := Split(diffOutput, '\n');
      assert relativePath != "/" ==> PathsKept(lines, InDatabase(relativePath)) == PathsKept(lines, StartsWithRelative(relativePath)) by {
        if relativePath != "/" {
          PathsKeptSameFilter(lines, InDatabase(relativePath), StartsWithRelative(relativePath));
        }
      }
      PathsKept(lines, InDatabase(relativePath))
  }

  lemma {:induction false} PathsKeptSameFilter(lines: seq<string>, p: string -> bool, q: string -> bool)
    requires forall path :: p(path) == q(path)
    ensures PathsKept(lines, p) == PathsKept(lines, q)
  {
    if lines != [] {
      PathsKeptSameFilter(lines[1..], p, q);
    }
  }

  /** A path is reported exactly when some line of the (non-blank) output names it and it lies in the database. */
  lemma ChangedMarkdownFilesMembers(diffOutput: string, relativePath: string, path: string)
    requires Trim(diffOutput) != []
    ensures path in ChangedMarkdownFiles(diffOutput, relativePath) <==>
      (relativePath == "/" || StartsWith(path, relativePath)) && SomeLineNames(Split(diffOutput, '\n'), path)
  {
    var lines := Split(diffOutput, '\n');
    assert ChangedMarkdownFiles(diffOutput, relativePath) == PathsKept(lines, InDatabase(relativePath));
    PathsKeptMembers(lines, InDatabase(relativePath), path);
  }

  /** One `--name-status` line, a status and a path separated by a tab, reports that path. */
  lemma NameStatusLine(status: string, path: string)
    requires status != [] && NoWhiteSpace(status) && path != [] && NoWhiteSpace(path)
    requires '\n' !in status && '\n' !in path
    ensures var line := status + "\t" + path;
      Trim(line) != [] && Split(line, '\n') == [line] && LinePath(line) == Some(path)
  {
    var line := status + "\t" + path;
    SecondFieldOf(status, "\t", path, []);
    assert line == status + "\t" + path + [];
    assert '\n' !in line by {
      forall k | 0 <= k < |line| ensures line[k] != '\n' {
        if k < |status| { assert line[k] == status[k]; }
        else if k > |status| { assert line[k] == path[k - |status| - 1]; }
      }
    }
    SplitNoSeparator(line, '\n');
    TrimEmptyIff(line);
    assert !IsWhiteSpace(line[0]);
  }

  /** The configured repository and the revision its checkout is at. */
  class GitOperations {
    const relativePath: string
    var head: string

    /** The constructor's normalisation of the configured path. */
    constructor(path: string, head: string)
      ensures relativePath == NormalizedRelativePath(path) && this.head == head
    {
      var relative := path;
      if relative != "/" && StartsWith(relative, "/") {
        relative := relative[1..];
      }
      if !EndsWith(relative, "/") {
        relative := relative + "/";
      }
      relativePath := relative;
      this.head := head;
    }

    /** `pullLatest`: the checkout moves to `pulled`; the result says whether the revision changed. */
    method PullLatest(pulled: string) returns (changed: bool)
      modifies this
      ensures head == pulled
      ensures changed <==> old(head) != pulled
    {
      var gitRevision := head;
      head := pulled;
      var newGitRevision := head;
      changed := gitRevision != newGitRevision;
    }
  }
}
