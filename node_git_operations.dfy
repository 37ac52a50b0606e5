/**
 * `node-gitdb/src/database/gitOperations.ts`: the configured database path and
 * the filter chain `getChangedFiles` applies to `git diff --name-only` output.
 * The diff itself is a parameter.
 */
module NodeGitOperations {
  import opened Wrappers
  import opened JsString
  import opened Seqs
  import opened GitPaths

  /** The first filter: everything for the root database, otherwise the paths under `relativePath`. */
  function UnderRelativePath(relativePath: string): string -> bool {
    (file: string) => relativePath == "/" || StartsWith(file, relativePath)
  }

  /** The second filter: with `excludeFiles` set, a file whose basename it lists is dropped. */
  function NotExcluded(excludeFiles: Option<seq<string>>): string -> bool {
    (file: string) => excludeFiles.None? || Basename(file) !in excludeFiles.value
  }

  /** The third filter: empty lines are dropped. */
  function NonEmpty(): string -> bool {
    (file: string) => |file| > 0
  }

  /** All three tests at once. */
  predicate Reported(file: string, relativePath: string, excludeFiles: Option<seq<string>>) {
    (relativePath == "/" || StartsWith(file, relativePath))
    && (excludeFiles.None? || Basename(file) !in excludeFiles.value)
    && file != []
  }

  /** `getChangedFiles` on the output of the diff. */
  function ChangedFiles(diff: string, relativePath: string, excludeFiles: Option<seq<string>>): (files: seq<string>)
    ensures Trim(diff) == [] ==> files == []
    ensures Trim(diff) != [] ==> IsSubsequence(files, Split(diff, '\n'))
    ensures forall f :: f in files <==> Trim(diff) != [] && f in Split(diff, '\n') && Reported(f, relativePath, excludeFiles)
  {
    if |Trim(diff)| == 0 then []
    else
      var lines := Split(diff, '\n');
      var files := Filter(Filter(Filter(lines, UnderRelativePath(relativePath)), NotExcluded(excludeFiles)), NonEmpty());
      FilterFilter(lines, UnderRelativePath(relativePath), NotExcluded(excludeFiles));
      var both := Both(UnderRelativePath(relativePath), NotExcluded(excludeFiles));
      FilterFilter(lines, both, NonEmpty());
      var all := Both(both, NonEmpty());
      assert files == Filter(lines, all);
      FilterIsSubsequence(lines, all);
      assert forall f :: all(f) == Reported(f, relativePath, excludeFiles);
      files
  }

  /** At the repository root with no exclusions, every non-empty line of the output is reported, in order. */
  lemma RootReportsEveryLine(diff: string)
    requires Trim(diff) != []
    ensures ChangedFiles(diff, "/", None) == Filter(Split(diff, '\n'), NonEmpty())
  {
    var lines := Split(diff, '\n');
    var under := UnderRelativePath("/");
    var notExcluded := NotExcluded(None);
    FilterAll(lines, under);
    FilterAll(lines, notExcluded);
  }

  /** A listed file name is never reported, at the repository root or in whichever directory it changed. */
  lemma ExcludedNeverReported(diff: string, relativePath: string, excluded: seq<string>, dir: string, name: string)
    requires name != [] && '/' !in name && name in excluded
    ensures name !in ChangedFiles(diff, relativePath, Some(excluded))
    ensures dir + "/" + name !in ChangedFiles(diff, relativePath, Some(excluded))
  {
    BasenameOf(dir, name);
  }

  /** The configured repository, as far as change detection needs it. */
  class GitOperations {
    const relativePath: string
    const excludeFiles: Option<seq<string>>

    /** The constructor's normalisation of the configured path. */
    constructor(path: string, excludeFiles: Option<seq<string>>)
      ensures relativePath == NormalizedRelativePath(path) && this.excludeFiles == excludeFiles
    {
      this.excludeFiles := excludeFiles;
      var relative := path;
      if relative != "/" && StartsWith(relative, "/") {
        relative := relative[1..];
      }
      if !EndsWith(relative, "/") {
        relative := relative + "/";
      }
      relativePath := relative;
    }
  }
}
