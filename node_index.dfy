/**
 * `node-gitdb/src/database/gitdb-index.ts`: the older indexer, which keeps only
 * file indices and the tracker. Its `determineChangedFiles` strips the
 * configured database path from each changed path before splitting it into a
 * table and a file, and skips the files the configuration excludes.
 */
module NodeIndex {
  import opened Wrappers
  import opened JsString
  import opened Seqs
  import opened IndexRecords
  import opened IndexRun

  // ---------------------------------------------------------------------------
  // The prefix a changed path loses
  // ---------------------------------------------------------------------------

  /** The configured path without one leading "/". */
  function WithoutLeadingSlash(relativePath: string): string {
    if StartsWith(relativePath, "/") then relativePath[1..] else relativePath
  }

  /** As written: one leading "/" removed, then a trailing "/" guaranteed; the root "/" comes back as "/". */
  function StripPrefixAsWritten(relativePath: string): (prefix: string)
    ensures EndsWith(prefix, "/")
  {
    var path := WithoutLeadingSlash(relativePath);
    if EndsWith(path, "/") then path else path + "/"
  }

  /** The root database: the prefix as written is "/" itself. */
  lemma RootPrefixAsWritten()
    ensures StripPrefixAsWritten("/") == "/"
  {
    var root := "/";
    assert root[..1] == "/" && root[1..] == [];
    assert WithoutLeadingSlash(root) == [];
    assert !EndsWith([], "/");
    assert [] + root == root;
  }

  /** Corrected: an empty path stays empty, so the root database strips nothing. */
  function StripPrefix(relativePath: string): (prefix: string)
    ensures prefix == [] || EndsWith(prefix, "/")
    ensures WithoutLeadingSlash(relativePath) != [] ==> prefix == StripPrefixAsWritten(relativePath)
  {
    var path := WithoutLeadingSlash(relativePath);
    if path == [] || EndsWith(path, "/") then path else path + "/"
  }

  /** The two prefixes differ only for the root path "/" (and the empty path). */
  lemma StripPrefixOffRoot(relativePath: string)
    requires relativePath != "/" && relativePath != []
    ensures StripPrefix(relativePath) == StripPrefixAsWritten(relativePath)
  {
    if StartsWith(relativePath, "/") {
      assert relativePath == "/" + relativePath[1..];
    }
  }

  /** `changedGitFile.replace(prefix, '')`: the first occurrence removed. */
  function Stripped(prefix: string, path: string): string {
    ReplaceFirst(path, prefix, "")
  }

  /** A path under the prefix loses exactly the prefix. */
  lemma StrippedUnder(prefix: string, rest: string)
    ensures Stripped(prefix, prefix + rest) == rest
  {
    var s := prefix + rest;
    assert OccursAt(s, prefix, 0) by { assert s[..|prefix|] == prefix; }
    assert s[0 + |prefix|..] == rest;
  }

  // ---------------------------------------------------------------------------
  // determineChangedFiles
  // ---------------------------------------------------------------------------

  /** The change a path gives: an error, a skipped excluded file, or the change. */
  function PathChange(checkout: Checkout, prefix: string, excludeFiles: seq<string>, path: string): Result<Option<ChangedFile>, string> {
    var stripped := Stripped(prefix, path);
    if !TablePath(stripped) then Err(InvalidChange(path))
    else
      var change := ChangeOf(checkout, stripped);
      if change.file in excludeFiles then Ok(None)
      else if !FileReadable(checkout, stripped) then Err(ReadFailure(path))
      else Ok(Some(change))
  }

  /** A path the loop gets past: a table path once stripped, whose file is excluded or can be read. */
  predicate Passes(checkout: Checkout, prefix: string, excludeFiles: seq<string>, path: string) {
    var stripped := Stripped(prefix, path);
    TablePath(stripped) && (ChangeOf(checkout, stripped).file in excludeFiles || FileReadable(checkout, stripped))
  }

  /** Some path gives `change` and `change` is not excluded. */
  predicate Reports(checkout: Checkout, prefix: string, excludeFiles: seq<string>, paths: seq<string>, change: ChangedFile) {
    exists k :: 0 <= k < |paths| && PathChange(checkout, prefix, excludeFiles, paths[k]) == Ok(Some(change))
  }

  /**
   * The loop's accumulation over the outcomes of the paths, in order: the
   * first error ends it, a skipped path adds nothing, a change is pushed.
   */
  function Collect(steps: seq<Result<Option<ChangedFile>, string>>): Result<seq<ChangedFile>, string> {
    if steps == [] then Ok([])
    else
      match Collect(steps[..|steps| - 1])
      case Err(e) => Err(e)
      case Ok(cs) =>
        match steps[|steps| - 1]
        case Err(e) => Err(e)
        case Ok(step) => Ok(cs + (if step.Some? then [step.value] else []))
  }

  /** The accumulation succeeds exactly when every outcome is a success. */
  lemma {:induction false} CollectOk(steps: seq<Result<Option<ChangedFile>, string>>)
    ensures Collect(steps).Ok? <==> forall k :: 0 <= k < |steps| ==> steps[k].Ok?
  {
    if steps != [] {
      var n := |steps|;
      CollectOk(steps[..n - 1]);
      assert forall k :: 0 <= k < n - 1 ==> steps[..n - 1][k] == steps[k];
    }
  }

  /** A successful accumulation holds exactly the changes of the outcomes. */
  lemma {:induction false} CollectMembers(steps: seq<Result<Option<ChangedFile>, string>>, change: ChangedFile)
    requires Collect(steps).Ok?
    ensures change in Collect(steps).value <==> exists k :: 0 <= k < |steps| && steps[k] == Ok(Some(change))
  {
    if steps != [] {
      var n := |steps|;
      CollectMembers(steps[..n - 1], change);
      if exists k :: 0 <= k < |steps| && steps[k] == Ok(Some(change)) {
        var k :| 0 <= k < |steps| && steps[k] == Ok(Some(change));
        if k < n - 1 { assert steps[..n - 1][k] == steps[k]; }
      }
      var front := steps[..n - 1];
      if exists k :: 0 <= k < n - 1 && front[k] == Ok(Some(change)) {
        var k :| 0 <= k < n - 1 && front[k] == Ok(Some(change));
        assert steps[k] == front[k];
      }
    }
  }

  /** An error among the first outcomes is the error of them all. */
  lemma {:induction false} CollectErrorStays(steps: seq<Result<Option<ChangedFile>, string>>, i: nat)
    requires i <= |steps| && Collect(steps[..i]).Err?
    ensures Collect(steps) == Collect(steps[..i])
    decreases |steps|
  {
    if i == |steps| {
      assert steps[..i] == steps;
    } else {
      var n := |steps|;
      assert steps[..n - 1][..i] == steps[..i];
      CollectErrorStays(steps[..n - 1], i);
    }
  }

  /** One more outcome: an error ends the accumulation, a skipped path adds nothing, a change is pushed. */
  lemma CollectPush(steps: seq<Result<Option<ChangedFile>, string>>, i: nat, cs: seq<ChangedFile>)
    requires i < |steps| && Collect(steps[..i]) == Ok(cs)
    ensures steps[i].Err? ==> Collect(steps[..i + 1]) == Err(steps[i].error)
    ensures steps[i] == Ok(None) ==> Collect(steps[..i + 1]) == Ok(cs)
    ensures forall change :: steps[i] == Ok(Some(change)) ==> Collect(steps[..i + 1]) == Ok(cs + [change])
  {
    assert steps[..i + 1][..i] == steps[..i];
    assert cs + [] == cs;
  }

  /** The outcome of each changed path. */
  function PathChanges(checkout: Checkout, prefix: string, excludeFiles: seq<string>, paths: seq<string>): (steps: seq<Result<Option<ChangedFile>, string>>)
    ensures |steps| == |paths|
    ensures forall k :: 0 <= k < |paths| ==> steps[k] == PathChange(checkout, prefix, excludeFiles, paths[k])
  {
    seq(|paths|, k requires 0 <= k < |paths| => PathChange(checkout, prefix, excludeFiles, paths[k]))
  }

  /** The changes of a list of changed paths, path after path, or the error of the first path the loop does not get past. */
  function StrippedChanges(checkout: Checkout, prefix: string, excludeFiles: seq<string>, paths: seq<string>): Result<seq<ChangedFile>, string> {
    Collect(PathChanges(checkout, prefix, excludeFiles, paths))
  }

  /** The changes are found exactly when every path is a table path once stripped, and its file is excluded or can be read. */
  lemma StrippedChangesOk(checkout: Checkout, prefix: string, excludeFiles: seq<string>, paths: seq<string>)
    ensures StrippedChanges(checkout, prefix, excludeFiles, paths).Ok?
        <==> forall k :: 0 <= k < |paths| ==> Passes(checkout, prefix, excludeFiles, paths[k])
  {
    var steps := PathChanges(checkout, prefix, excludeFiles, paths);
    CollectOk(steps);
    forall k | 0 <= k < |paths| ensures steps[k].Ok? <==> Passes(checkout, prefix, excludeFiles, paths[k]) {
      assert steps[k] == PathChange(checkout, prefix, excludeFiles, paths[k]);
    }
  }

  /** Found changes are exactly the changes some path reports; so no excluded file is among them. */
  lemma StrippedChangesMembers(checkout: Checkout, prefix: string, excludeFiles: seq<string>, paths: seq<string>, change: ChangedFile)
    requires StrippedChanges(checkout, prefix, excludeFiles, paths).Ok?
    ensures change in StrippedChanges(checkout, prefix, excludeFiles, paths).value
        <==> Reports(checkout, prefix, excludeFiles, paths, change)
    ensures change in StrippedChanges(checkout, prefix, excludeFiles, paths).value ==> change.file !in excludeFiles
  {
    var steps := PathChanges(checkout, prefix, excludeFiles, paths);
    CollectMembers(steps, change);
    if change in StrippedChanges(checkout, prefix, excludeFiles, paths).value {
      var k :| 0 <= k < |steps| && steps[k] == Ok(Some(change));
      PathChangeNotExcluded(checkout, prefix, excludeFiles, paths[k], change);
    }
  }

  /** A path that gives a change gives one whose file is not excluded. */
  lemma PathChangeNotExcluded(checkout: Checkout, prefix: string, excludeFiles: seq<string>, path: string, change: ChangedFile)
    requires PathChange(checkout, prefix, excludeFiles, path) == Ok(Some(change))
    ensures change.file !in excludeFiles
  {
  }

  /** A single path gives its own change. */
  lemma SingleStrippedChange(checkout: Checkout, prefix: string, excludeFiles: seq<string>, path: string)
    ensures StrippedChanges(checkout, prefix, excludeFiles, [path]) ==
      match PathChange(checkout, prefix, excludeFiles, path)
      case Err(e) => Err(e)
      case Ok(step) => Ok(if step.Some? then [step.value] else [])
  {
    var steps := PathChanges(checkout, prefix, excludeFiles, [path]);
    assert |steps| == 1 && steps[..0] == [] && steps[0] == PathChange(checkout, prefix, excludeFiles, path);
    assert Collect(steps[..0]) == Ok([]);
    match steps[0]
    case Err(_) =>
    case Ok(step) =>
      var added := if step.Some? then [step.value] else [];
      assert [] + added == added;
  }

  /** The change of one path read off its stripped parts. */
  lemma PathChangeParts(checkout: Checkout, prefix: string, excludeFiles: seq<string>, path: string)
    ensures var parts := Split(Stripped(prefix, path), '/');
      PathChange(checkout, prefix, excludeFiles, path) ==
        if |parts| != 2 then Err(InvalidChange(path))
        else if parts[1] in excludeFiles then Ok(None)
        else if !checkout.readable(parts[0], parts[1]) then Err(ReadFailure(path))
        else Ok(Some(ChangedFile(parts[0], parts[1], checkout.gitHash(parts[0], parts[1]), checkout.sha256(parts[0], parts[1]))))
  {
  }

  /** What `determineChangedFiles` returns, with the prefix the run strips. */
  function NodeChangesToIndex(checkout: Checkout, prefix: string, excludeFiles: seq<string>, tracker: Option<Tracker>): Result<seq<ChangedFile>, string> {
    if Incremental(tracker) then StrippedChanges(checkout, prefix, excludeFiles, checkout.changedSince(tracker.value.gitHash))
    else Ok(TablesChanges(checkout, checkout.tables))
  }

  /** Under the prefix "/" a table path loses its own separator. */
  lemma RootStripsSeparator(table: string, file: string)
    requires '/' !in table
    ensures Stripped("/", table + "/" + file) == table + file
  {
    ReplaceFirstAfter(table, "/", file, "");
    assert ReplaceFirst(table + "/" + file, "/", "") == table + "" + file;
    assert table + "" == table;
  }

  lemma NoSlashJoined(table: string, file: string)
    requires '/' !in table && '/' !in file
    ensures Split(table + file, '/') == [table + file]
  {
    assert '/' !in table + file by {
      forall k | 0 <= k < |table + file| ensures (table + file)[k] != '/' {
        if k < |table| { assert (table + file)[k] == table[k] && table[k] in table; }
        else { assert (table + file)[k] == file[k - |table|] && file[k - |table|] in file; }
      }
    }
    SplitNoSeparator(table + file, '/');
  }

  /** A table path splits into its table and its file. */
  lemma TablePathParts(table: string, file: string)
    requires '/' !in table && '/' !in file
    ensures Split(table + "/" + file, '/') == [table, file]
  {
    assert table + "/" + file == table + ['/'] + file;
    SplitAt(table, file, '/');
    SplitNoSeparator(file, '/');
  }

  /** The root path "/" strips nothing once corrected. */
  lemma RootPrefix()
    ensures StripPrefix("/") == []
  {
    var root := "/";
    assert |root| == 1 && root[..1] == root;
    assert root[1..] == [];
    assert WithoutLeadingSlash(root) == [];
  }

  /** The as-written root prefix rejects a table path. */
  lemma RootPathAsWritten(checkout: Checkout, excludeFiles: seq<string>, table: string, file: string)
    requires '/' !in table && '/' !in file
    ensures var path := table + "/" + file;
      PathChange(checkout, "/", excludeFiles, path) == Err(InvalidChange(path))
  {
    RootStripsSeparator(table, file);
    NoSlashJoined(table, file);
  }

  /** The corrected root prefix keeps a table path whole. */
  lemma RootPathCorrected(checkout: Checkout, excludeFiles: seq<string>, table: string, file: string)
    requires '/' !in table && '/' !in file && file !in excludeFiles && checkout.readable(table, file)
    ensures PathChange(checkout, [], excludeFiles, table + "/" + file)
         == Ok(Some(ChangedFile(table, file, checkout.gitHash(table, file), checkout.sha256(table, file))))
  {
    StrippedUnder([], table + "/" + file);
    assert [] + (table + "/" + file) == table + "/" + file;
    TablePathParts(table, file);
  }

  /**
   * Under the root database as written every table path is rejected: the
   * prefix "/" removes the path's own separator. The corrected prefix keeps it.
   */
  lemma RootRejectsEveryChange(checkout: Checkout, excludeFiles: seq<string>, table: string, file: string)
    requires '/' !in table && '/' !in file && file !in excludeFiles && checkout.readable(table, file)
    ensures var path := table + "/" + file;
      StrippedChanges(checkout, StripPrefixAsWritten("/"), excludeFiles, [path]) == Err(InvalidChange(path))
      && StrippedChanges(checkout, StripPrefix("/"), excludeFiles, [path])
         == Ok([ChangedFile(table, file, checkout.gitHash(table, file), checkout.sha256(table, file))])
  {
    var path := table + "/" + file;
    RootPrefixAsWritten();
    RootPrefix();
    RootPathAsWritten(checkout, excludeFiles, table, file);
    RootPathCorrected(checkout, excludeFiles, table, file);
    SingleStrippedChange(checkout, "/", excludeFiles, path);
    SingleStrippedChange(checkout, [], excludeFiles, path);
  }

  /** Under a sub-directory prefix a path `prefix + table + "/" + file` names that table and file. */
  lemma SubdirectoryChange(checkout: Checkout, prefix: string, excludeFiles: seq<string>, table: string, file: string)
    requires '/' !in table && '/' !in file && file !in excludeFiles && checkout.readable(table, file)
    ensures PathChange(checkout, prefix, excludeFiles, prefix + table + "/" + file)
         == Ok(Some(ChangedFile(table, file, checkout.gitHash(table, file), checkout.sha256(table, file))))
  {
    assert prefix + table + "/" + file == prefix + (table + "/" + file);
    StrippedUnder(prefix, table + "/" + file);
    TablePathParts(table, file);
  }

  // ---------------------------------------------------------------------------
  // The index as a class over its store
  // ---------------------------------------------------------------------------

  /** The store of this indexer: the tracker and the file indices. */
  datatype NodeStore = NodeStore(tracker: Option<Tracker>, fileIndices: seq<FileIndex>)

  /** `GitDBIndex` of node-gitdb with its store. */
  class NodeGitDbIndex {
    var tracker: Option<Tracker>
    var fileIndices: seq<FileIndex>

    function State(): NodeStore
      reads this
    {
      NodeStore(tracker, fileIndices)
    }

    constructor(store: NodeStore)
      ensures State() == store
    {
      tracker := store.tracker;
      fileIndices := store.fileIndices;
    }

    /** `clearIndices`: file indices only, of the current version. */
    method ClearIndices(table: Option<string>, file: Option<string>)
      modifies this
      ensures State() == old(State()).(fileIndices := DeleteMany(old(fileIndices), IndexKey, ClearQuery(table, file)))
    {
      if Truthy(table) && Truthy(file) {
        fileIndices := DeleteMany(fileIndices, IndexKey, FileQuery(table.value, file.value));
      } else if Truthy(table) {
        fileIndices := DeleteMany(fileIndices, IndexKey, TableQuery(table.value));
      } else {
        fileIndices := DeleteMany(fileIndices, IndexKey, VersionQuery());
      }
    }

    /** `clearIndicesForMissingTables`: current file indices of tables not listed. */
    method ClearIndicesForMissingTables(tables: seq<string>)
      modifies this
      ensures State() == old(State()).(fileIndices := DeleteMany(old(fileIndices), IndexKey, MissingTable(tables)))
    {
      fileIndices := DeleteMany(fileIndices, IndexKey, MissingTable(tables));
    }

    /** The prefix the loop body strips: one leading "/" removed, a trailing "/" added to a non-empty path. */
    static method ChangedPrefix(relativePath: string) returns (path: string)
      ensures path == StripPrefix(relativePath)
    {
      path := relativePath;
      if StartsWith(path, "/") {
        path := path[1..];
      }
      if path != [] && !EndsWith(path, "/") {
        path := path + "/";
      }
    }

    /**
     * The body of that loop for one changed path: the path without the prefix is
     * split on "/"; anything but two parts throws, an excluded file is skipped,
     * a file that cannot be read to hash it throws, and otherwise the table, the
     * file and its hashes are the change.
     */
    static method ChangedGitFile(checkout: Checkout, relativePath: string, excludeFiles: seq<string>, changedGitFile: string)
      returns (step: Result<Option<ChangedFile>, string>)
      ensures step == PathChange(checkout, StripPrefix(relativePath), excludeFiles, changedGitFile)
    {
      var path := ChangedPrefix(relativePath);
      var parts := Split(ReplaceFirst(changedGitFile, path, ""), '/');
      PathChangeParts(checkout, path, excludeFiles, changedGitFile);
      if |parts| != 2 {
        return Err(InvalidChange(changedGitFile));
      }
      var table := parts[0];
      var file := parts[1];
      if file in excludeFiles {
        return Ok(None);
      }
      if !checkout.readable(table, file) {
        return Err(ReadFailure(changedGitFile));
      }
      var fileSha256 := checkout.sha256(table, file);
      step := Ok(Some(ChangedFile(table, file, checkout.gitHash(table, file), fileSha256)));
    }

    /**
     * The loop of `determineChangedFiles` over the paths git reports: each is
     * stripped of the configured path, split into a table and a file, skipped
     * when its file is excluded; the first path that does not split in two, or
     * whose file cannot be read, throws.
     */
    static method ChangedGitFiles(checkout: Checkout, relativePath: string, excludeFiles: seq<string>, gitChangedFiles: seq<string>)
      returns (result: Result<seq<ChangedFile>, string>)
      ensures result == StrippedChanges(checkout, StripPrefix(relativePath), excludeFiles, gitChangedFiles)
    {
      var changedFiles: seq<ChangedFile> := [];
      ghost var steps := PathChanges(checkout, StripPrefix(relativePath), excludeFiles, gitChangedFiles);
      for i := 0 to |gitChangedFiles|
        invariant Collect(steps[..i]) == Ok(changedFiles)
      {
        var step := ChangedGitFile(checkout, relativePath, excludeFiles, gitChangedFiles[i]);
        CollectPush(steps, i, changedFiles);
        match step
        case Err(e) =>
          CollectErrorStays(steps, i + 1);
          return Err(e);
        case Ok(None) =>
        case Ok(Some(changedFile)) =>
          changedFiles := changedFiles + [changedFile];
      }
      assert steps[..|gitChangedFiles|] == steps;
      result := Ok(changedFiles);
    }

    /**
     * `determineChangedFiles` with the configured `relativePath` and excluded
     * file names, stripping the corrected prefix.
     */
    method DetermineChangedFiles(checkout: Checkout, relativePath: string, excludeFiles: seq<string>)
      returns (result: Result<seq<ChangedFile>, string>)
      modifies this
      ensures result == NodeChangesToIndex(checkout, StripPrefix(relativePath), excludeFiles, old(tracker))
      ensures State() == old(State()).(tracker := TrackerAfterChanges(checkout, old(tracker), result))
    {
      var lastIndexRecord := tracker;
      var changedFiles: seq<ChangedFile> := [];
      var noChanges := false;
      if lastIndexRecord.Some? && lastIndexRecord.value.gitHash != [] {
        var gitChangedFiles := checkout.changedSince(lastIndexRecord.value.gitHash);
        if |gitChangedFiles| == 0 {
          noChanges := true;
        } else {
          var found := ChangedGitFiles(checkout, relativePath, excludeFiles, gitChangedFiles);
          if found.Err? {
            return found;
          }
          changedFiles := found.value;
        }
      } else {
        changedFiles := GetAllFilesAsChangedFiles(checkout);
      }
      if !noChanges {
        tracker := Some(Tracker(checkout.revision, changedFiles, checkout.now));
      }
      result := Ok(changedFiles);
    }
  }

  /** Excluded file names never reach the tracker or the result; an empty diff writes no tracker. */
  lemma ExcludedNeverIndexed(checkout: Checkout, prefix: string, excludeFiles: seq<string>, tracker: Option<Tracker>, change: ChangedFile)
    requires Incremental(tracker)
    requires NodeChangesToIndex(checkout, prefix, excludeFiles, tracker).Ok?
    requires change.file in excludeFiles
    ensures change !in NodeChangesToIndex(checkout, prefix, excludeFiles, tracker).value
    ensures checkout.changedSince(tracker.value.gitHash) == [] ==>
      TrackerAfterChanges(checkout, tracker, NodeChangesToIndex(checkout, prefix, excludeFiles, tracker)) == tracker
  {
    StrippedChangesMembers(checkout, prefix, excludeFiles, checkout.changedSince(tracker.value.gitHash), change);
  }
}
