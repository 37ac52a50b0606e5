/**
 * The write side of `src/database/gitdb-index.ts`: an index run over the store
 * of file indices, file nodes and the index tracker. A run determines the
 * changed files (writing the tracker as it does so), upserts a file index for
 * each change and replaces the nodes of each data file, and then prunes the rows
 * of tables and files that are no longer in the checkout.
 *
 * The store's collections are sequences of rows; `deleteMany` is a filter, an
 * upsert replaces the first matching row or appends one, and each new file
 * index takes the next free `_id`.
 */
module IndexRun {
  import opened Wrappers
  import opened JsString
  import opened Seqs
  import opened IndexRecords
  import opened FileNodes

  // ---------------------------------------------------------------------------
  // Rows and queries
  // ---------------------------------------------------------------------------

  /** The fields the store's queries select rows by. */
  datatype RowKey = RowKey(table: string, file: string, indexingVersion: string)

  function IndexKey(fileIndex: FileIndex): RowKey {
    RowKey(fileIndex.table, fileIndex.file, fileIndex.indexingVersion)
  }

  function NodeKey(fileNode: FileNode): RowKey {
    RowKey(fileNode.table, fileNode.file, fileNode.indexingVersion)
  }

  /** The rows a `deleteMany` leaves: those whose key the query does not select. */
  function Survivors<T>(key: T -> RowKey, query: RowKey -> bool): T -> bool {
    (row: T) => !query(key(row))
  }

  /** `deleteMany(query)`. */
  function DeleteMany<T(!new)>(rows: seq<T>, key: T -> RowKey, query: RowKey -> bool): (kept: seq<T>)
    ensures forall row :: row in kept <==> row in rows && !query(key(row))
  {
    var kept := Filter(rows, Survivors(key, query));
    assert forall row :: row in kept <==> row in rows && !query(key(row)) by {
      forall row ensures row in kept <==> row in rows && !query(key(row)) {
        if row in rows && !query(key(row)) {
          var k :| 0 <= k < |rows| && rows[k] == row;
        }
        if row in kept {
          var k :| 0 <= k < |kept| && kept[k] == row;
        }
      }
    }
    kept
  }

  /** Two deletions in a row are one deletion of the rows either selects. */
  lemma {:induction false} DeleteManyTwice<T(!new)>(rows: seq<T>, key: T -> RowKey, first: RowKey -> bool, second: RowKey -> bool, both: RowKey -> bool)
    requires forall k: RowKey :: both(k) == (first(k) || second(k))
    ensures DeleteMany(DeleteMany(rows, key, first), key, second) == DeleteMany(rows, key, both)
  {
    FilterFilter(rows, Survivors(key, first), Survivors(key, second));
    FilterSame(rows, Both(Survivors(key, first), Survivors(key, second)), Survivors(key, both));
  }

  /** `{ table, file, indexingVersion }`. */
  function FileQuery(table: string, file: string): RowKey -> bool {
    (k: RowKey) => k.indexingVersion == IndexingVersion && k.table == table && k.file == file
  }

  /** `{ table, indexingVersion }`. */
  function TableQuery(table: string): RowKey -> bool {
    (k: RowKey) => k.indexingVersion == IndexingVersion && k.table == table
  }

  /** `{ indexingVersion }`. */
  function VersionQuery(): RowKey -> bool {
    (k: RowKey) => k.indexingVersion == IndexingVersion
  }

  /** The query of `clearIndices(table, file)`: JavaScript truthiness decides which arguments count. */
  function ClearQuery(table: Option<string>, file: Option<string>): RowKey -> bool {
    if Truthy(table) && Truthy(file) then FileQuery(table.value, file.value)
    else if Truthy(table) then TableQuery(table.value)
    else VersionQuery()
  }

  /** `{ table: { $nin: tables }, indexingVersion }`. */
  function MissingTable(tables: seq<string>): RowKey -> bool {
    (k: RowKey) => k.indexingVersion == IndexingVersion && k.table !in tables
  }

  /** `{ table, file: { $nin: files }, indexingVersion }`. */
  function MissingFileOf(table: string, files: seq<string>): RowKey -> bool {
    (k: RowKey) => k.indexingVersion == IndexingVersion && k.table == table && k.file !in files
  }

  /** What the per-table deletions of `clearIndicesForMissingFiles` select together. */
  function MissingFile(tables: seq<string>, tableFiles: string -> seq<string>): RowKey -> bool {
    (k: RowKey) => k.indexingVersion == IndexingVersion && k.table in tables && k.file !in tableFiles(k.table)
  }

  /** The store: the tracker of the current indexing version, the two collections, and the next free `_id`. */
  datatype Store = Store(tracker: Option<Tracker>, fileIndices: seq<FileIndex>, fileNodes: seq<FileNode>, nextId: nat)

  // ---------------------------------------------------------------------------
  // determineChangedFiles
  // ---------------------------------------------------------------------------

  /** The tracker holds a truthy revision, so the run looks only at what changed since. */
  predicate Incremental(tracker: Option<Tracker>) {
    tracker.Some? && tracker.value.gitHash != []
  }

  /** A changed path is a table and a file: splitting it on "/" gives exactly two parts. */
  predicate TablePath(path: string) {
    |Split(path, '/')| == 2
  }

  /** The changed file a table path names, with its git blob hash and SHA-256 digest. */
  function ChangeOf(checkout: Checkout, path: string): ChangedFile
    requires TablePath(path)
  {
    var parts := Split(path, '/');
    ChangedFile(parts[0], parts[1], checkout.gitHash(parts[0], parts[1]), checkout.sha256(parts[0], parts[1]))
  }

  /** The error thrown for a path that is not a table path. */
  function InvalidChange(path: string): string {
    "Invalid changed file: " + path
  }

  /** A table path whose file `getTableFileSha256` can read: a path git reports for a deleted file is not. */
  predicate Changeable(checkout: Checkout, path: string) {
    TablePath(path) && FileReadable(checkout, path)
  }

  /** The file a table path names is in the working tree. */
  predicate FileReadable(checkout: Checkout, path: string)
    requires TablePath(path)
  {
    var parts := Split(path, '/');
    checkout.readable(parts[0], parts[1])
  }

  /** The error `readFileSync` throws for the file of a table path that is not in the working tree. */
  function ReadFailure(path: string): string {
    "ENOENT: no such file or directory: " + path
  }

  /** The error a path that is not changeable throws: invalid if it does not split in two, else the failed read. */
  function PathError(checkout: Checkout, path: string): string {
    if TablePath(path) then ReadFailure(path) else InvalidChange(path)
  }

  /** The changed files of a list of changed paths, or the error of the first path that is not changeable. */
  function PathsChanges(checkout: Checkout, paths: seq<string>): (r: Result<seq<ChangedFile>, string>)
    ensures r.Ok? <==> forall k :: 0 <= k < |paths| ==> Changeable(checkout, paths[k])
    ensures r.Ok? ==> |r.value| == |paths| && forall k :: 0 <= k < |paths| ==> r.value[k] == ChangeOf(checkout, paths[k])
  {
    if paths == [] then Ok([])
    else if !Changeable(checkout, paths[0]) then Err(PathError(checkout, paths[0]))
    else
      match PathsChanges(checkout, paths[1..])
      case Err(e) =>
        TailInvalid(checkout, paths);
        Err(e)
      case Ok(cs) =>
        ConsChanges(checkout, paths, cs);
        Ok([ChangeOf(checkout, paths[0])] + cs)
  }

  /** A path of the tail that is not changeable is one of the whole list. */
  lemma TailInvalid(checkout: Checkout, paths: seq<string>)
    requires paths != [] && !forall k :: 0 <= k < |paths[1..]| ==> Changeable(checkout, paths[1..][k])
    ensures !forall k :: 0 <= k < |paths| ==> Changeable(checkout, paths[k])
  {
    var k :| 0 <= k < |paths[1..]| && !Changeable(checkout, paths[1..][k]);
    assert paths[k + 1] == paths[1..][k];
  }

  /** The change of a changeable path followed by the changes of the rest are the changes of the whole list. */
  lemma ConsChanges(checkout: Checkout, paths: seq<string>, cs: seq<ChangedFile>)
    requires paths != [] && Changeable(checkout, paths[0]) && |cs| == |paths| - 1
    requires forall k :: 0 <= k < |paths[1..]| ==> Changeable(checkout, paths[1..][k])
    requires forall k :: 0 <= k < |paths[1..]| ==> TablePath(paths[1..][k]) && cs[k] == ChangeOf(checkout, paths[1..][k])
    ensures forall k :: 0 <= k < |paths| ==> Changeable(checkout, paths[k])
    ensures forall k :: 0 <= k < |paths| ==> TablePath(paths[k]) && ([ChangeOf(checkout, paths[0])] + cs)[k] == ChangeOf(checkout, paths[k])
  {
    var r := [ChangeOf(checkout, paths[0])] + cs;
    forall k | 1 <= k < |paths| ensures Changeable(checkout, paths[k]) && r[k] == ChangeOf(checkout, paths[k]) {
      assert paths[k] == paths[1..][k - 1] && r[k] == cs[k - 1];
    }
  }

  /** Changeable paths only, with their changes in order: that is what `PathsChanges` returns. */
  lemma SameChanges(checkout: Checkout, paths: seq<string>, cs: seq<ChangedFile>)
    requires forall k :: 0 <= k < |paths| ==> Changeable(checkout, paths[k])
    requires |cs| == |paths| && forall k :: 0 <= k < |paths| ==> TablePath(paths[k]) && cs[k] == ChangeOf(checkout, paths[k])
    ensures PathsChanges(checkout, paths) == Ok(cs)
  {
    var r := PathsChanges(checkout, paths);
    assert r.Ok?;
    assert r.value == cs;
  }

  /** The error is the one of the first path that is not a table path. */
  lemma {:induction false} FirstInvalidPath(checkout: Checkout, paths: seq<string>, i: nat)
    requires i < |paths| && !Changeable(checkout, paths[i]) && forall k :: 0 <= k < i ==> Changeable(checkout, paths[k])
    ensures PathsChanges(checkout, paths) == Err(PathError(checkout, paths[i]))
  {
    if i > 0 {
      FirstInvalidPath(checkout, paths[1..], i - 1);
    }
  }

  /** A changed file names the path it came from: its table, "/", its file; neither holds a "/". */
  lemma ChangeNamesPath(checkout: Checkout, path: string)
    requires TablePath(path)
    ensures var c := ChangeOf(checkout, path);
      c.table + "/" + c.file == path && '/' !in c.table && '/' !in c.file
  {
    var parts := Split(path, '/');
    assert Join(parts, '/') == parts[0] + ['/'] + Join(parts[1..], '/');
  }

  /** What `determineChangedFiles` returns: every file on a first run, else the changes git reports. */
  function ChangesToIndex(checkout: Checkout, tracker: Option<Tracker>): Result<seq<ChangedFile>, string> {
    if Incremental(tracker) then PathsChanges(checkout, checkout.changedSince(tracker.value.gitHash))
    else Ok(TablesChanges(checkout, checkout.tables))
  }

  /** The tracker once the changes are determined: kept on an error or an empty diff, else the revision and the changes. */
  function TrackerAfterChanges(checkout: Checkout, tracker: Option<Tracker>, determined: Result<seq<ChangedFile>, string>): Option<Tracker> {
    match determined
    case Err(_) => tracker
    case Ok(changes) =>
      if Incremental(tracker) && checkout.changedSince(tracker.value.gitHash) == [] then tracker
      else Some(Tracker(checkout.revision, changes, checkout.now))
  }

  /** The tracker after `determineChangedFiles`. */
  function TrackerAfter(checkout: Checkout, tracker: Option<Tracker>): Option<Tracker> {
    TrackerAfterChanges(checkout, tracker, ChangesToIndex(checkout, tracker))
  }

  /** With no tracker, or one without a revision, every file of every listed table is a change, and the tracker records them. */
  lemma FirstRunIndexesEverything(checkout: Checkout, tracker: Option<Tracker>, c: ChangedFile)
    requires !Incremental(tracker)
    ensures ChangesToIndex(checkout, tracker).Ok?
    ensures c in ChangesToIndex(checkout, tracker).value <==>
      c.table in checkout.tables && c.file in checkout.tableFiles(c.table)
      && c.gitHash == checkout.gitHash(c.table, c.file) && c.sha256 == checkout.sha256(c.table, c.file)
    ensures TrackerAfter(checkout, tracker) == Some(Tracker(checkout.revision, ChangesToIndex(checkout, tracker).value, checkout.now))
  {
    TablesChangesMembers(checkout, checkout.tables, c);
  }

  /** An incremental run with nothing changed returns no changes and leaves the tracker as it was. */
  lemma EmptyDiffKeepsTracker(checkout: Checkout, tracker: Option<Tracker>)
    requires Incremental(tracker) && checkout.changedSince(tracker.value.gitHash) == []
    ensures ChangesToIndex(checkout, tracker) == Ok([])
    ensures TrackerAfter(checkout, tracker) == tracker
  {
  }

  /**
   * An incremental run fails exactly when some reported path is not a table
   * path, and then leaves the tracker as it was; otherwise it returns one change
   * per reported path, and the tracker records the revision and those changes.
   */
  lemma IncrementalRun(checkout: Checkout, tracker: Option<Tracker>)
    requires Incremental(tracker) && checkout.changedSince(tracker.value.gitHash) != []
    ensures var paths := checkout.changedSince(tracker.value.gitHash);
      var r := ChangesToIndex(checkout, tracker);
      (r.Err? <==> exists k :: 0 <= k < |paths| && !Changeable(checkout, paths[k]))
      && (r.Err? ==> TrackerAfter(checkout, tracker) == tracker)
      && (r.Ok? ==>
            |r.value| == |paths|
            && (forall k :: 0 <= k < |paths| ==> r.value[k].table + "/" + r.value[k].file == paths[k])
            && TrackerAfter(checkout, tracker) == Some(Tracker(checkout.revision, r.value, checkout.now)))
  {
    var paths := checkout.changedSince(tracker.value.gitHash);
    var r := ChangesToIndex(checkout, tracker);
    if r.Ok? {
      forall k | 0 <= k < |paths| ensures r.value[k].table + "/" + r.value[k].file == paths[k] {
        ChangeNamesPath(checkout, paths[k]);
      }
    }
  }

  /**
   * As written, a reported path whose file was deleted makes the run throw
   * before the tracker is written; the next run diffs from the same revision,
   * is told of the same deletion and throws again, so the tracker never moves.
   */
  lemma DeletedFileStallsTracker(checkout: Checkout, later: Checkout, tracker: Option<Tracker>, path: string)
    requires Incremental(tracker) && TablePath(path)
    requires path in checkout.changedSince(tracker.value.gitHash) && !FileReadable(checkout, path)
    requires path in later.changedSince(tracker.value.gitHash) && !FileReadable(later, path)
    ensures ChangesToIndex(checkout, tracker).Err? && TrackerAfter(checkout, tracker) == tracker
    ensures ChangesToIndex(later, TrackerAfter(checkout, tracker)).Err?
    ensures TrackerAfter(later, TrackerAfter(checkout, tracker)) == tracker
  {
    UnreadableFails(checkout, checkout.changedSince(tracker.value.gitHash), path);
    UnreadableFails(later, later.changedSince(tracker.value.gitHash), path);
  }

  /** One reported path whose file is gone makes `PathsChanges` fail. */
  lemma UnreadableFails(checkout: Checkout, paths: seq<string>, path: string)
    requires TablePath(path) && path in paths && !FileReadable(checkout, path)
    ensures PathsChanges(checkout, paths).Err?
  {
    var k :| 0 <= k < |paths| && paths[k] == path;
    assert !Changeable(checkout, paths[k]);
  }

  /** The reported paths without the table paths whose file is gone, in order. */
  function PresentPaths(checkout: Checkout, paths: seq<string>): (r: seq<string>)
    ensures forall p :: p in r <==> p in paths && (TablePath(p) ==> FileReadable(checkout, p))
  {
    if paths == [] then []
    else (if TablePath(paths[0]) && !FileReadable(checkout, paths[0]) then [] else [paths[0]]) + PresentPaths(checkout, paths[1..])
  }

  /**
   * The evidently intended loop: the change of a deleted file is skipped, its
   * rows left to the pruning of missing files, and only a path that is not a
   * table path throws.
   */
  function IntendedPathsChanges(checkout: Checkout, paths: seq<string>): Result<seq<ChangedFile>, string> {
    PathsChanges(checkout, PresentPaths(checkout, paths))
  }

  /**
   * With deleted files skipped, an incremental run over table paths succeeds,
   * reports exactly the changes of the files still there, and advances the
   * tracker to the current revision.
   */
  lemma IntendedRunAdvances(checkout: Checkout, tracker: Option<Tracker>, c: ChangedFile)
    requires Incremental(tracker) && checkout.changedSince(tracker.value.gitHash) != []
    requires forall k :: 0 <= k < |checkout.changedSince(tracker.value.gitHash)| ==> TablePath(checkout.changedSince(tracker.value.gitHash)[k])
    ensures var paths := checkout.changedSince(tracker.value.gitHash);
      var r := IntendedPathsChanges(checkout, paths);
      r.Ok?
      && (c in r.value <==> exists p :: p in paths && TablePath(p) && FileReadable(checkout, p) && c == ChangeOf(checkout, p))
      && TrackerAfterChanges(checkout, tracker, r) == Some(Tracker(checkout.revision, r.value, checkout.now))
  {
    var paths := checkout.changedSince(tracker.value.gitHash);
    var present := PresentPaths(checkout, paths);
    forall k | 0 <= k < |present| ensures Changeable(checkout, present[k]) {
      assert present[k] in present;
      var j :| 0 <= j < |paths| && paths[j] == present[k];
    }
    var r := IntendedPathsChanges(checkout, paths);
    if c in r.value {
      var k :| 0 <= k < |r.value| && r.value[k] == c;
      assert present[k] in present;
    }
    if exists p :: p in paths && TablePath(p) && FileReadable(checkout, p) && c == ChangeOf(checkout, p) {
      var p :| p in paths && TablePath(p) && FileReadable(checkout, p) && c == ChangeOf(checkout, p);
      assert p in present;
      var k :| 0 <= k < |present| && present[k] == p;
      assert r.value[k] == c;
    }
  }

  // ---------------------------------------------------------------------------
  // updateIndicies and updateFileNodes
  // ---------------------------------------------------------------------------

  /** The first current-version file index of a table file (`findOne` of the upsert), from `from` on. */
  function FindIndexFrom(indices: seq<FileIndex>, table: string, file: string, from: nat): (r: Option<nat>)
    decreases |indices| - from
    ensures r.Some? ==> from <= r.value < |indices| && IndexKey(indices[r.value]) == RowKey(table, file, IndexingVersion)
    ensures r.Some? ==> forall k :: from <= k < r.value ==> IndexKey(indices[k]) != RowKey(table, file, IndexingVersion)
    ensures r.None? ==> forall k :: from <= k < |indices| ==> IndexKey(indices[k]) != RowKey(table, file, IndexingVersion)
  {
    if from >= |indices| then None
    else if IndexKey(indices[from]) == RowKey(table, file, IndexingVersion) then Some(from)
    else FindIndexFrom(indices, table, file, from + 1)
  }

  function FindIndex(indices: seq<FileIndex>, table: string, file: string): Option<nat> {
    FindIndexFrom(indices, table, file, 0)
  }

  /** The fields the upsert sets, under the `_id` the row has or gets. */
  function IndexedFile(checkout: Checkout, change: ChangedFile, id: nat): FileIndex {
    FileIndex(id, change.table, change.file, FileIsData(change.file),
      checkout.gitHash(change.table, change.file), IndexingVersion,
      checkout.parse(change.table, change.file), checkout.sha256(change.table, change.file), checkout.now)
  }

  /** The nodes of the same table, file and version as the file index: what re-indexing it replaces. */
  function SameFile(fileIndex: FileIndex): RowKey -> bool {
    (k: RowKey) => k == IndexKey(fileIndex)
  }

  /** `updateFileNodes`: the file's old nodes are deleted, then its flattened tree is inserted; a wrong version throws after the deletion. */
  function NodesAfterUpdate(nodes: seq<FileNode>, fileIndex: FileIndex): seq<FileNode> {
    var kept := DeleteMany(nodes, NodeKey, SameFile(fileIndex));
    match FileNodesOf(fileIndex)
    case Ok(inserted) => kept + inserted
    case Err(_) => kept
  }

  /** `updateFileNodes` as written: it deletes the nodes whose `fileIndexId` is the index's `_id`. */
  function NodesAfterUpdateAsWritten(nodes: seq<FileNode>, fileIndex: FileIndex): seq<FileNode> {
    var kept := Filter(nodes, (n: FileNode) => n.fileIndexId != Some(fileIndex.id));
    match FileNodesOf(fileIndex)
    case Ok(inserted) => kept + inserted
    case Err(_) => kept
  }

  /** The file index the upsert of a change leaves: the existing row's `_id` or the next free one. */
  function UpsertedIndex(store: Store, checkout: Checkout, change: ChangedFile): FileIndex {
    match FindIndex(store.fileIndices, change.table, change.file)
    case Some(j) => IndexedFile(checkout, change, store.fileIndices[j].id)
    case None => IndexedFile(checkout, change, store.nextId)
  }

  /** `findOneAndUpdate` with `upsert`: the first matching row is replaced, or a row is appended. */
  function Upserted(store: Store, checkout: Checkout, change: ChangedFile): Store {
    var fileIndex := UpsertedIndex(store, checkout, change);
    match FindIndex(store.fileIndices, change.table, change.file)
    case Some(j) => store.(fileIndices := store.fileIndices[j := fileIndex])
    case None => store.(fileIndices := store.fileIndices + [fileIndex], nextId := store.nextId + 1)
  }

  /** One change: upsert its file index and, for a data file, replace its nodes. */
  function IndexChange(store: Store, checkout: Checkout, change: ChangedFile): Store {
    var upserted := Upserted(store, checkout, change);
    var fileIndex := UpsertedIndex(store, checkout, change);
    if fileIndex.data then upserted.(fileNodes := NodesAfterUpdate(upserted.fileNodes, fileIndex)) else upserted
  }

  /** The changes, one after another. */
  function IndexChanges(store: Store, checkout: Checkout, changes: seq<ChangedFile>): Store {
    if changes == [] then store
    else IndexChange(IndexChanges(store, checkout, changes[..|changes| - 1]), checkout, changes[|changes| - 1])
  }

  /** The nodes of one table file. */
  function OfFile(fileIndex: FileIndex): FileNode -> bool {
    (n: FileNode) => NodeKey(n) == IndexKey(fileIndex)
  }

  /** After `updateFileNodes` the store holds exactly the file's new nodes for it, and every node of any other file as before. */
  lemma ReindexReplacesNodes(nodes: seq<FileNode>, fileIndex: FileIndex)
    requires fileIndex.indexingVersion == IndexingVersion
    ensures Filter(NodesAfterUpdate(nodes, fileIndex), OfFile(fileIndex)) == Flatten(fileIndex, fileIndex.record, "root")
    ensures forall n :: NodeKey(n) != IndexKey(fileIndex) ==> (n in NodesAfterUpdate(nodes, fileIndex) <==> n in nodes)
  {
    var kept := DeleteMany(nodes, NodeKey, SameFile(fileIndex));
    var inserted := Flatten(fileIndex, fileIndex.record, "root");
    assert FileNodesOf(fileIndex) == Ok(inserted);
    FlattenedOfFile(fileIndex);
    FilterAppend(kept, inserted, OfFile(fileIndex));
    FilterNone(kept, OfFile(fileIndex));
    FilterAll(inserted, OfFile(fileIndex));
  }

  /** Every node of the flattened tree belongs to the file it was flattened from. */
  lemma FlattenedOfFile(fileIndex: FileIndex)
    ensures forall n :: n in Flatten(fileIndex, fileIndex.record, "root") ==> NodeKey(n) == IndexKey(fileIndex)
  {
    var inserted := Flatten(fileIndex, fileIndex.record, "root");
    forall n | n in inserted ensures NodeKey(n) == IndexKey(fileIndex) {
      var k :| 0 <= k < |inserted| && inserted[k] == n;
      assert FromIndex(inserted[k], fileIndex);
    }
  }

  /** Re-indexing with the same checkout changes nothing more. */
  lemma ReindexIdempotent(nodes: seq<FileNode>, fileIndex: FileIndex)
    requires fileIndex.indexingVersion == IndexingVersion
    ensures NodesAfterUpdate(NodesAfterUpdate(nodes, fileIndex), fileIndex) == NodesAfterUpdate(nodes, fileIndex)
  {
    var skeep := Survivors(NodeKey, SameFile(fileIndex));
    var kept := DeleteMany(nodes, NodeKey, SameFile(fileIndex));
    var inserted := Flatten(fileIndex, fileIndex.record, "root");
    assert FileNodesOf(fileIndex) == Ok(inserted);
    var once := kept + inserted;
    assert NodesAfterUpdate(nodes, fileIndex) == once;
    FilterAppend(kept, inserted, skeep);
    FilterAll(kept, skeep);
    FlattenedOfFile(fileIndex);
    FilterNone(inserted, skeep);
    assert DeleteMany(once, NodeKey, SameFile(fileIndex)) == kept;
  }

  /**
   * As written, `updateFileNodes` deletes nothing: the nodes it inserts carry
   * no `fileIndexId`, so the query by `_id` never matches, and a re-indexed file
   * keeps every node of its previous parse beside the new ones.
   */
  lemma AsWrittenKeepsStaleNodes(nodes: seq<FileNode>, fileIndex: FileIndex)
    requires fileIndex.indexingVersion == IndexingVersion
    requires forall n :: n in nodes ==> n.fileIndexId.None?
    ensures NodesAfterUpdateAsWritten(nodes, fileIndex) == nodes + Flatten(fileIndex, fileIndex.record, "root")
    ensures forall n :: n in NodesAfterUpdateAsWritten(nodes, fileIndex) ==> n.fileIndexId.None?
  {
    FilterAll(nodes, (n: FileNode) => n.fileIndexId != Some(fileIndex.id));
    var inserted := Flatten(fileIndex, fileIndex.record, "root");
    assert FileNodesOf(fileIndex) == Ok(inserted);
    forall n | n in inserted ensures n.fileIndexId.None? {
      var k :| 0 <= k < |inserted| && inserted[k] == n;
    }
  }

  /** The file of a one-cell table, parsed first with one value and then with another. */
  function LeafIndex(value: string): FileIndex {
    FileIndex(0, "people", "alice.md", true, "hash", IndexingVersion,
      Node("text", Some(value), None, []), "sha", 0)
  }

  /** Re-indexing "people/alice.md" after its text changed from "old" to "new": as written the "old" node stays; corrected only "new" remains. */
  lemma StaleNodeExample()
    ensures var first := LeafIndex("old");
      var second := LeafIndex("new");
      var stale := NewNode(first, first.record, "root");
      stale.value == Some("old")
      && stale in NodesAfterUpdateAsWritten(NodesAfterUpdateAsWritten([], first), second)
      && stale !in NodesAfterUpdate(NodesAfterUpdate([], first), second)
  {
    var first := LeafIndex("old");
    var second := LeafIndex("new");
    LeafFlattens(first, first.record, "root");
    LeafFlattens(second, second.record, "root");
    AsWrittenKeepsStaleNodes([], first);
    var once := NodesAfterUpdateAsWritten([], first);
    AsWrittenKeepsStaleNodes(once, second);
    var stale := NewNode(first, first.record, "root");
    var corrected := NodesAfterUpdate([], first);
    var kept := DeleteMany(corrected, NodeKey, SameFile(second));
    assert FileNodesOf(second) == Ok([NewNode(second, second.record, "root")]);
    assert NodesAfterUpdate(corrected, second) == kept + [NewNode(second, second.record, "root")];
    assert stale !in kept;
  }

  // ---------------------------------------------------------------------------
  // clearIndices and pruning
  // ---------------------------------------------------------------------------

  function Cleared(store: Store, table: Option<string>, file: Option<string>): Store {
    store.(fileIndices := DeleteMany(store.fileIndices, IndexKey, ClearQuery(table, file)),
           fileNodes := DeleteMany(store.fileNodes, NodeKey, ClearQuery(table, file)))
  }

  function PrunedTables(store: Store, tables: seq<string>): Store {
    store.(fileIndices := DeleteMany(store.fileIndices, IndexKey, MissingTable(tables)),
           fileNodes := DeleteMany(store.fileNodes, NodeKey, MissingTable(tables)))
  }

  function PrunedFiles(store: Store, tables: seq<string>, tableFiles: string -> seq<string>): Store {
    store.(fileIndices := DeleteMany(store.fileIndices, IndexKey, MissingFile(tables, tableFiles)),
           fileNodes := DeleteMany(store.fileNodes, NodeKey, MissingFile(tables, tableFiles)))
  }

  /** `clearIndices(table, file)` with both truthy removes that file's current rows and no other row. */
  lemma ClearFile(store: Store, table: string, file: string)
    requires table != [] && file != []
    ensures var after := Cleared(store, Some(table), Some(file));
      (forall r :: r in after.fileIndices <==> r in store.fileIndices && IndexKey(r) != RowKey(table, file, IndexingVersion))
      && (forall n :: n in after.fileNodes <==> n in store.fileNodes && NodeKey(n) != RowKey(table, file, IndexingVersion))
  {
  }

  /** With only the table truthy it removes the table's current rows and no other row. */
  lemma ClearTable(store: Store, table: string, file: Option<string>)
    requires table != [] && !Truthy(file)
    ensures var after := Cleared(store, Some(table), file);
      (forall r :: r in after.fileIndices <==> r in store.fileIndices && !(r.table == table && r.indexingVersion == IndexingVersion))
      && (forall n :: n in after.fileNodes <==> n in store.fileNodes && !(n.table == table && n.indexingVersion == IndexingVersion))
  {
  }

  /** Without a truthy table it removes every current row, whatever the file argument; rows of other versions stay. */
  lemma ClearAll(store: Store, table: Option<string>, file: Option<string>)
    requires !Truthy(table)
    ensures var after := Cleared(store, table, file);
      (forall r :: r in after.fileIndices <==> r in store.fileIndices && r.indexingVersion != IndexingVersion)
      && (forall n :: n in after.fileNodes <==> n in store.fileNodes && n.indexingVersion != IndexingVersion)
  {
  }

  // ---------------------------------------------------------------------------
  // determineChangesAndUpdateIncices
  // ---------------------------------------------------------------------------

  /** The store after a run: the tracker step, then on success the updates and both prunings. */
  function Run(store: Store, checkout: Checkout): Store {
    var tracked := store.(tracker := TrackerAfter(checkout, store.tracker));
    match ChangesToIndex(checkout, store.tracker)
    case Err(_) => tracked
    case Ok(changes) =>
      var updated := if |changes| == 0 then tracked else IndexChanges(tracked, checkout, changes);
      PrunedFiles(PrunedTables(updated, checkout.tables), checkout.tables, checkout.tableFiles)
  }

  /** What a run throws. */
  function RunError(store: Store, checkout: Checkout): Option<string> {
    match ChangesToIndex(checkout, store.tracker)
    case Err(e) => Some(e)
    case Ok(_) => None
  }

  /** After a successful run every current-version row belongs to a listed table and to one of that table's files. */
  lemma RunPrunes(store: Store, checkout: Checkout)
    requires RunError(store, checkout).None?
    ensures var after := Run(store, checkout);
      (forall r :: r in after.fileIndices && r.indexingVersion == IndexingVersion ==>
         r.table in checkout.tables && r.file in checkout.tableFiles(r.table))
      && (forall n :: n in after.fileNodes && n.indexingVersion == IndexingVersion ==>
         n.table in checkout.tables && n.file in checkout.tableFiles(n.table))
  {
  }

  /** One change touches only current-version rows. */
  lemma IndexChangeKeepsOtherVersions(store: Store, checkout: Checkout, change: ChangedFile)
    ensures var after := IndexChange(store, checkout, change);
      (forall r :: r in store.fileIndices && r.indexingVersion != IndexingVersion ==> r in after.fileIndices)
      && (forall n :: n in store.fileNodes && n.indexingVersion != IndexingVersion ==> n in after.fileNodes)
      && after.tracker == store.tracker
  {
    var after := IndexChange(store, checkout, change);
    match FindIndex(store.fileIndices, change.table, change.file)
    case Some(j) =>
      forall r | r in store.fileIndices && r.indexingVersion != IndexingVersion ensures r in after.fileIndices {
        var k :| 0 <= k < |store.fileIndices| && store.fileIndices[k] == r;
        assert k != j;
        assert after.fileIndices[k] == r;
      }
    case None =>
  }

  lemma {:induction false} IndexChangesKeepOtherVersions(store: Store, checkout: Checkout, changes: seq<ChangedFile>)
    ensures var after := IndexChanges(store, checkout, changes);
      (forall r :: r in store.fileIndices && r.indexingVersion != IndexingVersion ==> r in after.fileIndices)
      && (forall n :: n in store.fileNodes && n.indexingVersion != IndexingVersion ==> n in after.fileNodes)
      && after.tracker == store.tracker
  {
    if changes != [] {
      var prefix := changes[..|changes| - 1];
      IndexChangesKeepOtherVersions(store, checkout, prefix);
      IndexChangeKeepsOtherVersions(IndexChanges(store, checkout, prefix), checkout, changes[|changes| - 1]);
    }
  }

  /** A run leaves every row of another indexing version where it was. */
  lemma RunKeepsOtherVersions(store: Store, checkout: Checkout)
    ensures var after := Run(store, checkout);
      (forall r :: r in store.fileIndices && r.indexingVersion != IndexingVersion ==> r in after.fileIndices)
      && (forall n :: n in store.fileNodes && n.indexingVersion != IndexingVersion ==> n in after.fileNodes)
  {
    var tracked := store.(tracker := TrackerAfter(checkout, store.tracker));
    match ChangesToIndex(checkout, store.tracker)
    case Err(_) =>
    case Ok(changes) =>
      IndexChangesKeepOtherVersions(tracked, checkout, changes);
  }

  /** The file index of a change, as the upsert leaves it. */
  predicate IndexedAs(indices: seq<FileIndex>, checkout: Checkout, change: ChangedFile) {
    exists k :: 0 <= k < |indices| && indices[k] == IndexedFile(checkout, change, indices[k].id)
  }

  /** After one change its file index is in the store; earlier indexed changes stay indexed. */
  lemma IndexChangeIndexes(store: Store, checkout: Checkout, change: ChangedFile, earlier: ChangedFile)
    ensures IndexedAs(IndexChange(store, checkout, change).fileIndices, checkout, change)
    ensures IndexedAs(store.fileIndices, checkout, earlier) ==> IndexedAs(IndexChange(store, checkout, change).fileIndices, checkout, earlier)
  {
    var after := IndexChange(store, checkout, change).fileIndices;
    match FindIndex(store.fileIndices, change.table, change.file)
    case Some(j) =>
      assert after[j] == IndexedFile(checkout, change, after[j].id);
      if IndexedAs(store.fileIndices, checkout, earlier) {
        var k :| 0 <= k < |store.fileIndices| && store.fileIndices[k] == IndexedFile(checkout, earlier, store.fileIndices[k].id);
        if k == j {
          assert after[j] == IndexedFile(checkout, earlier, after[j].id);
        } else {
          assert after[k] == store.fileIndices[k];
        }
      }
    case None =>
      assert after[|after| - 1] == IndexedFile(checkout, change, after[|after| - 1].id);
      if IndexedAs(store.fileIndices, checkout, earlier) {
        var k :| 0 <= k < |store.fileIndices| && store.fileIndices[k] == IndexedFile(checkout, earlier, store.fileIndices[k].id);
        assert after[k] == store.fileIndices[k];
      }
  }

  lemma {:induction false} IndexChangesIndex(store: Store, checkout: Checkout, changes: seq<ChangedFile>, change: ChangedFile)
    requires change in changes
    ensures IndexedAs(IndexChanges(store, checkout, changes).fileIndices, checkout, change)
  {
    var n := |changes|;
    var prefix := changes[..n - 1];
    if change == changes[n - 1] {
      IndexChangeIndexes(IndexChanges(store, checkout, prefix), checkout, change, change);
    } else {
      assert change in prefix by {
        var k :| 0 <= k < n && changes[k] == change;
        assert prefix[k] == change;
      }
      IndexChangesIndex(store, checkout, prefix, change);
      IndexChangeIndexes(IndexChanges(store, checkout, prefix), checkout, changes[n - 1], change);
    }
  }

  /**
   * After a successful run every change of a listed table file has its file
   * index in the store, with the file's data flag, hashes, parse tree and the
   * run's time.
   */
  lemma RunIndexesChanges(store: Store, checkout: Checkout, change: ChangedFile)
    requires ChangesToIndex(checkout, store.tracker).Ok? && change in ChangesToIndex(checkout, store.tracker).value
    requires change.table in checkout.tables && change.file in checkout.tableFiles(change.table)
    ensures IndexedAs(Run(store, checkout).fileIndices, checkout, change)
  {
    var changes := ChangesToIndex(checkout, store.tracker).value;
    var tracked := store.(tracker := TrackerAfter(checkout, store.tracker));
    IndexChangesIndex(tracked, checkout, changes, change);
    var updated := IndexChanges(tracked, checkout, changes);
    assert |changes| != 0;
    var pruned := DeleteMany(updated.fileIndices, IndexKey, MissingTable(checkout.tables));
    var after := DeleteMany(pruned, IndexKey, MissingFile(checkout.tables, checkout.tableFiles));
    assert Run(store, checkout).fileIndices == after;
    var k :| 0 <= k < |updated.fileIndices| && updated.fileIndices[k] == IndexedFile(checkout, change, updated.fileIndices[k].id);
    var r := updated.fileIndices[k];
    assert r in pruned;
    assert r in after;
    var m :| 0 <= m < |after| && after[m] == r;
    assert after[m] == IndexedFile(checkout, change, after[m].id);
  }

  // ---------------------------------------------------------------------------
  // The index as a class over the store
  // ---------------------------------------------------------------------------

  /** `GitDBIndex` with its store. */
  class GitDbIndex {
    var tracker: Option<Tracker>
    var fileIndices: seq<FileIndex>
    var fileNodes: seq<FileNode>
    var nextId: nat

    function State(): Store
      reads this
    {
      Store(tracker, fileIndices, fileNodes, nextId)
    }

    /** An index over an existing store. */
    constructor(store: Store)
      ensures State() == store
    {
      tracker := store.tracker;
      fileIndices := store.fileIndices;
      fileNodes := store.fileNodes;
      nextId := store.nextId;
    }

    /** `clearIndices`. */
    method ClearIndices(table: Option<string>, file: Option<string>)
      modifies this
      ensures State() == Cleared(old(State()), table, file)
    {
      if Truthy(table) && Truthy(file) {
        fileIndices := DeleteMany(fileIndices, IndexKey, FileQuery(table.value, file.value));
        fileNodes := DeleteMany(fileNodes, NodeKey, FileQuery(table.value, file.value));
      } else if Truthy(table) {
        fileIndices := DeleteMany(fileIndices, IndexKey, TableQuery(table.value));
        fileNodes := DeleteMany(fileNodes, NodeKey, TableQuery(table.value));
      } else {
        fileIndices := DeleteMany(fileIndices, IndexKey, VersionQuery());
        fileNodes := DeleteMany(fileNodes, NodeKey, VersionQuery());
      }
    }

    /** `clearIndicesForMissingTables`, with the listed tables as `tables`. */
    method ClearIndicesForMissingTables(tables: seq<string>)
      modifies this
      ensures State() == PrunedTables(old(State()), tables)
    {
      fileIndices := DeleteMany(fileIndices, IndexKey, MissingTable(tables));
      fileNodes := DeleteMany(fileNodes, NodeKey, MissingTable(tables));
    }

    /** `clearIndicesForMissingFiles`: for each listed table, delete its rows of unlisted files. */
    method ClearIndicesForMissingFiles(tables: seq<string>, tableFiles: string -> seq<string>)
      modifies this
      ensures State() == PrunedFiles(old(State()), tables, tableFiles)
    {
      var indices, nodes := fileIndices, fileNodes;
      DeleteManyNothing(indices, IndexKey, MissingFile([], tableFiles));
      DeleteManyNothing(nodes, NodeKey, MissingFile([], tableFiles));
      var i := 0;
      while i < |tables|
        invariant 0 <= i <= |tables|
        invariant unchanged(this)
        invariant indices == DeleteMany(fileIndices, IndexKey, MissingFile(tables[..i], tableFiles))
        invariant nodes == DeleteMany(fileNodes, NodeKey, MissingFile(tables[..i], tableFiles))
      {
        var tableName := tables[i];
        var fileNames := tableFiles(tableName);
        PruneOneMore(fileIndices, IndexKey, tables, i, tableFiles);
        PruneOneMore(fileNodes, NodeKey, tables, i, tableFiles);
        indices := DeleteMany(indices, IndexKey, MissingFileOf(tableName, fileNames));
        nodes := DeleteMany(nodes, NodeKey, MissingFileOf(tableName, fileNames));
        i := i + 1;
      }
      assert tables[..i] == tables;
      fileIndices, fileNodes := indices, nodes;
    }

    /**
     * The body of that loop for one path: a path that splits into a table and a
     * file gives that file's change, unless reading the file to hash it fails.
     */
    static method ChangedGitFile(checkout: Checkout, changedGitFile: string) returns (change: Result<ChangedFile, string>)
      ensures change.Ok? <==> Changeable(checkout, changedGitFile)
      ensures change.Ok? ==> change.value == ChangeOf(checkout, changedGitFile)
      ensures change.Err? ==> change.error == PathError(checkout, changedGitFile)
    {
      var parts := Split(changedGitFile, '/');
      if |parts| != 2 {
        return Err(InvalidChange(changedGitFile));
      }
      var table := parts[0];
      var file := parts[1];
      if !checkout.readable(table, file) {
        return Err(ReadFailure(changedGitFile));
      }
      var fileSha256 := checkout.sha256(table, file);
      change := Ok(ChangedFile(table, file, checkout.gitHash(table, file), fileSha256));
    }

    /**
     * The loop of `determineChangedFiles` over the paths git reports: each is
     * split into a table and a file; the first that does not split in two, or
     * whose file cannot be read to hash it, throws.
     */
    static method ChangedGitFiles(checkout: Checkout, gitChangedFiles: seq<string>) returns (result: Result<seq<ChangedFile>, string>)
      ensures result == PathsChanges(checkout, gitChangedFiles)
    {
      var changedFiles: seq<ChangedFile> := [];
      var i := 0;
      while i < |gitChangedFiles|
        invariant 0 <= i <= |gitChangedFiles|
        invariant forall k :: 0 <= k < i ==> Changeable(checkout, gitChangedFiles[k])
        invariant |changedFiles| == i
        invariant forall k :: 0 <= k < i ==> changedFiles[k] == ChangeOf(checkout, gitChangedFiles[k])
      {
        var change := ChangedGitFile(checkout, gitChangedFiles[i]);
        if change.Err? {
          FirstInvalidPath(checkout, gitChangedFiles, i);
          return Err(change.error);
        }
        changedFiles := changedFiles + [change.value];
        i := i + 1;
      }
      SameChanges(checkout, gitChangedFiles, changedFiles);
      result := Ok(changedFiles);
    }

    /** `determineChangedFiles`: the changes to index; the tracker is written unless the diff was empty or a path was invalid. */
    method DetermineChangedFiles(checkout: Checkout) returns (result: Result<seq<ChangedFile>, string>)
      modifies this
      ensures result == ChangesToIndex(checkout, old(tracker))
      ensures State() == old(State()).(tracker := TrackerAfter(checkout, old(tracker)))
    {
      var lastIndexRecord := tracker;
      var changedFiles: seq<ChangedFile> := [];
      var noChanges := false;
      if lastIndexRecord.Some? && lastIndexRecord.value.gitHash != [] {
        var gitChangedFiles := checkout.changedSince(lastIndexRecord.value.gitHash);
        if |gitChangedFiles| == 0 {
          noChanges := true;
        } else {
          var found := ChangedGitFiles(checkout, gitChangedFiles);
          if found.Err? {
            return found;
          }
          changedFiles := found.value;
        }
      } else {
        changedFiles := GetAllFilesAsChangedFiles(checkout);
      }
      if !noChanges {
        tracker := Some(Tracker(checkout.revision, changedFiles, checkout.now));
      }
      result := Ok(changedFiles);
    }

    /** `updateFileNodes`, deleting the file's old nodes by table, file and version; the error is what converting throws. */
    method UpdateFileNodes(fileIndex: FileIndex) returns (error: Option<string>)
      modifies this
      ensures State() == old(State()).(fileNodes := NodesAfterUpdate(old(fileNodes), fileIndex))
      ensures error.Some? <==> FileNodesOf(fileIndex).Err?
    {
      fileNodes := DeleteMany(fileNodes, NodeKey, SameFile(fileIndex));
      var nodes := ConvertToIFileNodes(fileIndex);
      match nodes
      case Ok(inserted) =>
        fileNodes := fileNodes + inserted;
        error := None;
      case Err(e) =>
        error := Some(e);
    }

    /** The upsert of one change's file index. */
    method FindOneAndUpdate(checkout: Checkout, change: ChangedFile) returns (fileIndex: FileIndex)
      modifies this
      ensures State() == Upserted(old(State()), checkout, change)
      ensures fileIndex == UpsertedIndex(old(State()), checkout, change)
    {
      match FindIndex(fileIndices, change.table, change.file)
      case Some(j) =>
        fileIndex := IndexedFile(checkout, change, fileIndices[j].id);
        fileIndices := fileIndices[j := fileIndex];
      case None =>
        fileIndex := IndexedFile(checkout, change, nextId);
        fileIndices := fileIndices + [fileIndex];
        nextId := nextId + 1;
    }

    /** `updateIndicies`: upsert each change's file index, and replace the nodes of each data file. */
    method UpdateIndicies(checkout: Checkout, changedFiles: seq<ChangedFile>)
      modifies this
      ensures State() == IndexChanges(old(State()), checkout, changedFiles)
    {
      ghost var start := State();
      var i := 0;
      while i < |changedFiles|
        invariant 0 <= i <= |changedFiles|
        invariant State() == IndexChanges(start, checkout, changedFiles[..i])
      {
        var change := changedFiles[i];
        assert changedFiles[..i + 1][..i] == changedFiles[..i];
        ghost var before := State();
        var fileIndex := FindOneAndUpdate(checkout, change);
        if fileIndex.data {
          var _ := UpdateFileNodes(fileIndex);
        }
        assert State() == IndexChange(before, checkout, change);
        i := i + 1;
      }
      assert changedFiles[..i] == changedFiles;
    }

    /** `determineChangesAndUpdateIncices`: the error is what the run throws. */
    method DetermineChangesAndUpdateIncices(checkout: Checkout) returns (error: Option<string>)
      modifies this
      ensures State() == Run(old(State()), checkout)
      ensures error == RunError(old(State()), checkout)
    {
      var changes := DetermineChangedFiles(checkout);
      if changes.Err? {
        error := Some(changes.error);
        return;
      }
      if |changes.value| == 0 {
      } else {
        UpdateIndicies(checkout, changes.value);
      }
      ClearIndicesForMissingTables(checkout.tables);
      ClearIndicesForMissingFiles(checkout.tables, checkout.tableFiles);
      error := None;
    }
  }

  /** Deleting the unlisted files of one more table extends the combined deletion by that table. */
  lemma PruneOneMore<T(!new)>(rows: seq<T>, key: T -> RowKey, tables: seq<string>, i: nat, tableFiles: string -> seq<string>)
    requires i < |tables|
    ensures DeleteMany(DeleteMany(rows, key, MissingFile(tables[..i], tableFiles)), key, MissingFileOf(tables[i], tableFiles(tables[i])))
         == DeleteMany(rows, key, MissingFile(tables[..i + 1], tableFiles))
  {
    assert tables[..i + 1] == tables[..i] + [tables[i]];
    DeleteManyTwice(rows, key, MissingFile(tables[..i], tableFiles), MissingFileOf(tables[i], tableFiles(tables[i])), MissingFile(tables[..i + 1], tableFiles));
  }

  /** With a query that selects nothing a deletion keeps every row. */
  lemma DeleteManyNothing<T(!new)>(rows: seq<T>, key: T -> RowKey, query: RowKey -> bool)
    requires forall k: RowKey :: !query(k)
    ensures DeleteMany(rows, key, query) == rows
  {
    FilterAll(rows, Survivors(key, query));
  }
}
