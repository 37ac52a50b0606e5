/**
 * The records both indexers keep, the parsed markdown tree they store, and the
 * view of the checked-out database an index run reads: its tables and files,
 * the hashes and parse of each file, the changes git reports, the current
 * revision and the clock.
 */
module IndexRecords {
  import opened Wrappers
  import opened JsString

  /** `GitDBIndex.indexingVersion`. */
  const IndexingVersion := "0.0.0"

  /** A node of the parsed markdown tree: its type (`type`), an optional text value, an optional check-box state, its children. */
  datatype Node = Node(nodeType: string, value: Option<string>, checked: Option<bool>, children: seq<Node>)

  /** `IFileIndex`: one indexed file; `id` is the document's `_id`. */
  datatype FileIndex = FileIndex(
    id: nat, table: string, file: string, data: bool, gitHash: string,
    indexingVersion: string, record: Node, sha256: string, date: int)

  /** `IFileNode`: one flattened tree node; `fileIndexId` is the schema's optional `fileIndexId` field. */
  datatype FileNode = FileNode(
    fileIndexId: Option<nat>, table: string, file: string, path: string,
    value: Option<string>, indexingVersion: string, date: int)

  /** `IChangedFile`. */
  datatype ChangedFile = ChangedFile(table: string, file: string, gitHash: string, sha256: string)

  /** `IIndexTracker` of the current indexing version. */
  datatype Tracker = Tracker(gitHash: string, changes: seq<ChangedFile>, date: int)

  /**
   * What an index run reads from outside the store: the table listing and the
   * files of each table, whether a file can be read from the working tree, the
   * git blob hash, SHA-256 digest and parse tree of each file, the paths git
   * reports changed since a revision, the current revision and the time.
   */
  datatype Checkout = Checkout(
    tables: seq<string>,
    tableFiles: string -> seq<string>,
    gitHash: (string, string) -> string,
    readable: (string, string) -> bool,
    sha256: (string, string) -> string,
    parse: (string, string) -> Node,
    changedSince: string -> seq<string>,
    revision: string,
    now: int)

  /** JavaScript truthiness of an optional string argument: present and not "". */
  predicate Truthy(s: Option<string>) {
    s.Some? && s.value != []
  }

  /** `fileIsData`: templates and the read-me are not data. */
  function FileIsData(file: string): bool {
    !(file == "template.md" || file == "README.md" || EndsWith(file, ".template.md"))
  }

  /** Every name that is not data is the read-me or ends in "template.md". */
  lemma NotDataNames(file: string)
    requires !FileIsData(file)
    ensures file == "README.md" || EndsWith(file, "template.md")
  {
    if EndsWith(file, ".template.md") {
      assert file[|file| - 11..] == file[|file| - 12..][1..];
    }
  }

  /** A markdown name that does not end in "template.md" and is not the read-me is data. */
  lemma DataNames(file: string)
    requires file != "README.md" && !EndsWith(file, "template.md")
    ensures FileIsData(file)
  {
    if file == "template.md" || EndsWith(file, ".template.md") {
      NotDataNames(file);
    }
  }

  /** The files of one table as changed files, each with its hashes. */
  function TableChanges(checkout: Checkout, table: string, files: seq<string>): (changes: seq<ChangedFile>)
    ensures |changes| == |files|
    ensures forall k :: 0 <= k < |files| ==>
      changes[k] == ChangedFile(table, files[k], checkout.gitHash(table, files[k]), checkout.sha256(table, files[k]))
  {
    seq(|files|, k requires 0 <= k < |files| =>
      ChangedFile(table, files[k], checkout.gitHash(table, files[k]), checkout.sha256(table, files[k])))
  }

  /** The files of the tables, table by table, as changed files. */
  function TablesChanges(checkout: Checkout, tables: seq<string>): seq<ChangedFile> {
    if tables == [] then []
    else TableChanges(checkout, tables[0], checkout.tableFiles(tables[0])) + TablesChanges(checkout, tables[1..])
  }

  lemma {:induction false} TablesChangesAppend(checkout: Checkout, tables: seq<string>, table: string)
    ensures TablesChanges(checkout, tables + [table])
         == TablesChanges(checkout, tables) + TableChanges(checkout, table, checkout.tableFiles(table))
  {
    if tables == [] {
      assert [] + [table] == [table];
    } else {
      assert (tables + [table])[1..] == tables[1..] + [table];
      TablesChangesAppend(checkout, tables[1..], table);
    }
  }

  /** A changed file is listed exactly when its table is listed, its file is in that table, and its hashes are the file's. */
  lemma {:induction false} TablesChangesMembers(checkout: Checkout, tables: seq<string>, c: ChangedFile)
    ensures c in TablesChanges(checkout, tables) <==>
      c.table in tables && c.file in checkout.tableFiles(c.table)
      && c.gitHash == checkout.gitHash(c.table, c.file) && c.sha256 == checkout.sha256(c.table, c.file)
  {
    if tables != [] {
      TablesChangesMembers(checkout, tables[1..], c);
      var files := checkout.tableFiles(tables[0]);
      var block := TableChanges(checkout, tables[0], files);
      if c in block {
        var k :| 0 <= k < |block| && block[k] == c;
        assert c.file == files[k];
      }
      if c.table == tables[0] && c.file in files
         && c.gitHash == checkout.gitHash(c.table, c.file) && c.sha256 == checkout.sha256(c.table, c.file) {
        var k :| 0 <= k < |files| && files[k] == c.file;
        assert block[k] == c;
      }
      assert tables == [tables[0]] + tables[1..];
    }
  }

  /** `getAllFilesAsChangedFiles`: every file of every table, in listing order. */
  method GetAllFilesAsChangedFiles(checkout: Checkout) returns (changedFiles: seq<ChangedFile>)
    ensures changedFiles == TablesChanges(checkout, checkout.tables)
  {
    var tables := checkout.tables;
    changedFiles := [];
    var i := 0;
    while i < |tables|
      invariant 0 <= i <= |tables|
      invariant changedFiles == TablesChanges(checkout, tables[..i])
    {
      var table := tables[i];
      var tableFiles := checkout.tableFiles(table);
      var j := 0;
      while j < |tableFiles|
        invariant 0 <= j <= |tableFiles|
        invariant changedFiles == TablesChanges(checkout, tables[..i]) + TableChanges(checkout, table, tableFiles[..j])
      {
        var file := tableFiles[j];
        assert TableChanges(checkout, table, tableFiles[..j + 1])
            == TableChanges(checkout, table, tableFiles[..j]) + [ChangedFile(table, file, checkout.gitHash(table, file), checkout.sha256(table, file))];
        changedFiles := changedFiles + [ChangedFile(table, file, checkout.gitHash(table, file), checkout.sha256(table, file))];
        j := j + 1;
      }
      assert tableFiles[..j] == tableFiles;
      TablesChangesAppend(checkout, tables[..i], table);
      assert tables[..i + 1] == tables[..i] + [table];
      i := i + 1;
    }
    assert tables[..i] == tables;
  }
}
