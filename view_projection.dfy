/**
 * The read side of `src/database/gitdb-index.ts`: the node records of a table
 * grouped by file (`getAggregateForTableByFile`), re-keyed from node paths to
 * column names (`buildViewFromViewRootAndAggregates`), and condensed into a
 * header row and one row per file (`condenseViewResponse`). The view root here
 * is the flat path-to-column object `src/database/gitdb.ts` reads.
 */
module ViewProjection {
  import opened Wrappers
  import opened JsString
  import opened Seqs
  import opened JsObject
  import opened IndexRecords

  /** A JavaScript object from strings to strings, in key order. */
  type StringMap = seq<(string, string)>

  /** An object from file names to the string objects of those files. */
  type FileMap = seq<(string, StringMap)>

  // ---------------------------------------------------------------------------
  // getAggregateForTableByFile
  // ---------------------------------------------------------------------------

  /** The query: current-version nodes of the table, on one of the paths, with a value. */
  predicate Selected(n: FileNode, table: string, paths: seq<string>) {
    n.table == table && n.path in paths && n.indexingVersion == IndexingVersion && n.value.Some?
  }

  /** The nodes the query finds, ordered by file name under the store's string order `fileOrder`. */
  function AggregateQuery(fileNodes: seq<FileNode>, table: string, paths: seq<string>, fileOrder: (string, string) -> int): (aggregates: seq<FileNode>)
    ensures forall n :: n in aggregates <==> n in fileNodes && Selected(n, table, paths)
    ensures AllValued(aggregates)
  {
    var found := Filter(fileNodes, (n: FileNode) => Selected(n, table, paths));
    var byFile := (x: FileNode, y: FileNode) => fileOrder(x.file, y.file);
    var sorted := SortBy(found, byFile);
    SortByMultiset(found, byFile);
    assert forall n :: n in sorted <==> n in found by {
      forall n ensures n in sorted <==> n in found {
        assert n in sorted <==> n in multiset(sorted);
        assert n in found <==> n in multiset(found);
      }
    }
    assert forall k :: 0 <= k < |sorted| ==> sorted[k] in sorted;
    sorted
  }

  /** `aggregatesByFile[file] ??= {}; aggregatesByFile[file][path] = value.trim()`. */
  function AddAggregate(byFile: FileMap, file: string, path: string, value: string): FileMap {
    Set(byFile, file, Set(Get(byFile, file).GetOr([]), path, Trim(value)))
  }

  /** Every node the query returns has a value. */
  predicate AllValued(aggregates: seq<FileNode>) {
    forall k :: 0 <= k < |aggregates| ==> aggregates[k].value.Some?
  }

  /** The grouping of a sequence of nodes, one node after another. */
  function Grouped(aggregates: seq<FileNode>): FileMap
    requires AllValued(aggregates)
  {
    if aggregates == [] then []
    else
      var a := aggregates[|aggregates| - 1];
      AddAggregate(Grouped(aggregates[..|aggregates| - 1]), a.file, a.path, a.value.value)
  }

  /** The trimmed value of the last node for that file and path. */
  function LastValue(aggregates: seq<FileNode>, file: string, path: string): Option<string>
    requires AllValued(aggregates)
  {
    if aggregates == [] then None
    else
      var a := aggregates[|aggregates| - 1];
      if a.file == file && a.path == path then Some(Trim(a.value.value))
      else LastValue(aggregates[..|aggregates| - 1], file, path)
  }

  /** Some node belongs to `file`. */
  predicate SomeNodeOf(aggregates: seq<FileNode>, file: string) {
    exists k :: 0 <= k < |aggregates| && aggregates[k].file == file
  }

  lemma SomeNodeOfLast(aggregates: seq<FileNode>, file: string)
    requires aggregates != []
    ensures SomeNodeOf(aggregates, file)
        <==> aggregates[|aggregates| - 1].file == file || SomeNodeOf(aggregates[..|aggregates| - 1], file)
  {
    var n := |aggregates|;
    var prefix := aggregates[..n - 1];
    if SomeNodeOf(aggregates, file) && aggregates[n - 1].file != file {
      var k :| 0 <= k < n && aggregates[k].file == file;
      assert prefix[k].file == file;
    }
    if SomeNodeOf(prefix, file) {
      var k :| 0 <= k < n - 1 && prefix[k].file == file;
      assert aggregates[k].file == file;
    }
  }

  /** The grouping lists no file twice. */
  lemma {:induction false} GroupedUnique(aggregates: seq<FileNode>)
    requires AllValued(aggregates)
    ensures UniqueKeys(Grouped(aggregates))
  {
    if aggregates != [] {
      var n := |aggregates|;
      var a := aggregates[n - 1];
      var before := Grouped(aggregates[..n - 1]);
      GroupedUnique(aggregates[..n - 1]);
      SetUnique(before, a.file, Set(Get(before, a.file).GetOr([]), a.path, Trim(a.value.value)));
    }
  }

  /** The grouping lists exactly the files of the nodes. */
  lemma {:induction false} GroupedFiles(aggregates: seq<FileNode>, file: string)
    requires AllValued(aggregates)
    ensures HasKey(Grouped(aggregates), file) <==> SomeNodeOf(aggregates, file)
  {
    if aggregates != [] {
      var n := |aggregates|;
      var a := aggregates[n - 1];
      var before := Grouped(aggregates[..n - 1]);
      GroupedFiles(aggregates[..n - 1], file);
      SetGet(before, a.file, Set(Get(before, a.file).GetOr([]), a.path, Trim(a.value.value)), file);
      SomeNodeOfLast(aggregates, file);
    }
  }

  /** Under each file and path the grouping holds the last such node's trimmed value. */
  lemma {:induction false} GroupedValue(aggregates: seq<FileNode>, file: string, path: string)
    requires AllValued(aggregates)
    ensures Get(Get(Grouped(aggregates), file).GetOr([]), path) == LastValue(aggregates, file, path)
  {
    if aggregates != [] {
      var n := |aggregates|;
      var a := aggregates[n - 1];
      var before := Grouped(aggregates[..n - 1]);
      GroupedValue(aggregates[..n - 1], file, path);
      var row := Get(before, a.file).GetOr([]);
      SetGet(before, a.file, Set(row, a.path, Trim(a.value.value)), file);
      SetGet(row, a.path, Trim(a.value.value), path);
    }
  }

  /** The two steps of the loop body: create the file's object when missing, then set the path. */
  lemma AddInTwoSteps(byFile: FileMap, file: string, path: string, value: string)
    ensures var created := if Get(byFile, file).None? then Set(byFile, file, []) else byFile;
      Set(created, file, Set(Get(created, file).GetOr([]), path, Trim(value))) == AddAggregate(byFile, file, path, value)
  {
    if Get(byFile, file).None? {
      SetGet(byFile, file, [], file);
      SetTwice(byFile, file, [], Set([], path, Trim(value)));
    }
  }

  /** The grouping loop of `getAggregateForTableByFile`. */
  method GetAggregateForTableByFile(aggregates: seq<FileNode>) returns (aggregatesByFile: FileMap)
    requires AllValued(aggregates)
    ensures aggregatesByFile == Grouped(aggregates)
  {
    aggregatesByFile := [];
    var i := 0;
    while i < |aggregates|
      invariant 0 <= i <= |aggregates|
      invariant aggregatesByFile == Grouped(aggregates[..i])
    {
      var aggregate := aggregates[i];
      ghost var before := aggregatesByFile;
      assert aggregates[..i + 1][..i] == aggregates[..i];
      assert Grouped(aggregates[..i + 1]) == AddAggregate(before, aggregate.file, aggregate.path, aggregate.value.value);
      AddInTwoSteps(before, aggregate.file, aggregate.path, aggregate.value.value);
      if Get(aggregatesByFile, aggregate.file).None? {
        aggregatesByFile := Set(aggregatesByFile, aggregate.file, []);
      }
      var row := Get(aggregatesByFile, aggregate.file).GetOr([]);
      aggregatesByFile := Set(aggregatesByFile, aggregate.file, Set(row, aggregate.path, Trim(aggregate.value.value)));
      i := i + 1;
    }
    assert aggregates[..i] == aggregates;
  }

  /** Setting a key twice leaves the second value where the first one went. */
  lemma {:induction false} SetTwice<V>(o: seq<(string, V)>, key: string, first: V, second: V)
    ensures Set(Set(o, key, first), key, second) == Set(o, key, second)
  {
    if o != [] && o[0].0 != key {
      SetTwice(o[1..], key, first, second);
      assert Set(o, key, first)[1..] == Set(o[1..], key, first);
    }
  }

  // ---------------------------------------------------------------------------
  // buildViewFromViewRootAndAggregates
  // ---------------------------------------------------------------------------

  /** `viewRoot[path]` used as a key: a path with no column gives the key "undefined". */
  function ColumnOf(viewRoot: StringMap, path: string): string {
    Get(viewRoot, path).GetOr("undefined")
  }

  /** One file's values re-keyed by column, path after path. */
  function BuildRow(viewRoot: StringMap, values: StringMap): StringMap {
    if values == [] then []
    else
      var last := values[|values| - 1];
      Set(BuildRow(viewRoot, values[..|values| - 1]), ColumnOf(viewRoot, last.0), last.1)
  }

  /** Every file's row, file after file. */
  function BuildView(viewRoot: StringMap, viewData: FileMap): FileMap {
    if viewData == [] then []
    else
      var last := viewData[|viewData| - 1];
      Set(BuildView(viewRoot, viewData[..|viewData| - 1]), last.0, BuildRow(viewRoot, last.1))
  }

  /** `buildViewFromViewRootAndAggregates`. */
  method BuildViewFromViewRootAndAggregates(viewRoot: StringMap, viewData: FileMap) returns (viewResponse: FileMap)
    ensures viewResponse == BuildView(viewRoot, viewData)
  {
    viewResponse := [];
    var i := 0;
    while i < |viewData|
      invariant 0 <= i <= |viewData|
      invariant viewResponse == BuildView(viewRoot, viewData[..i])
    {
      var (file, values) := viewData[i];
      var row: StringMap := [];
      var j := 0;
      while j < |values|
        invariant 0 <= j <= |values|
        invariant row == BuildRow(viewRoot, values[..j])
      {
        var (path, value) := values[j];
        var columnName := ColumnOf(viewRoot, path);
        assert values[..j + 1][..j] == values[..j];
        row := Set(row, columnName, value);
        j := j + 1;
      }
      assert values[..j] == values;
      assert viewData[..i + 1][..i] == viewData[..i];
      viewResponse := Set(viewResponse, file, row);
      i := i + 1;
    }
    assert viewData[..i] == viewData;
  }

  /** The view lists the same files as the data, in the same order. */
  lemma {:induction false} BuildViewFiles(viewRoot: StringMap, viewData: FileMap)
    requires UniqueKeys(viewData)
    ensures Keys(BuildView(viewRoot, viewData)) == Keys(viewData)
    ensures UniqueKeys(BuildView(viewRoot, viewData))
  {
    if viewData != [] {
      var n := |viewData|;
      var prefix := viewData[..n - 1];
      assert UniqueKeys(prefix);
      BuildViewFiles(viewRoot, prefix);
      var before := BuildView(viewRoot, prefix);
      var last := viewData[n - 1];
      assert !HasKey(before, last.0) by {
        forall k | 0 <= k < |before| ensures before[k].0 != last.0 {
          assert Keys(before)[k] == Keys(prefix)[k];
          assert prefix[k] == viewData[k];
        }
      }
      SetKeys(before, last.0, BuildRow(viewRoot, last.1));
      SetUnique(before, last.0, BuildRow(viewRoot, last.1));
      assert Keys(viewData) == Keys(prefix) + [last.0];
    }
  }

  /** The row of a file in the view is the row built from that file's values. */
  lemma {:induction false} BuildViewGet(viewRoot: StringMap, viewData: FileMap, file: string)
    ensures Get(BuildView(viewRoot, viewData), file)
         == match Get(viewData, file) { case None => None case Some(values) => Some(BuildRow(viewRoot, LastRow(viewData, file))) }
  {
    if viewData != [] {
      var prefix := viewData[..|viewData| - 1];
      var last := viewData[|viewData| - 1];
      var before := BuildView(viewRoot, prefix);
      assert BuildView(viewRoot, viewData) == Set(before, last.0, BuildRow(viewRoot, last.1));
      BuildViewGet(viewRoot, prefix, file);
      SetGet(before, last.0, BuildRow(viewRoot, last.1), file);
      GetPrefix(viewData, file);
      if last.0 == file {
        assert LastRow(viewData, file) == last.1;
      } else {
        assert LastRow(viewData, file) == LastRow(prefix, file);
      }
    }
  }

  /** The values of the last entry for a file (a JavaScript object holds only that one). */
  function LastRow(viewData: FileMap, file: string): StringMap {
    if viewData == [] then []
    else if viewData[|viewData| - 1].0 == file then viewData[|viewData| - 1].1
    else LastRow(viewData[..|viewData| - 1], file)
  }

  /** Whether a key is present does not depend on which entry for it is read. */
  lemma GetPrefix<V>(o: seq<(string, V)>, key: string)
    requires o != []
    ensures Get(o, key).Some? <==> (o[|o| - 1].0 == key || Get(o[..|o| - 1], key).Some?)
  {
    var p := o[..|o| - 1];
    if HasKey(o, key) && o[|o| - 1].0 != key {
      var k :| 0 <= k < |o| && o[k].0 == key;
      assert p[k].0 == key;
    }
    if HasKey(p, key) {
      var k :| 0 <= k < |p| && p[k].0 == key;
      assert o[k].0 == key;
    }
  }

  /** Distinct paths of the view root name distinct columns, and none is named "undefined". */
  predicate DistinctColumns(viewRoot: StringMap) {
    UniqueKeys(viewRoot)
    && (forall a, b :: 0 <= a < b < |viewRoot| ==> viewRoot[a].1 != viewRoot[b].1)
    && (forall a :: 0 <= a < |viewRoot| ==> viewRoot[a].1 != "undefined")
  }

  /** With distinct columns, the column of a view-root path holds the value the file had on that path. */
  lemma {:induction false} BuildRowColumn(viewRoot: StringMap, values: StringMap, j: nat)
    requires DistinctColumns(viewRoot) && j < |viewRoot|
    ensures Get(BuildRow(viewRoot, values), viewRoot[j].1) == LastValueOn(values, viewRoot[j].0)
  {
    if values != [] {
      var n := |values|;
      var last := values[n - 1];
      BuildRowColumn(viewRoot, values[..n - 1], j);
      SetGet(BuildRow(viewRoot, values[..n - 1]), ColumnOf(viewRoot, last.0), last.1, viewRoot[j].1);
      ColumnOfIs(viewRoot, last.0, j);
    }
  }

  /** The last value a row lists for a key. */
  function LastValueOn(values: StringMap, key: string): Option<string> {
    if values == [] then None
    else if values[|values| - 1].0 == key then Some(values[|values| - 1].1)
    else LastValueOn(values[..|values| - 1], key)
  }

  /** A path has the column of view-root entry `j` exactly when it is that entry's path. */
  lemma ColumnOfIs(viewRoot: StringMap, path: string, j: nat)
    requires DistinctColumns(viewRoot) && j < |viewRoot|
    ensures ColumnOf(viewRoot, path) == viewRoot[j].1 <==> path == viewRoot[j].0
  {
    GetListed(viewRoot, j);
    var r := Get(viewRoot, path);
    if r.Some? {
      var i :| 0 <= i < |viewRoot| && viewRoot[i] == (path, r.value) && forall k :: 0 <= k < i ==> viewRoot[k].0 != path;
      if i != j {
        assert viewRoot[i].1 != viewRoot[j].1 by {
          if i < j {} else {}
        }
      }
    }
  }

  // ---------------------------------------------------------------------------
  // condenseViewResponse
  // ---------------------------------------------------------------------------

  /** `viewResponse[file][column] ?? ''` for every column of the header. */
  function CondensedRow(headerRow: seq<string>, cells: StringMap): (row: seq<string>)
    ensures |row| == |headerRow|
    ensures forall j :: 0 <= j < |headerRow| ==> row[j] == Get(cells, headerRow[j]).GetOr("")
  {
    seq(|headerRow|, j requires 0 <= j < |headerRow| => Get(cells, headerRow[j]).GetOr(""))
  }

  /** `condenseViewResponse`: the column names, then one row per file of the response. */
  method CondenseViewResponse(viewRoot: StringMap, viewResponse: FileMap) returns (rows: seq<seq<string>>)
    ensures |rows| == |viewResponse| + 1 && rows[0] == Values(viewRoot)
    ensures forall i :: 1 <= i < |rows| ==> |rows[i]| == |viewRoot|
    ensures forall i :: 1 <= i < |rows| ==>
      rows[i] == CondensedRow(Values(viewRoot), Get(viewResponse, viewResponse[i - 1].0).GetOr([]))
  {
    var headerRow := Values(viewRoot);
    rows := [headerRow];
    var files := Keys(viewResponse);
    var i := 0;
    while i < |files|
      invariant 0 <= i <= |files|
      invariant |rows| == i + 1 && rows[0] == headerRow
      invariant forall k :: 1 <= k < |rows| ==> rows[k] == CondensedRow(headerRow, Get(viewResponse, files[k - 1]).GetOr([]))
    {
      var cells := Get(viewResponse, files[i]).GetOr([]);
      var row: seq<string> := [];
      var j := 0;
      while j < |headerRow|
        invariant 0 <= j <= |headerRow| && |row| == j
        invariant forall c :: 0 <= c < j ==> row[c] == Get(cells, headerRow[c]).GetOr("")
      {
        row := row + [Get(cells, headerRow[j]).GetOr("")];
        j := j + 1;
      }
      assert row == CondensedRow(headerRow, cells);
      rows := rows + [row];
      i := i + 1;
    }
  }

  /**
   * The condensed view of a table: with distinct columns and one entry per file,
   * the cell of file `i` under column `j` is the last value the file had on the
   * view-root path of that column, or "".
   */
  lemma CondensedCell(viewRoot: StringMap, viewData: FileMap, i: nat, j: nat)
    requires DistinctColumns(viewRoot) && UniqueKeys(viewData)
    requires i < |viewData| && j < |viewRoot|
    ensures var response := BuildView(viewRoot, viewData);
      |response| == |viewData| && response[i].0 == viewData[i].0
      && CondensedRow(Values(viewRoot), Get(response, response[i].0).GetOr([]))[j]
         == LastValueOn(viewData[i].1, viewRoot[j].0).GetOr("")
  {
    var response := BuildView(viewRoot, viewData);
    BuildViewFiles(viewRoot, viewData);
    assert Keys(response)[i] == Keys(viewData)[i];
    var file := viewData[i].0;
    BuildViewGet(viewRoot, viewData, file);
    GetListed(viewData, i);
    LastRowListed(viewData, i);
    BuildRowColumn(viewRoot, viewData[i].1, j);
  }

  /** In a unique-keyed object the last entry of a listed key is its only entry. */
  lemma {:induction false} LastRowListed(viewData: FileMap, i: nat)
    requires UniqueKeys(viewData) && i < |viewData|
    ensures LastRow(viewData, viewData[i].0) == viewData[i].1
  {
    var n := |viewData|;
    if i < n - 1 {
      assert viewData[n - 1].0 != viewData[i].0;
      var prefix := viewData[..n - 1];
      assert UniqueKeys(prefix);
      LastRowListed(prefix, i);
    }
  }

  /** In a unique-keyed row the last value listed for a key is the value the key reads. */
  lemma {:induction false} LastValueOnUnique(values: StringMap, key: string)
    requires UniqueKeys(values)
    ensures LastValueOn(values, key) == Get(values, key)
  {
    if values != [] {
      var n := |values|;
      var prefix := values[..n - 1];
      assert values == prefix + [values[n - 1]];
      if values[n - 1].0 == key {
        GetListed(values, n - 1);
      } else {
        assert UniqueKeys(prefix);
        LastValueOnUnique(prefix, key);
        GetAppendOther(prefix, values[n - 1], key);
      }
    }
  }

  /** The object of each file in the grouping lists no path twice. */
  lemma {:induction false} GroupedRowsUnique(aggregates: seq<FileNode>)
    requires AllValued(aggregates)
    ensures forall e :: e in Grouped(aggregates) ==> UniqueKeys(e.1)
  {
    if aggregates != [] {
      var n := |aggregates|;
      var a := aggregates[n - 1];
      var before := Grouped(aggregates[..n - 1]);
      GroupedRowsUnique(aggregates[..n - 1]);
      var row := Get(before, a.file).GetOr([]);
      assert UniqueKeys(row) by {
        if Get(before, a.file).Some? {
          var k :| 0 <= k < |before| && before[k] == (a.file, row) && forall j :: 0 <= j < k ==> before[j].0 != a.file;
          assert before[k] in before;
        }
      }
      SetUnique(row, a.path, Trim(a.value.value));
      SetEntries(before, a.file, Set(row, a.path, Trim(a.value.value)));
    }
  }

  /**
   * `getCondensedView` end to end: with distinct columns and the view-root paths
   * as the queried paths, the cell of the `i`-th file under column `j` is the
   * trimmed value of the last node the query returned for that file and the path
   * of column `j`, or "" when there is none.
   */
  lemma CondensedViewCell(fileNodes: seq<FileNode>, table: string, viewRoot: StringMap,
                          fileOrder: (string, string) -> int, i: nat, j: nat)
    requires DistinctColumns(viewRoot) && j < |viewRoot|
    requires i < |Grouped(AggregateQuery(fileNodes, table, Keys(viewRoot), fileOrder))|
    ensures var aggregates := AggregateQuery(fileNodes, table, Keys(viewRoot), fileOrder);
      var viewData := Grouped(aggregates);
      var response := BuildView(viewRoot, viewData);
      i < |response|
      && CondensedRow(Values(viewRoot), Get(response, response[i].0).GetOr([]))[j]
         == LastValue(aggregates, viewData[i].0, viewRoot[j].0).GetOr("")
  {
    var aggregates := AggregateQuery(fileNodes, table, Keys(viewRoot), fileOrder);
    var viewData := Grouped(aggregates);
    GroupedUnique(aggregates);
    CondensedCell(viewRoot, viewData, i, j);
    GroupedRowsUnique(aggregates);
    assert viewData[i] in viewData;
    LastValueOnUnique(viewData[i].1, viewRoot[j].0);
    GetListed(viewData, i);
    GroupedValue(aggregates, viewData[i].0, viewRoot[j].0);
  }
}
