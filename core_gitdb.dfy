/**
 * The on-disk side of `src/core/gitdb.ts`: the `alphaSort` comparator that
 * orders the files of a table (markers, embedded dates, the last number, then
 * the locale order), the sort of record collections by one column, the file and
 * table listing rules, and the default view root.
 */
module CoreGitDb {
  import opened Wrappers
  import opened JsString
  import opened Seqs
  import opened JsObject

  const TopMarker := "_top.md"
  const BottomMarker := "_bottom.md"

  /**
   * What the comparator takes from its host: `moment(text, ['YYYY-MM-DD',
   * 'MM-DD-YYYY'])` as the instant (in milliseconds) of a valid date or `None`,
   * and `String.prototype.localeCompare`.
   */
  datatype Host = Host(parseDate: string -> Option<int>, localeCompare: (string, string) -> int)

  // ---------------------------------------------------------------------------
  // `/(\d{4}-\d{2}-\d{2})|(\d{2}-\d{2}-\d{4})/`
  // ---------------------------------------------------------------------------

  predicate DigitsAt(s: string, i: nat, n: nat) {
    i + n <= |s| && forall k :: i <= k < i + n ==> IsDigit(s[k])
  }

  /** `\d{4}-\d{2}-\d{2}` at position `i`. */
  predicate IsoDateAt(s: string, i: nat) {
    i + 10 <= |s| && DigitsAt(s, i, 4) && s[i + 4] == '-' && DigitsAt(s, i + 5, 2) && s[i + 7] == '-' && DigitsAt(s, i + 8, 2)
  }

  /** `\d{2}-\d{2}-\d{4}` at position `i`. */
  predicate UsDateAt(s: string, i: nat) {
    i + 10 <= |s| && DigitsAt(s, i, 2) && s[i + 2] == '-' && DigitsAt(s, i + 3, 2) && s[i + 5] == '-' && DigitsAt(s, i + 6, 4)
  }

  /** Either alternative matches at `i`; both are ten characters long. */
  predicate DateAt(s: string, i: nat) {
    IsoDateAt(s, i) || UsDateAt(s, i)
  }

  /** The leftmost match of the date pattern at or after `from`. */
  function FindDateFrom(s: string, from: nat): (r: Option<nat>)
    ensures r.Some? ==> from <= r.value && r.value + 10 <= |s| && DateAt(s, r.value)
    ensures r.Some? ==> forall j: nat :: from <= j < r.value ==> !DateAt(s, j)
    ensures r.None? ==> forall j: nat :: from <= j ==> !DateAt(s, j)
    decreases |s| - from
  {
    if from + 10 > |s| then None
    else if DateAt(s, from) then Some(from)
    else FindDateFrom(s, from + 1)
  }

  /** `extractDate`: the instant of the first date text, when there is one and the host reads it as valid. */
  function DateInstant(s: string, host: Host): Option<int> {
    match FindDateFrom(s, 0)
    case None => None
    case Some(i) => host.parseDate(s[i..i + 10])
  }

  /** `s.replace(datePattern, '')`: the first date text removed. */
  function RemoveFirstDate(s: string): (r: string)
    ensures FindDateFrom(s, 0).None? ==> r == s
  {
    match FindDateFrom(s, 0)
    case None => s
    case Some(i) => s[..i] + s[i + 10..]
  }

  // ---------------------------------------------------------------------------
  // `/\d+(?!.*\d)/`: a digit run with no digit after it on the same line
  // ---------------------------------------------------------------------------

  /** The end of the digit run that starts at `i`. */
  function RunEnd(s: string, i: nat): (j: nat)
    requires i <= |s|
    ensures i <= j <= |s| && (j == |s| || !IsDigit(s[j]))
    ensures forall k :: i <= k < j ==> IsDigit(s[k])
    decreases |s| - i
  {
    if i < |s| && IsDigit(s[i]) then RunEnd(s, i + 1) else i
  }

  /** `.*\d` matches at `j`: a digit follows before the end of the line (`.` stops at line terminators). */
  predicate DigitAheadOnLine(s: string, j: nat)
    decreases |s| - j
  {
    j < |s| && !IsLineTerminator(s[j]) && (IsDigit(s[j]) || DigitAheadOnLine(s, j + 1))
  }

  /** The pattern matches at `i`: a greedy digit run whose end is not followed by a digit on its line. */
  predicate LastNumberAt(s: string, i: nat) {
    i < |s| && IsDigit(s[i]) && !DigitAheadOnLine(s, RunEnd(s, i))
  }

  /** The leftmost match of the last-number pattern at or after `from`. */
  function FindLastNumberFrom(s: string, from: nat): (r: Option<nat>)
    ensures r.Some? ==> from <= r.value && LastNumberAt(s, r.value)
    ensures r.Some? ==> forall j: nat :: from <= j < r.value ==> !LastNumberAt(s, j)
    ensures r.None? ==> forall j: nat :: from <= j ==> !LastNumberAt(s, j)
    decreases |s| - from
  {
    if from >= |s| then None
    else if LastNumberAt(s, from) then Some(from)
    else FindLastNumberFrom(s, from + 1)
  }

  /** `extractLastNumber`: `parseInt` of the matched digit run. */
  function LastNumber(s: string): Option<nat> {
    match FindLastNumberFrom(s, 0)
    case None => None
    case Some(i) => Some(DigitsValue(s[i..RunEnd(s, i)]))
  }

  // ---------------------------------------------------------------------------
  // `alphaSort`
  // ---------------------------------------------------------------------------

  /**
   * `GitDB.alphaSort`: `_top.md` first and `_bottom.md` last; then two valid and
   * different dates in chronological order; then two different last numbers
   * (after the first date is removed) by their difference; then the locale order.
   */
  function AlphaSort(a: string, b: string, host: Host): (r: int)
    ensures a == TopMarker ==> r == -1
    ensures a != TopMarker && b == TopMarker ==> r == 1
    ensures a != TopMarker && b != TopMarker && a == BottomMarker ==> r == 1
    ensures a != TopMarker && a != BottomMarker && b == BottomMarker ==> r == -1
    ensures a == b && a != TopMarker && a != BottomMarker ==> r == host.localeCompare(a, a)
  {
    if a == TopMarker then -1
    else if b == TopMarker then 1
    else if a == BottomMarker then 1
    else if b == BottomMarker then -1
    else
      var aDate := DateInstant(a, host);
      var bDate := DateInstant(b, host);
      if aDate.Some? && bDate.Some? && aDate.value - bDate.value != 0 then
        (if aDate.value - bDate.value < 0 then -1 else 1)
      else
        var aNumber := LastNumber(RemoveFirstDate(a));
        var bNumber := LastNumber(RemoveFirstDate(b));
        if aNumber.Some? && bNumber.Some? && aNumber.value != bNumber.value then aNumber.value - bNumber.value
        else host.localeCompare(a, b)
  }

  /** Two names whose first dates the host reads as different instants are in chronological order. */
  lemma DatesDecide(a: string, b: string, host: Host, ta: int, tb: int)
    requires a != TopMarker && a != BottomMarker && b != TopMarker && b != BottomMarker
    requires DateInstant(a, host) == Some(ta) && DateInstant(b, host) == Some(tb) && ta != tb
    ensures AlphaSort(a, b, host) == if ta < tb then -1 else 1
  {
  }

  /** Digits occur in `s` exactly at the positions `lo` to `hi`. */
  predicate OneDigitRun(s: string, lo: nat, hi: nat) {
    lo < hi <= |s| && forall k :: 0 <= k < |s| ==> (IsDigit(s[k]) <==> lo <= k < hi)
  }

  /** Both date patterns need a dash between two digits, which a single digit run cannot give. */
  lemma OneDigitRunNoDate(s: string, lo: nat, hi: nat)
    requires OneDigitRun(s, lo, hi)
    ensures FindDateFrom(s, 0).None?
  {
    forall j: nat ensures !DateAt(s, j) {
      if j + 10 <= |s| && IsDigit(s[j + 3]) && IsDigit(s[j + 5]) {
        assert IsDigit(s[j + 4]);
      }
      if j + 10 <= |s| && IsDigit(s[j + 1]) && IsDigit(s[j + 3]) {
        assert IsDigit(s[j + 2]);
      }
    }
  }

  lemma {:induction false} NoDigitAhead(s: string, j: nat)
    requires forall k :: j <= k < |s| ==> !IsDigit(s[k])
    ensures !DigitAheadOnLine(s, j)
    decreases |s| - j
  {
    if j < |s| {
      NoDigitAhead(s, j + 1);
    }
  }

  /** With a single digit run, the last number is that run. */
  lemma OneDigitRunNumber(s: string, lo: nat, hi: nat)
    requires OneDigitRun(s, lo, hi)
    ensures LastNumber(s) == Some(DigitsValue(s[lo..hi]))
  {
    assert RunEnd(s, lo) == hi by {
      RunEndOfRun(s, lo, hi);
    }
    NoDigitAhead(s, hi);
    assert LastNumberAt(s, lo);
    assert FindLastNumberFrom(s, 0) == Some(lo) by {
      forall j: nat | j < lo ensures !LastNumberAt(s, j) { }
      FindLastNumberFirst(s, 0, lo);
    }
  }

  lemma {:induction false} RunEndOfRun(s: string, i: nat, hi: nat)
    requires i <= hi <= |s| && (hi == |s| || !IsDigit(s[hi]))
    requires forall k :: i <= k < hi ==> IsDigit(s[k])
    ensures RunEnd(s, i) == hi
    decreases hi - i
  {
    if i < hi {
      RunEndOfRun(s, i + 1, hi);
    }
  }

  /** The search returns the first matching position. */
  lemma {:induction false} FindLastNumberFirst(s: string, from: nat, i: nat)
    requires from <= i && LastNumberAt(s, i)
    requires forall j: nat :: from <= j < i ==> !LastNumberAt(s, j)
    ensures FindLastNumberFrom(s, from) == Some(i)
    decreases i - from
  {
    if from < i {
      FindLastNumberFirst(s, from + 1, i);
    }
  }

  /** Without dates in either name, two different last numbers decide by their difference. */
  lemma NumbersDecide(a: string, b: string, host: Host, x: nat, y: nat)
    requires a != TopMarker && a != BottomMarker && b != TopMarker && b != BottomMarker
    requires FindDateFrom(a, 0).None? && FindDateFrom(b, 0).None?
    requires LastNumber(a) == Some(x) && LastNumber(b) == Some(y)
    ensures AlphaSort(a, b, host) == if x != y then x - y else host.localeCompare(a, b)
  {
  }

  /** A name with a digit in it is neither marker. */
  lemma DigitNotMarker(s: string, k: nat)
    requires k < |s| && IsDigit(s[k])
    ensures s != TopMarker && s != BottomMarker
  {
    if s == TopMarker || s == BottomMarker {
      MarkersHaveNoDigits();
    }
  }

  /**
   * Names that differ only in one embedded number (with no other digit in them)
   * compare by that number: "file1" before "file10", "file2" before "file10";
   * equal numbers fall back to the locale order.
   */
  lemma NumberedNames(p: string, d1: string, d2: string, q: string, host: Host)
    requires forall k :: 0 <= k < |p| ==> !IsDigit(p[k])
    requires forall k :: 0 <= k < |q| ==> !IsDigit(q[k])
    requires d1 != [] && d2 != [] && AllDigits(d1) && AllDigits(d2)
    ensures AlphaSort(p + d1 + q, p + d2 + q, host)
         == if DigitsValue(d1) != DigitsValue(d2) then DigitsValue(d1) - DigitsValue(d2)
            else host.localeCompare(p + d1 + q, p + d2 + q)
  {
    var a := p + d1 + q;
    var b := p + d2 + q;
    NumberedName(p, d1, q);
    NumberedName(p, d2, q);
    NumbersDecide(a, b, host, DigitsValue(d1), DigitsValue(d2));
  }

  /** One embedded number: no date, not a marker, and the number is the last number. */
  lemma NumberedName(p: string, d: string, q: string)
    requires forall k :: 0 <= k < |p| ==> !IsDigit(p[k])
    requires forall k :: 0 <= k < |q| ==> !IsDigit(q[k])
    requires d != [] && AllDigits(d)
    ensures var s := p + d + q; s != TopMarker && s != BottomMarker
    ensures FindDateFrom(p + d + q, 0).None? && LastNumber(p + d + q) == Some(DigitsValue(d))
  {
    var s := p + d + q;
    OneDigitRunOf(p, d, q);
    OneDigitRunNoDate(s, |p|, |p| + |d|);
    OneDigitRunNumber(s, |p|, |p| + |d|);
    assert s[|p|..|p| + |d|] == d;
    DigitNotMarker(s, |p|);
  }

  lemma OneDigitRunOf(p: string, d: string, q: string)
    requires forall k :: 0 <= k < |p| ==> !IsDigit(p[k])
    requires forall k :: 0 <= k < |q| ==> !IsDigit(q[k])
    requires d != [] && AllDigits(d)
    ensures OneDigitRun(p + d + q, |p|, |p| + |d|)
  {
    var s := p + d + q;
    forall k | 0 <= k < |s| ensures IsDigit(s[k]) <==> |p| <= k < |p| + |d| {
      if k < |p| { assert s[k] == p[k]; }
      else if k < |p| + |d| { assert s[k] == d[k - |p|]; }
      else { assert s[k] == q[k - |p| - |d|]; }
    }
  }

  lemma MarkersHaveNoDigits()
    ensures forall k :: 0 <= k < |TopMarker| ==> !IsDigit(TopMarker[k])
    ensures forall k :: 0 <= k < |BottomMarker| ==> !IsDigit(BottomMarker[k])
  {
  }

  /** The numeric order, not the character order, decides between "file2" and "file10". */
  lemma FileTwoBeforeFileTen(host: Host)
    ensures AlphaSort("file2", "file10", host) < 0 && AlphaSort("file10", "file2", host) > 0
  {
    var p := "file";
    assert forall k :: 0 <= k < |p| ==> !IsDigit(p[k]);
    assert DigitsValue("2") == 2 && DigitsValue("10") == 10;
    NumberedNames(p, "2", "10", "", host);
    NumberedNames(p, "10", "2", "", host);
    assert "file2" == p + "2" + "" && "file10" == p + "10" + "";
  }

  // ---------------------------------------------------------------------------
  // Sorting by the comparator
  // ---------------------------------------------------------------------------

  /** The comparator on the text `key` gives each element. */
  function Compare<T>(key: T -> string, host: Host): (T, T) -> int {
    (x: T, y: T) => AlphaSort(key(x), key(y), host)
  }

  /** An element keyed `_top.md` goes to the front of any sorted sequence it is inserted into. */
  lemma InsertTop<T>(x: T, s: seq<T>, key: T -> string, host: Host)
    requires key(x) == TopMarker
    ensures Insert(x, s, Compare(key, host))[0] == x
  {
  }

  /** Inserting an element not keyed `_top.md` keeps a `_top.md` front. */
  lemma InsertKeepsTop<T>(x: T, s: seq<T>, key: T -> string, host: Host)
    requires s != [] && key(s[0]) == TopMarker
    ensures key(Insert(x, s, Compare(key, host))[0]) == TopMarker
  {
  }

  /** When some element is keyed `_top.md`, the sort puts one such element first. */
  lemma {:induction false} SortedTopFirst<T>(s: seq<T>, key: T -> string, host: Host)
    requires exists i :: 0 <= i < |s| && key(s[i]) == TopMarker
    ensures key(SortBy(s, Compare(key, host))[0]) == TopMarker
  {
    var cmp := Compare(key, host);
    var rest := SortBy(s[1..], cmp);
    if key(s[0]) == TopMarker {
      InsertTop(s[0], rest, key, host);
    } else {
      var i :| 0 <= i < |s| && key(s[i]) == TopMarker;
      assert s[1..][i - 1] == s[i];
      SortedTopFirst(s[1..], key, host);
      InsertKeepsTop(s[0], rest, key, host);
    }
  }

  /** An element keyed `_bottom.md` sorts after every element it meets: it is inserted last. */
  lemma {:induction false} InsertBottom<T>(x: T, s: seq<T>, key: T -> string, host: Host)
    requires key(x) == BottomMarker
    ensures Insert(x, s, Compare(key, host)) == s + [x]
  {
    if s != [] {
      var cmp := Compare(key, host);
      assert cmp(x, s[0]) == 1;
      InsertBottom(x, s[1..], key, host);
      ConsAppend(s, x);
    }
  }

  /** Inserting an element not keyed `_bottom.md` keeps a `_bottom.md` end. */
  lemma InsertKeepsBottom<T>(x: T, s: seq<T>, key: T -> string, host: Host)
    requires s != [] && key(s[|s| - 1]) == BottomMarker && key(x) != BottomMarker
    ensures var r := Insert(x, s, Compare(key, host)); r != [] && key(r[|r| - 1]) == BottomMarker
  {
    var cmp := Compare(key, host);
    assert cmp(x, s[|s| - 1]) == AlphaSort(key(x), key(s[|s| - 1]), host) == -1;
    InsertBeforeLast(x, s, cmp);
  }

  /** When some element is keyed `_bottom.md`, the sort puts one such element last. */
  lemma {:induction false} SortedBottomLast<T>(s: seq<T>, key: T -> string, host: Host)
    requires exists i :: 0 <= i < |s| && key(s[i]) == BottomMarker
    ensures var r := SortBy(s, Compare(key, host)); r != [] && key(r[|r| - 1]) == BottomMarker
  {
    var cmp := Compare(key, host);
    var rest := SortBy(s[1..], cmp);
    var r := SortBy(s, cmp);
    assert r == Insert(s[0], rest, cmp);
    if key(s[0]) == BottomMarker {
      InsertBottom(s[0], rest, key, host);
      assert r[|r| - 1] == s[0];
    } else {
      var i :| 0 <= i < |s| && key(s[i]) == BottomMarker;
      assert s[1..][i - 1] == s[i];
      SortedBottomLast(s[1..], key, host);
      InsertKeepsBottom(s[0], rest, key, host);
    }
  }

  /** A record of a collection: its fields by name, each already in its `String(...)` form. */
  type Record = map<string, string>

  /** `String(item[columnName])`: a missing field reads as "undefined". */
  function ColumnText(columnName: string): Record -> string {
    (item: Record) => if columnName in item then item[columnName] else "undefined"
  }

  /** `collectionSort`: the collection sorted in place by `alphaSort` on one column. */
  method CollectionSort(collection: array<Record>, columnName: string, host: Host)
    modifies collection
    ensures collection[..] == SortBy(old(collection[..]), Compare(ColumnText(columnName), host))
  {
    var sorted := SortBy(collection[..], Compare(ColumnText(columnName), host));
    forall i | 0 <= i < collection.Length {
      collection[i] := sorted[i];
    }
  }

  // ---------------------------------------------------------------------------
  // Listings
  // ---------------------------------------------------------------------------

  function NameKey(name: string): string {
    name
  }

  /** The entries `getTableFiles` returns: not hidden, not a directory, a markdown file. */
  predicate IsTableFile(file: string, isDirectory: string -> bool) {
    !StartsWith(file, ".") && !isDirectory(file) && EndsWith(file, ".md")
  }

  /** Both markers are visible markdown file names. */
  lemma MarkersAreMarkdown()
    ensures !StartsWith(TopMarker, ".") && EndsWith(TopMarker, ".md")
    ensures !StartsWith(BottomMarker, ".") && EndsWith(BottomMarker, ".md")
  {
    assert TopMarker[..1] == "_" && TopMarker[|TopMarker| - 3..] == ".md";
    assert BottomMarker[..1] == "_" && BottomMarker[|BottomMarker| - 3..] == ".md";
  }

  /** The files of a table in the order `getTableFiles` returns them. */
  function TableFiles(files: seq<string>, isDirectory: string -> bool, host: Host): seq<string> {
    Filter(SortBy(files, Compare(NameKey, host)), (f: string) => IsTableFile(f, isDirectory))
  }

  /** `getTableFiles`: the directory listing sorted by `alphaSort`, then filtered while it is walked. */
  method GetTableFiles(files: seq<string>, isDirectory: string -> bool, host: Host) returns (returnedFiles: seq<string>)
    ensures returnedFiles == TableFiles(files, isDirectory, host)
  {
    var sorted := SortBy(files, Compare(NameKey, host));
    returnedFiles := WalkListing(sorted, isDirectory);
  }

  /** The walk of `getTableFiles` over the sorted listing: hidden entries, directories and other files are skipped. */
  method WalkListing(sorted: seq<string>, isDirectory: string -> bool) returns (returnedFiles: seq<string>)
    ensures returnedFiles == Filter(sorted, (f: string) => IsTableFile(f, isDirectory))
  {
    var keep := (f: string) => IsTableFile(f, isDirectory);
    returnedFiles := [];
    var i := 0;
    while i < |sorted|
      invariant 0 <= i <= |sorted|
      invariant returnedFiles == Filter(sorted[..i], keep)
    {
      var file := sorted[i];
      FilterAppend(sorted[..i], [file], keep);
      assert sorted[..i + 1] == sorted[..i] + [file];
      if StartsWith(file, ".") {
      } else if isDirectory(file) {
      } else if EndsWith(file, ".md") {
        returnedFiles := returnedFiles + [file];
      }
      i := i + 1;
    }
    assert sorted[..|sorted|] == sorted;
  }

  /** A file is listed exactly when it is in the directory and is a visible markdown file. */
  lemma TableFilesMembers(files: seq<string>, isDirectory: string -> bool, host: Host, f: string)
    ensures f in TableFiles(files, isDirectory, host) <==> f in files && IsTableFile(f, isDirectory)
  {
    var sorted := SortBy(files, Compare(NameKey, host));
    SortByMultiset(files, Compare(NameKey, host));
    assert f in sorted <==> f in files by {
      assert f in sorted <==> f in multiset(sorted);
      assert f in files <==> f in multiset(files);
    }
  }

  /** `_top.md`, when the table has it, is the first file listed. */
  lemma TopFileFirst(files: seq<string>, isDirectory: string -> bool, host: Host)
    requires TopMarker in files && !isDirectory(TopMarker)
    ensures TableFiles(files, isDirectory, host) != [] && TableFiles(files, isDirectory, host)[0] == TopMarker
  {
    var sorted := SortBy(files, Compare(NameKey, host));
    SortedTopFirst(files, NameKey, host);
    assert sorted != [] && sorted[0] == TopMarker;
    MarkersAreMarkdown();
    assert sorted == [sorted[0]] + sorted[1..];
  }

  /** `_bottom.md`, when the table has it, is the last file listed. */
  lemma BottomFileLast(files: seq<string>, isDirectory: string -> bool, host: Host)
    requires BottomMarker in files && !isDirectory(BottomMarker)
    ensures var r := TableFiles(files, isDirectory, host); r != [] && r[|r| - 1] == BottomMarker
  {
    var sorted := SortBy(files, Compare(NameKey, host));
    SortedBottomLast(files, NameKey, host);
    assert sorted[|sorted| - 1] == BottomMarker;
    MarkersAreMarkdown();
    FilterLast(sorted, (f: string) => IsTableFile(f, isDirectory));
  }

  /** `getTables`: the visible directories of the database, in `localeCompare` order. */
  function GetTables(entries: seq<string>, isDirectory: string -> bool, host: Host): (tables: seq<string>)
    ensures forall t :: t in tables <==> t in entries && isDirectory(t) && !StartsWith(t, ".")
    ensures IsSubsequence(tables, SortBy(entries, host.localeCompare))
  {
    var sorted := SortBy(entries, host.localeCompare);
    var keep := (t: string) => isDirectory(t) && !StartsWith(t, ".");
    FilterIsSubsequence(sorted, keep);
    SortByMultiset(entries, host.localeCompare);
    assert forall t :: t in sorted <==> t in entries by {
      forall t ensures t in sorted <==> t in entries {
        assert t in sorted <==> t in multiset(sorted);
        assert t in entries <==> t in multiset(entries);
      }
    }
    Filter(sorted, keep)
  }

  // ---------------------------------------------------------------------------
  // View roots
  // ---------------------------------------------------------------------------

  /** `IViewRoot`: a version, its options, and the node paths mapped to column names. */
  datatype ViewRoot = ViewRoot(version: int, includeFileName: Option<bool>, columns: seq<(string, string)>)

  const DefaultViewRoot := ViewRoot(2, Some(true), [])

  /**
   * `getViewJson`: the parsed `view.json` of a table, or the default root when the
   * file is absent or `parsed` is `None` (the parse threw).
   */
  function GetViewJson(hasViewJson: bool, parsed: Option<ViewRoot>): (root: ViewRoot)
    ensures !hasViewJson || parsed.None? ==> root == DefaultViewRoot
    ensures hasViewJson && parsed.Some? ==> root == parsed.value
  {
    if !hasViewJson then DefaultViewRoot
    else match parsed
      case None => DefaultViewRoot
      case Some(viewJson) => viewJson
  }

  /** `getViewPathsFromViewRoot`: the node paths of the columns, in order. */
  function GetViewPathsFromViewRoot(viewRoot: ViewRoot): (paths: seq<string>)
    ensures |paths| == |viewRoot.columns|
    ensures forall i :: 0 <= i < |paths| ==> paths[i] == viewRoot.columns[i].0
  {
    Keys(viewRoot.columns)
  }

  /** A table without a readable view has no view paths, and so no columns. */
  lemma DefaultViewHasNoPaths(hasViewJson: bool, parsed: Option<ViewRoot>)
    requires !hasViewJson || parsed.None?
    ensures GetViewPathsFromViewRoot(GetViewJson(hasViewJson, parsed)) == []
  {
  }
}
