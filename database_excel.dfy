/**
 * The older spreadsheet exporter of `src/database/excel.ts`: a fixed table of
 * fifteen `{{KEY±o}}` keys for offsets up to 2, replaced by a string pattern
 * (so only in their first occurrence), and the same cell classification as the
 * newer exporter with the header counted as row 0.
 */
module DatabaseExcel {
  import opened Wrappers
  import opened JsString
  import opened Formula
  import opened TokenTables
  import opened Sheet

  /** The offset of the `i`-th key of a block of five: 0, -1, +1, -2, +2. */
  function FiveOffset(i: nat): int {
    if i == 0 then 0 else if i % 2 == 1 then 0 - (i + 1) / 2 else i / 2
  }

  /** The three blocks of the literal, in its key order: current row, row count, current column. */
  function FiveName(blk: nat): string {
    if blk == 0 then RowName else if blk == 1 then CountName else ColumnName
  }

  function FiveBase(r: int, c: int, n: int, blk: nat): int {
    if blk == 0 then r else if blk == 1 then n else c
  }

  /** Key `i` of the literal stands for the number its base plus its offset. */
  function DbBinding(r: int, c: int, n: int, i: nat): Binding {
    Binding(FiveName(i / 5), FiveOffset(i % 5), IntToString(FiveBase(r, c, n, i / 5) + FiveOffset(i % 5)))
  }

  /** The fifteen keys of `getVariables` as bindings. */
  function Bindings(r: int, c: int, n: int): (bs: seq<Binding>)
    ensures |bs| == 15 && WellFormed(bs) && Distinct(bs)
  {
    var bs := seq(15, i requires 0 <= i < 15 => DbBinding(r, c, n, i));
    BindingsWellFormed(r, c, n, bs);
    BindingsDistinct(bs);
    bs
  }

  lemma BindingsWellFormed(r: int, c: int, n: int, bs: seq<Binding>)
    requires |bs| == 15 && forall i :: 0 <= i < 15 ==> bs[i] == DbBinding(r, c, n, i)
    ensures WellFormed(bs)
  {
    forall i | 0 <= i < 15 ensures IsName(bs[i].name) && '{' !in bs[i].value {
      IntToStringBraceFree(FiveBase(r, c, n, i / 5) + FiveOffset(i % 5));
    }
  }

  lemma BindingsDistinct(bs: seq<Binding>)
    requires |bs| == 15 && forall i :: 0 <= i < 15 ==> bs[i].name == FiveName(i / 5) && bs[i].offset == FiveOffset(i % 5)
    ensures Distinct(bs)
  {
    NameFacts();
    forall i, j | 0 <= i < j < 15 ensures bs[i].name != bs[j].name || bs[i].offset != bs[j].offset {
      if i / 5 == j / 5 {
        assert i % 5 != j % 5;
      } else {
        assert FiveName(i / 5) != FiveName(j / 5);
      }
    }
  }

  /**
   * `getVariables`: the object literal of fifteen keys, in its key order, each
   * with the text of its number.
   */
  function GetVariables(r: int, c: int, n: int): (vars: seq<(string, string)>)
    ensures |vars| == 15 && KeysAreTokens(vars)
  {
    Entries(Bindings(r, c, n))
  }

  lemma OffsetTexts()
    ensures OffsetText(0) == "" && OffsetText(-1) == "-1" && OffsetText(1) == "+1"
    ensures OffsetText(-2) == "-2" && OffsetText(2) == "+2"
  {
    assert NatToString(1) == "1" && NatToString(2) == "2";
  }

  /** The key texts of the current-row block, as tokens. */
  lemma RowKeyTexts()
    ensures Token(RowName, 0) == "{{CURRENT_ROW}}" && Token(RowName, -1) == "{{CURRENT_ROW-1}}"
    ensures Token(RowName, 1) == "{{CURRENT_ROW+1}}" && Token(RowName, -2) == "{{CURRENT_ROW-2}}"
    ensures Token(RowName, 2) == "{{CURRENT_ROW+2}}"
  {
    OffsetTexts();
  }

  /** The key texts that open the row-count block and open and close the current-column block, as tokens. */
  lemma BlockKeyTexts()
    ensures Token(CountName, 0) == "{{ROW_COUNT}}" && Token(ColumnName, 0) == "{{CURRENT_COLUMN}}"
    ensures Token(ColumnName, 2) == "{{CURRENT_COLUMN+2}}"
  {
    OffsetTexts();
  }

  /** Entry `5 * blk + p` of the literal: the key of block `blk` at offset position `p`. */
  lemma BlockEntry(r: int, c: int, n: int, blk: nat, p: nat)
    requires blk < 3 && p < 5
    ensures GetVariables(r, c, n)[5 * blk + p]
         == (Token(FiveName(blk), FiveOffset(p)), IntToString(FiveBase(r, c, n, blk) + FiveOffset(p)))
  {
    var i := 5 * blk + p;
    assert i / 5 == blk && i % 5 == p;
    assert Bindings(r, c, n)[i] == DbBinding(r, c, n, i);
  }

  /** The first three keys of the current-row block, as the literal writes them, in its order. */
  lemma RowKeysFirst(r: int, c: int, n: int)
    ensures GetVariables(r, c, n)[0] == ("{{CURRENT_ROW}}", IntToString(r))
    ensures GetVariables(r, c, n)[1] == ("{{CURRENT_ROW-1}}", IntToString(r - 1))
    ensures GetVariables(r, c, n)[2] == ("{{CURRENT_ROW+1}}", IntToString(r + 1))
  {
    RowKeyTexts();
    assert FiveOffset(1) == -1 && FiveOffset(2) == 1;
    BlockEntry(r, c, n, 0, 0);
    BlockEntry(r, c, n, 0, 1);
    BlockEntry(r, c, n, 0, 2);
  }

  /** The last two keys of the current-row block, as the literal writes them, in its order. */
  lemma RowKeysLast(r: int, c: int, n: int)
    ensures GetVariables(r, c, n)[3] == ("{{CURRENT_ROW-2}}", IntToString(r - 2))
    ensures GetVariables(r, c, n)[4] == ("{{CURRENT_ROW+2}}", IntToString(r + 2))
  {
    RowKeyTexts();
    assert FiveOffset(3) == -2 && FiveOffset(4) == 2;
    BlockEntry(r, c, n, 0, 3);
    BlockEntry(r, c, n, 0, 4);
  }

  /** The row-count block follows, then the current-column block. */
  lemma BlockOrder(r: int, c: int, n: int)
    ensures GetVariables(r, c, n)[5] == ("{{ROW_COUNT}}", IntToString(n))
    ensures GetVariables(r, c, n)[10] == ("{{CURRENT_COLUMN}}", IntToString(c))
    ensures GetVariables(r, c, n)[14] == ("{{CURRENT_COLUMN+2}}", IntToString(c + 2))
  {
    BlockKeyTexts();
    assert FiveOffset(4) == 2;
    BlockEntry(r, c, n, 1, 0);
    BlockEntry(r, c, n, 2, 0);
    BlockEntry(r, c, n, 2, 4);
  }

  /** The keys of the literal are fifteen different texts. */
  lemma KeysDistinct(r: int, c: int, n: int)
    ensures forall i, j :: 0 <= i < j < 15 ==> GetVariables(r, c, n)[i].0 != GetVariables(r, c, n)[j].0
  {
    EntriesDistinct(Bindings(r, c, n));
  }

  /** `performSubstitutions` as a function: every key replaced in its first occurrence, in key order. */
  function Substitute(formula: string, r: int, c: int, n: int): string {
    ApplyFirst(formula, GetVariables(r, c, n))
  }

  /** `performSubstitutions`: one string `replace` per key. */
  method PerformSubstitutions(formula: string, currentRowIndex: int, currentColumnIndex: int, rowCount: int)
    returns (result: string)
    ensures result == Substitute(formula, currentRowIndex, currentColumnIndex, rowCount)
  {
    var variables := GetVariables(currentRowIndex, currentColumnIndex, rowCount);
    result := formula;
    var i := 0;
    while i < |variables|
      invariant 0 <= i <= |variables|
      invariant ApplyFirst(result, variables[i..]) == ApplyFirst(formula, variables)
    {
      assert variables[i..][1..] == variables[i + 1..];
      result := ReplaceFirst(result, variables[i].0, variables[i].1);
      i := i + 1;
    }
  }

  /** The name of a key of the literal is one of its three. */
  predicate IsTableName(name: string) {
    name == RowName || name == CountName || name == ColumnName
  }

  function BlockOf(name: string): nat {
    if name == RowName then 0 else if name == CountName then 1 else 2
  }

  function PositionOf(k: int): nat
    requires -2 <= k <= 2
  {
    if k == 0 then 0 else if k < 0 then 0 - 2 * k - 1 else 2 * k
  }

  /** The number the key `{{name±k}}` stands for. */
  function KeyValue(r: int, c: int, n: int, name: string, k: int): int {
    if name == RowName then r + k else if name == CountName then n + k else c + k
  }

  lemma BoundAt(r: int, c: int, n: int, name: string, k: int)
    requires IsTableName(name) && -2 <= k <= 2
    ensures Binds(Bindings(r, c, n), name, k, 5 * BlockOf(name) + PositionOf(k))
    ensures Bindings(r, c, n)[5 * BlockOf(name) + PositionOf(k)].value == IntToString(KeyValue(r, c, n, name, k))
  {
    NameFacts();
    var i := 5 * BlockOf(name) + PositionOf(k);
    assert i / 5 == BlockOf(name) && i % 5 == PositionOf(k);
    assert Bindings(r, c, n)[i] == DbBinding(r, c, n, i);
  }

  /** A key of the table between brace-free texts becomes the text of its number. */
  lemma SubstituteKey(a: string, name: string, k: int, b: string, r: int, c: int, n: int)
    requires '{' !in a && '{' !in b && IsTableName(name) && -2 <= k <= 2
    ensures Substitute(a + Token(name, k) + b, r, c, n) == a + IntToString(KeyValue(r, c, n, name, k)) + b
  {
    BoundAt(r, c, n, name, k);
    ApplyFirstBound(a, name, k, b, Bindings(r, c, n), 5 * BlockOf(name) + PositionOf(k));
  }

  /** Only the first copy of a key is replaced: a second copy stays in the formula. */
  lemma SubstituteFirstCopyOnly(a: string, name: string, k: int, b: string, d: string, r: int, c: int, n: int)
    requires '{' !in a && '{' !in b && '{' !in d && IsTableName(name) && -2 <= k <= 2
    ensures Substitute(a + Token(name, k) + b + Token(name, k) + d, r, c, n)
         == a + IntToString(KeyValue(r, c, n, name, k)) + b + Token(name, k) + d
  {
    BoundAt(r, c, n, name, k);
    ApplyFirstBoundTwice(a, name, k, b, d, Bindings(r, c, n), 5 * BlockOf(name) + PositionOf(k));
  }

  /** A token outside the table (the letter key, or an offset beyond 2) is left as it is. */
  lemma SubstituteUnknownKey(a: string, name: string, k: int, b: string, r: int, c: int, n: int)
    requires '{' !in a && '{' !in b && IsName(name)
    requires name == LetterName || k < -2 || k > 2
    ensures Substitute(a + Token(name, k) + b, r, c, n) == a + Token(name, k) + b
  {
    var bs := Bindings(r, c, n);
    NameFacts();
    forall i ensures !Binds(bs, name, k, i) {
      if 0 <= i < 15 {
        assert bs[i].name == FiveName(i / 5) && bs[i].offset == FiveOffset(i % 5);
      }
    }
    ApplyFirstUnbound(a, name, k, b, bs);
  }

  /** Text without braces is not touched. */
  lemma SubstitutePlainText(s: string, r: int, c: int, n: int)
    requires '{' !in s
    ensures Substitute(s, r, c, n) == s
  {
    BraceFreeUntouched(s, GetVariables(r, c, n));
  }

  // ---------------------------------------------------------------------------
  // `getViewAsExcel`
  // ---------------------------------------------------------------------------

  /** The worksheet cell this exporter makes of a view cell: rows counted from the header at 0. */
  function ExportedCell(viewData: seq<seq<string>>, r: nat, c: nat): SheetCell
    requires r < |viewData| && c < |viewData[r]|
  {
    if r == 0 then Header(viewData[r][c])
    else DataCell(viewData[r][c], f => Substitute(f, r, c + 1, |viewData|))
  }

  /** One data cell: a formula has its keys substituted, a currency amount and plain text are kept. */
  method ExportDataCell(cellValue: string, rowIndex: nat, colNumber: nat, rowCount: nat) returns (cell: SheetCell)
    ensures cell == DataCell(cellValue, f => Substitute(f, rowIndex, colNumber, rowCount))
  {
    if StartsWith(cellValue, "=$") {
      var formula := PerformSubstitutions(cellValue[2..], rowIndex, colNumber, rowCount);
      cell := FormulaCell(formula, true);
    } else if StartsWith(cellValue, "=") {
      var formula := PerformSubstitutions(cellValue[1..], rowIndex, colNumber, rowCount);
      cell := FormulaCell(formula, false);
    } else if StartsWith(cellValue, "$") || StartsWith(cellValue, "-$") {
      cell := CurrencyNumber(cellValue);
    } else {
      cell := Plain(cellValue);
    }
  }

  /** One data row: each cell classified, and its formula substituted with the row index and column number. */
  method ExportDataRow(dataRow: seq<string>, rowIndex: nat, rowCount: nat) returns (row: seq<SheetCell>)
    ensures |row| == |dataRow|
    ensures forall c :: 0 <= c < |dataRow| ==>
      row[c] == DataCell(dataRow[c], f => Substitute(f, rowIndex, c + 1, rowCount))
  {
    row := [];
    var c := 0;
    while c < |dataRow|
      invariant 0 <= c <= |dataRow| && |row| == c
      invariant forall j :: 0 <= j < c ==>
        row[j] == DataCell(dataRow[j], f => Substitute(f, rowIndex, j + 1, rowCount))
    {
      var cell := ExportDataCell(dataRow[c], rowIndex, c + 1, rowCount);
      row := row + [cell];
      c := c + 1;
    }
  }

  /** `getViewAsExcel`: fails for a table without a view, otherwise one worksheet cell per view cell. */
  method GetViewAsExcel(table: string, hasViewJson: bool, viewData: seq<seq<string>>)
    returns (result: Result<seq<seq<SheetCell>>, string>)
    ensures !hasViewJson <==> result.Err?
    ensures result.Err? ==> result.error == MissingTable(table)
    ensures result.Ok? ==> SameShape(result.value, viewData)
    ensures result.Ok? ==> forall r, c :: 0 <= r < |viewData| && 0 <= c < |viewData[r]| ==>
      result.value[r][c] == ExportedCell(viewData, r, c)
  {
    if !hasViewJson {
      return Err(MissingTable(table));
    }
    var sheet: seq<seq<SheetCell>> := [];
    var header := true;
    var rowIndex := 0;
    while rowIndex < |viewData|
      invariant 0 <= rowIndex <= |viewData| && |sheet| == rowIndex
      invariant header <==> rowIndex == 0
      invariant forall r :: 0 <= r < rowIndex ==> |sheet[r]| == |viewData[r]|
      invariant forall r, c :: 0 <= r < rowIndex && 0 <= c < |viewData[r]| ==>
        sheet[r][c] == ExportedCell(viewData, r, c)
    {
      var row: seq<SheetCell>;
      if header {
        row := seq(|viewData[rowIndex]|, c requires 0 <= c < |viewData[rowIndex]| => Header(viewData[rowIndex][c]));
        header := false;
      } else {
        row := ExportDataRow(viewData[rowIndex], rowIndex, |viewData|);
      }
      sheet := sheet + [row];
      rowIndex := rowIndex + 1;
    }
    return Ok(sheet);
  }
}
