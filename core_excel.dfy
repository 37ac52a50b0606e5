/**
 * The spreadsheet exporter of `src/core/excel.ts`: its own column naming, a
 * finite table of `{{KEY±o}}` keys for offsets up to 10, literal replacement of
 * every key, and the classification of the cells of a condensed view.
 */
module CoreExcel {
  import opened Wrappers
  import opened JsString
  import opened Formula
  import opened TokenTables
  import opened Sheet

  // ---------------------------------------------------------------------------
  // The exporter's column naming, as written
  // ---------------------------------------------------------------------------

  /** What `base[remainder - 1]` gives: a capital letter, or the text "undefined" for index -1. */
  function LegacyPiece(remainder: nat): string
    requires remainder < 26
  {
    if remainder == 0 then "undefined" else [('A' as int + remainder - 1) as char]
  }

  /** The text the digit loop builds from `n`, most significant base-26 digit first. */
  function LegacyDigits(n: nat): string
    decreases n
  {
    if n == 0 then "" else LegacyDigits(n / 26) + LegacyPiece(n % 26)
  }

  /** The exporter's column name of `n`: "A" below 1, otherwise the digit loop's text. */
  function LegacyColumnLetter(n: int): string {
    if n < 1 then "A" else LegacyDigits(n)
  }

  /** The private `columnNumberToLetter` of the exporter: a remainder loop over plain base 26. */
  method ColumnNumberToLetter(colNumber: int) returns (result: string)
    ensures result == LegacyColumnLetter(colNumber)
  {
    if colNumber < 1 {
      return "A";
    }
    result := "";
    var num := colNumber;
    while num > 0
      invariant 0 <= num
      invariant LegacyDigits(num) + result == LegacyDigits(colNumber)
      decreases num
    {
      var remainder := num % 26;
      assert LegacyDigits(num) == LegacyDigits(num / 26) + LegacyPiece(remainder);
      assert LegacyDigits(num / 26) + (LegacyPiece(remainder) + result) == LegacyDigits(num) + result;
      result := LegacyPiece(remainder) + result;
      num := num / 26;
    }
    assert LegacyDigits(0) == "";
  }

  /** The columns 1 to 25 get the n-th capital letter, which is also their spreadsheet name. */
  lemma LegacySingleLetters(n: int)
    requires 1 <= n <= 25
    ensures LegacyColumnLetter(n) == [('A' as int + n - 1) as char]
    ensures LegacyColumnLetter(n) == ColumnLetter(n)
  {
    assert LegacyDigits(n / 26) == "";
    assert Letters((n - 1) / 26) == "";
  }

  /** Every base-26 digit of `n` is non-zero. */
  predicate NoZeroDigit(n: nat)
    decreases n
  {
    n == 0 || (n % 26 != 0 && NoZeroDigit(n / 26))
  }

  /** Where no base-26 digit is zero, the digit loop agrees with the spreadsheet naming. */
  lemma {:induction false} LegacyAgreesWithoutZeroDigit(n: nat)
    requires NoZeroDigit(n)
    ensures LegacyDigits(n) == Letters(n)
    decreases n
  {
    if n > 0 {
      LegacyAgreesWithoutZeroDigit(n / 26);
      assert (n - 1) / 26 == n / 26 && (n - 1) % 26 == n % 26 - 1;
    }
  }

  /** A column whose last base-26 digit is zero gets a name ending in "undefined". */
  lemma LegacyZeroDigit(n: int)
    requires n >= 1 && n % 26 == 0
    ensures EndsWith(LegacyColumnLetter(n), "undefined")
  {
    var s := LegacyColumnLetter(n);
    assert s == LegacyDigits(n / 26) + "undefined";
    assert s[|s| - 9..] == "undefined";
  }

  /** Column 26 is named "Aundefined" by the exporter, where the spreadsheet name is "Z". */
  lemma LegacyTwentySix()
    ensures LegacyColumnLetter(26) == "Aundefined"
    ensures ColumnLetter(26) == "Z"
  {
    assert LegacyDigits(1) == "A" by {
      assert LegacyDigits(1) == LegacyDigits(0) + LegacyPiece(1);
      assert LegacyPiece(1) == "A";
    }
    assert LegacyDigits(26) == "A" + "undefined" by {
      assert LegacyDigits(26) == LegacyDigits(1) + LegacyPiece(0);
    }
    assert "A" + "undefined" == "Aundefined";
    ColumnLetterExamples();
  }

  /** Every piece of the digit loop's text is "undefined" or a capital letter, so no name has a brace. */
  lemma {:induction false} LegacyDigitsBraceFree(n: nat)
    ensures '{' !in LegacyDigits(n)
    decreases n
  {
    if n > 0 {
      LegacyDigitsBraceFree(n / 26);
      assert '{' !in LegacyPiece(n % 26);
    }
  }

  /**
   * The column naming that fills the letter block: the exporter's own loop as
   * written, or the spreadsheet naming of the formula engine it evidently intends.
   */
  datatype Naming = AsWritten | Intended

  function NameOfColumn(naming: Naming, n: int): string {
    match naming
    case AsWritten => LegacyColumnLetter(n)
    case Intended => ColumnLetter(n)
  }

  lemma NameOfColumnBraceFree(naming: Naming, n: int)
    ensures '{' !in NameOfColumn(naming, n)
  {
    if naming == Intended {
      ColumnLetterBraceFree(n);
    } else if n >= 1 {
      LegacyDigitsBraceFree(n);
    }
  }

  // ---------------------------------------------------------------------------
  // The key table of `getVariables`
  // ---------------------------------------------------------------------------

  /** The offsets the exporter writes keys for, in the order it writes them. */
  const Offsets: seq<int> := [-10, -9, -8, -7, -6, -5, -4, -3, -2, -1, 1, 2, 3, 4, 5, 6, 7, 8, 9, 10]

  /** The offset of the `i`-th key of a block: the plain key first, then -10..-1 and 1..10. */
  function BlockOffset(i: nat): int {
    if i == 0 then 0 else if i <= 10 then i - 11 else i - 10
  }

  lemma OffsetsAreBlockOffsets()
    ensures |Offsets| == 20 && forall i :: 0 <= i < 20 ==> Offsets[i] == BlockOffset(i + 1)
  {
  }

  lemma OffsetAt(i: nat)
    requires i < 20
    ensures |Offsets| == 20 && Offsets[i] == BlockOffset(i + 1) && Offsets[i] != 0
  {
    OffsetsAreBlockOffsets();
  }

  /** The four blocks of the table: the base keys in the order of the base variables, then the letter. */
  function BlockName(blk: nat): string {
    if blk == 0 then ColumnName else if blk == 1 then RowName else if blk == 2 then CountName else LetterName
  }

  /** The base value of a block's key. */
  function BlockBase(bv: BaseVariables, blk: nat): int {
    if blk == 0 then bv.currentColumn else if blk == 1 then bv.currentRow else bv.rowCount
  }

  /**
   * The text a key of block `blk` with offset `o` stands for: the decimal text of
   * base + o, not clamped, and for the letter block the column name of column + o.
   */
  function BlockValue(bv: BaseVariables, naming: Naming, blk: nat, o: int): string {
    if blk < 3 then IntToString(BlockBase(bv, blk) + o) else NameOfColumn(naming, bv.currentColumn + o)
  }

  function VariableBinding(bv: BaseVariables, naming: Naming, i: nat): Binding {
    Binding(BlockName(i / 21), BlockOffset(i % 21), BlockValue(bv, naming, i / 21, BlockOffset(i % 21)))
  }

  /** The 84 bindings of the table: four blocks of 21 keys. */
  function VariableBindings(bv: BaseVariables, naming: Naming): (bs: seq<Binding>)
    ensures |bs| == 84 && WellFormed(bs) && Distinct(bs)
  {
    var bs := seq(84, i requires 0 <= i < 84 => VariableBinding(bv, naming, i));
    BindingsWellFormed(bv, naming, bs);
    BindingsDistinct(bs);
    bs
  }

  lemma BindingsWellFormed(bv: BaseVariables, naming: Naming, bs: seq<Binding>)
    requires |bs| == 84 && forall i :: 0 <= i < 84 ==> bs[i] == VariableBinding(bv, naming, i)
    ensures WellFormed(bs)
  {
    forall i | 0 <= i < 84 ensures IsName(bs[i].name) && '{' !in bs[i].value {
      var blk := i / 21;
      var o := BlockOffset(i % 21);
      if blk < 3 {
        IntToStringBraceFree(BlockBase(bv, blk) + o);
      } else {
        NameOfColumnBraceFree(naming, bv.currentColumn + o);
      }
    }
  }

  lemma BindingsDistinct(bs: seq<Binding>)
    requires |bs| == 84 && forall i :: 0 <= i < 84 ==> bs[i].name == BlockName(i / 21) && bs[i].offset == BlockOffset(i % 21)
    ensures Distinct(bs)
  {
    NameFacts();
    forall i, j | 0 <= i < j < 84 ensures bs[i].name != bs[j].name || bs[i].offset != bs[j].offset {
      if i / 21 == j / 21 {
        assert i % 21 != j % 21;
      } else {
        assert BlockName(i / 21) != BlockName(j / 21);
      }
    }
  }

  /** `getVariables` as the map it returns: the keys in insertion order with their texts. */
  function Variables(bv: BaseVariables, naming: Naming): (vars: seq<(string, string)>)
    ensures |vars| == 84 && KeysAreTokens(vars)
  {
    Entries(VariableBindings(bv, naming))
  }

  /** The key the source writes for a non-zero offset: a "+" before non-negative offsets. */
  function KeyText(key: string, offset: int): string {
    "{{" + key + (if offset >= 0 then "+" else "") + IntToString(offset) + "}}"
  }

  lemma KeyTextIsToken(key: string, offset: int)
    requires offset != 0
    ensures KeyText(key, offset) == Token(key, offset)
  {
  }

  lemma PlainKeyIsToken(key: string)
    ensures "{{" + key + "}}" == Token(key, 0)
  {
  }

  /** Binding `21 * blk + r` belongs to block `blk` at position `r`. */
  lemma BindingAt(bv: BaseVariables, naming: Naming, blk: nat, r: nat)
    requires blk < 4 && r < 21
    ensures var b := VariableBindings(bv, naming)[21 * blk + r];
      b.name == BlockName(blk) && b.offset == BlockOffset(r) && b.value == BlockValue(bv, naming, blk, BlockOffset(r))
  {
    assert (21 * blk + r) / 21 == blk && (21 * blk + r) % 21 == r;
  }

  /** `getVariables`: a block of 21 keys per base variable, then the letter block. */
  method GetVariables(bv: BaseVariables) returns (variables: seq<(string, string)>)
    ensures variables == Variables(bv, AsWritten)
  {
    variables := [];
    var blk := 0;
    while blk < 3
      invariant 0 <= blk <= 3
      invariant variables == Entries(VariableBindings(bv, AsWritten)[..21 * blk])
    {
      variables := SetBlock(variables, bv, blk);
      blk := blk + 1;
    }
    variables := SetBlock(variables, bv, 3);
    assert VariableBindings(bv, AsWritten)[..84] == VariableBindings(bv, AsWritten);
  }

  /** Setting the key at position `r` of block `blk` extends the map by that one binding. */
  lemma SetStep(bv: BaseVariables, naming: Naming, blk: nat, r: nat, key: string, value: string)
    requires blk < 4 && r < 21
    requires key == Token(BlockName(blk), BlockOffset(r)) && value == BlockValue(bv, naming, blk, BlockOffset(r))
    ensures MapSet(Entries(VariableBindings(bv, naming)[..21 * blk + r]), key, value)
         == Entries(VariableBindings(bv, naming)[..21 * blk + r + 1])
  {
    BindingAt(bv, naming, blk, r);
    EntriesStep(VariableBindings(bv, naming), 21 * blk + r);
  }

  /**
   * One block of `getVariables`: the plain key of a base variable (or of the
   * letter), then its key for every offset, each set into the map.
   */
  method SetBlock(variables: seq<(string, string)>, bv: BaseVariables, blk: nat) returns (result: seq<(string, string)>)
    requires blk < 4 && variables == Entries(VariableBindings(bv, AsWritten)[..21 * blk])
    ensures result == Entries(VariableBindings(bv, AsWritten)[..21 * blk + 21])
  {
    var key := BlockName(blk);
    PlainKeyIsToken(key);
    var value := BlockValue(bv, AsWritten, blk, 0);
    SetStep(bv, AsWritten, blk, 0, "{{" + key + "}}", value);
    result := MapSet(variables, "{{" + key + "}}", value);
    var oi := 0;
    OffsetsAreBlockOffsets();
    while oi < 20
      invariant 0 <= oi <= 20
      invariant result == Entries(VariableBindings(bv, AsWritten)[..21 * blk + 1 + oi])
    {
      OffsetAt(oi);
      var offset := Offsets[oi];
      KeyTextIsToken(key, offset);
      var value := BlockValue(bv, AsWritten, blk, offset);
      SetStep(bv, AsWritten, blk, oi + 1, KeyText(key, offset), value);
      result := MapSet(result, KeyText(key, offset), value);
      oi := oi + 1;
    }
  }

  // ---------------------------------------------------------------------------
  // `performSubstitutions`
  // ---------------------------------------------------------------------------

  /** `performSubstitutions` as a function: every key of the table replaced in every occurrence, in table order. */
  function Substitute(formula: string, bv: BaseVariables, naming: Naming): string {
    ApplyAll(formula, Variables(bv, naming))
  }

  /** `performSubstitutions`: one global replace per key, in the map's order. */
  method PerformSubstitutions(formula: string, bv: BaseVariables) returns (result: string)
    ensures result == Substitute(formula, bv, AsWritten)
  {
    var variables := GetVariables(bv);
    result := formula;
    var i := 0;
    while i < |variables|
      invariant 0 <= i <= |variables|
      invariant KeysAreTokens(variables[i..])
      invariant ApplyAll(result, variables[i..]) == ApplyAll(formula, variables)
    {
      assert variables[i..][1..] == variables[i + 1..];
      result := ReplaceAll(result, variables[i].0, variables[i].1);
      i := i + 1;
    }
  }

  /** The text a key `{{name±k}}` with `|k| <= 10` stands for. */
  function TokenValue(bv: BaseVariables, naming: Naming, name: string, k: int): string {
    if name == LetterName then NameOfColumn(naming, bv.currentColumn + k)
    else if name == ColumnName then IntToString(bv.currentColumn + k)
    else if name == RowName then IntToString(bv.currentRow + k)
    else IntToString(bv.rowCount + k)
  }

  /** The block of the table a name's keys are in. */
  function BlockOf(name: string): nat {
    if name == ColumnName then 0 else if name == RowName then 1 else if name == CountName then 2 else 3
  }

  /** The position of offset `k` inside a block. */
  function PositionOf(k: int): nat
    requires -10 <= k <= 10
  {
    if k == 0 then 0 else if k < 0 then k + 11 else k + 10
  }

  /** Key `{{name±k}}` is bound at its block and position. */
  lemma BoundAt(bv: BaseVariables, naming: Naming, name: string, k: int)
    requires IsName(name) && -10 <= k <= 10
    ensures Binds(VariableBindings(bv, naming), name, k, 21 * BlockOf(name) + PositionOf(k))
    ensures VariableBindings(bv, naming)[21 * BlockOf(name) + PositionOf(k)].value == TokenValue(bv, naming, name, k)
  {
    var blk, r := BlockOf(name), PositionOf(k);
    assert BlockOffset(r) == k;
    assert BlockName(blk) == name by {
      NameFacts();
    }
    assert BlockValue(bv, naming, blk, k) == TokenValue(bv, naming, name, k);
    BindingAt(bv, naming, blk, r);
  }

  /**
   * A key with an offset of at most 10 between brace-free texts becomes its value:
   * base + k for the three numbers, the column name of column + k for the letter.
   */
  lemma SubstituteKey(a: string, name: string, k: int, b: string, bv: BaseVariables, naming: Naming)
    requires '{' !in a && '{' !in b && IsName(name) && -10 <= k <= 10
    ensures Substitute(a + Token(name, k) + b, bv, naming) == a + TokenValue(bv, naming, name, k) + b
  {
    BoundAt(bv, naming, name, k);
    ApplyAllBound(a, name, k, b, VariableBindings(bv, naming), 21 * BlockOf(name) + PositionOf(k));
  }

  /** Every copy of a key is replaced, not just the first. */
  lemma SubstituteKeyEverywhere(a: string, name: string, k: int, b: string, c: string, bv: BaseVariables, naming: Naming)
    requires '{' !in a && '{' !in b && '{' !in c && IsName(name) && -10 <= k <= 10
    ensures Substitute(a + Token(name, k) + b + Token(name, k) + c, bv, naming)
         == a + TokenValue(bv, naming, name, k) + b + TokenValue(bv, naming, name, k) + c
  {
    BoundAt(bv, naming, name, k);
    ApplyAllBoundTwice(a, name, k, b, c, VariableBindings(bv, naming), 21 * BlockOf(name) + PositionOf(k));
  }

  /** A token with an offset beyond 10 is not in the table and is left as it is. */
  lemma SubstituteOutOfRange(a: string, name: string, k: int, b: string, bv: BaseVariables, naming: Naming)
    requires '{' !in a && '{' !in b && IsName(name) && (k < -10 || k > 10)
    ensures Substitute(a + Token(name, k) + b, bv, naming) == a + Token(name, k) + b
  {
    var bs := VariableBindings(bv, naming);
    forall i ensures !Binds(bs, name, k, i) {
      if 0 <= i < 84 {
        assert bs[i].offset == BlockOffset(i % 21);
      }
    }
    ApplyAllUnbound(a, name, k, b, bs);
  }

  /** Text without braces is not touched. */
  lemma SubstitutePlainText(s: string, bv: BaseVariables, naming: Naming)
    requires '{' !in s
    ensures Substitute(s, bv, naming) == s
  {
    ApplyAllBraceFree(s, Variables(bv, naming));
  }

  /**
   * As written, the letter key of column 26 becomes "Aundefined", which is not
   * the spreadsheet name "Z" of that column.
   */
  lemma LetterKeyAsWritten(a: string, b: string, bv: BaseVariables)
    requires '{' !in a && '{' !in b && bv.currentColumn == 26
    ensures Substitute(a + Token(LetterName, 0) + b, bv, AsWritten) == a + "Aundefined" + b
    ensures Substitute(a + Token(LetterName, 0) + b, bv, AsWritten) != a + ColumnLetter(bv.currentColumn) + b
  {
    SubstituteKey(a, LetterName, 0, b, bv, AsWritten);
    LegacyTwentySix();
    assert |a + "Aundefined" + b| != |a + "Z" + b|;
  }

  /**
   * With the engine's naming the letter key of column c + k becomes the
   * spreadsheet name of that column, "Z" for column 26.
   */
  lemma LetterKeyIntended(a: string, k: int, b: string, bv: BaseVariables)
    requires '{' !in a && '{' !in b && -10 <= k <= 10
    ensures Substitute(a + Token(LetterName, k) + b, bv, Intended) == a + ColumnLetter(bv.currentColumn + k) + b
    ensures bv.currentColumn + k == 26 ==> Substitute(a + Token(LetterName, k) + b, bv, Intended) == a + "Z" + b
  {
    SubstituteKey(a, LetterName, k, b, bv, Intended);
    ColumnLetterExamples();
  }

  /** With the engine's naming, two columns from 1 on never give the letter key the same text. */
  lemma {:induction false} LetterKeyIntendedDistinct(a: string, k: int, b: string, bv: BaseVariables, other: BaseVariables)
    requires '{' !in a && '{' !in b && -10 <= k <= 10
    requires bv.currentColumn + k >= 1 && other.currentColumn + k >= 1 && bv.currentColumn != other.currentColumn
    ensures Substitute(a + Token(LetterName, k) + b, bv, Intended) != Substitute(a + Token(LetterName, k) + b, other, Intended)
  {
    LetterKeyIntended(a, k, b, bv);
    LetterKeyIntended(a, k, b, other);
    var s, t := ColumnLetter(bv.currentColumn + k), ColumnLetter(other.currentColumn + k);
    LettersRoundTrip(bv.currentColumn + k);
    LettersRoundTrip(other.currentColumn + k);
    assert s != t;
    if a + s + b == a + t + b {
      MiddleCancel(a, s, t, b);
    }
  }

  /** Equal texts with the same prefix and suffix have the same middle. */
  lemma MiddleCancel(a: string, s: string, t: string, b: string)
    requires a + s + b == a + t + b
    ensures s == t
  {
    assert |s| == |t|;
    assert s == (a + s + b)[|a|..|a| + |s|];
    assert t == (a + t + b)[|a|..|a| + |t|];
  }

  // ---------------------------------------------------------------------------
  // `getViewAsExcel`
  // ---------------------------------------------------------------------------

  /** The base variables of view cell (`rowIndex`, `colNumber`): the row counts the header as row 1. */
  function CellVariables(rowIndex: nat, colNumber: nat, rowCount: nat): BaseVariables {
    BaseVariables(colNumber, rowIndex + 1, rowCount)
  }

  /** The worksheet cell the exporter makes of a view cell. */
  function ExportedCell(viewData: seq<seq<string>>, r: nat, c: nat): SheetCell
    requires r < |viewData| && c < |viewData[r]|
  {
    if r == 0 then Header(viewData[r][c])
    else DataCell(viewData[r][c], f => Substitute(f, CellVariables(r, c + 1, |viewData|), AsWritten))
  }

  /** One data row: each cell classified, and formulas substituted for their column. */
  method ExportDataRow(dataRow: seq<string>, rowIndex: nat, rowCount: nat) returns (row: seq<SheetCell>)
    ensures |row| == |dataRow|
    ensures forall c :: 0 <= c < |dataRow| ==>
      row[c] == DataCell(dataRow[c], f => Substitute(f, CellVariables(rowIndex, c + 1, rowCount), AsWritten))
  {
    row := [];
    var c := 0;
    while c < |dataRow|
      invariant 0 <= c <= |dataRow| && |row| == c
      invariant forall j :: 0 <= j < c ==>
        row[j] == DataCell(dataRow[j], f => Substitute(f, CellVariables(rowIndex, j + 1, rowCount), AsWritten))
    {
      var colNumber := c + 1;
      var substitutionVariables := BaseVariables(colNumber, rowIndex + 1, rowCount);
      var cellValue := dataRow[c];
      var cell: SheetCell;
      if StartsWith(cellValue, "=$") {
        var formula := PerformSubstitutions(cellValue[2..], substitutionVariables);
        cell := FormulaCell(formula, true);
      } else if StartsWith(cellValue, "=") {
        var formula := PerformSubstitutions(cellValue[1..], substitutionVariables);
        cell := FormulaCell(formula, false);
      } else if StartsWith(cellValue, "$") || StartsWith(cellValue, "-$") {
        cell := CurrencyNumber(cellValue);
      } else {
        cell := Plain(cellValue);
      }
      row := row + [cell];
      c := c + 1;
    }
  }

  /** `getViewAsExcel`: fails for a table without a view, otherwise one worksheet cell per view cell. */
  method GetViewAsExcel(table: string, hasViewJson: bool, viewData: seq<seq<string>>)
    returns (result: Result<seq<seq<SheetCell>>, string>)
    ensures !hasViewJson <==> result.Err?
    ensures result.Err? ==> result.error == MissingTable(table)
    ensures result.Ok? ==> SameShape(result.value, viewData)
    ensures result.Ok? ==> forall r, c :: 0 <= r < |viewData| && 0 <= c < |viewData[r]| ==>
      result.value[r][c] == ExportedCell(viewData, r, c)
  {
    if !hasViewJson {
      return Err(MissingTable(table));
    }
    var sheet: seq<seq<SheetCell>> := [];
    var header := true;
    var rowIndex := 0;
    while rowIndex < |viewData|
      invariant 0 <= rowIndex <= |viewData| && |sheet| == rowIndex
      invariant header <==> rowIndex == 0
      invariant forall r :: 0 <= r < rowIndex ==> |sheet[r]| == |viewData[r]|
      invariant forall r, c :: 0 <= r < rowIndex && 0 <= c < |viewData[r]| ==>
        sheet[r][c] == ExportedCell(viewData, r, c)
    {
      var row: seq<SheetCell>;
      if header {
        row := seq(|viewData[rowIndex]|, c requires 0 <= c < |viewData[rowIndex]| => Header(viewData[rowIndex][c]));
        header := false;
      } else {
        row := ExportDataRow(viewData[rowIndex], rowIndex, |viewData|);
      }
      sheet := sheet + [row];
      rowIndex := rowIndex + 1;
    }
    return Ok(sheet);
  }
}
