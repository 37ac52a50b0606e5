/**
 * The worksheet cells the two spreadsheet exporters produce from a condensed
 * view: the header row in bold, and in the data rows formulas (optionally in a
 * currency format), currency texts read as numbers, and everything else as is.
 */
module Sheet {
  import opened Wrappers
  import opened JsString

  /** What a worksheet cell ends up holding. */
  datatype SheetCell =
    | Header(text: string)                               // first row: the text, in bold
    | FormulaCell(formula: string, currencyFormat: bool) // a formula, without its leading "=" (or "=$")
    | CurrencyNumber(text: string)                       // "$…" or "-$…", parsed as a number, currency format
    | Plain(text: string)                                // left as the view gave it

  /**
   * The classification of a data cell: "=$" and "=" introduce a formula whose
   * text after the prefix goes through `substitute`, "$" and "-$" a currency number.
   */
  function DataCell(cell: string, substitute: string -> string): (r: SheetCell)
    ensures r.FormulaCell? <==> StartsWith(cell, "=")
    ensures r.FormulaCell? ==> r.currencyFormat == StartsWith(cell, "=$")
    ensures r.FormulaCell? && r.currencyFormat ==> r.formula == substitute(cell[2..])
    ensures r.FormulaCell? && !r.currencyFormat ==> r.formula == substitute(cell[1..])
    ensures r.CurrencyNumber? <==> !StartsWith(cell, "=") && (StartsWith(cell, "$") || StartsWith(cell, "-$"))
    ensures r.CurrencyNumber? || r.Plain? ==> r.text == cell
    ensures !r.Header?
  {
    if StartsWith(cell, "=$") then
      assert cell[..1] == cell[..2][..1];
      FormulaCell(substitute(cell[2..]), true)
    else if StartsWith(cell, "=") then FormulaCell(substitute(cell[1..]), false)
    else if StartsWith(cell, "$") || StartsWith(cell, "-$") then CurrencyNumber(cell)
    else Plain(cell)
  }

  /** The message `getViewAsExcel` throws for a table without a view. */
  function MissingTable(table: string): string {
    "Table " + table + " does not exist"
  }
}
