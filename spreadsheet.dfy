/**
 * The part of an exceljs workbook the core reads: the first worksheet, its rows
 * 1..rowCount, and per row the value of a cell addressed by its column letters.
 */
module Spreadsheet {
  import opened Wrappers
  import opened Strings

  /** A non-empty cell value: text or a whole number. */
  datatype CellValue = Text(s: string) | Number(n: int)

  /** A row: column letters ("A", "B", ..., "AA", ...) to cell values; a column with no entry is an empty cell. */
  type Row = map<string, CellValue>

  /** A worksheet; `rows[k]` is row number `k + 1`, so `|rows|` is `rowCount`. */
  datatype Sheet = Sheet(rows: seq<Row>)

  datatype Workbook = Workbook(sheets: seq<Sheet>)

  /** `workbook.getWorksheet(1)`. */
  function FirstSheet(b: Workbook): (r: Option<Sheet>)
    ensures r.Some? <==> b.sheets != []
  {
    if b.sheets == [] then None else Some(b.sheets[0])
  }

  /** `row.getCell(col).value`: `None` for an empty cell. */
  function CellAt(row: Row, col: string): Option<CellValue> {
    if col in row then Some(row[col]) else None
  }

  /** JavaScript truthiness of a cell value: an empty cell, "" and 0 are falsy. */
  predicate Truthy(v: Option<CellValue>) {
    match v
    case None => false
    case Some(Text(s)) => s != ""
    case Some(Number(n)) => n != 0
  }

  /** `String(value)` of a non-empty cell. */
  function Stringify(v: CellValue): string {
    match v
    case Text(s) => s
    case Number(n) => IntToString(n)
  }

  /** `row.getCell(col).text`: the cell's text, "" for an empty cell. */
  function CellText(row: Row, col: string): (t: string)
    ensures col !in row ==> t == ""
  {
    match CellAt(row, col)
    case None => ""
    case Some(v) => Stringify(v)
  }

  /** Column 1 is column "A". */
  const FirstColumn := "A"
}
