/**
 * The read side of a spreadsheet file as the loader sees it: sheets in order,
 * each with a name and rows that may be absent, each row with cells that may
 * be absent.
 */
module SheetSource {
  import opened Wrappers

  /** A cell's kind and value; a numeric cell carries whether its format is a date format. */
  datatype Cell =
    | Text(text: string)
    | Numeric(v: real, dateFormatted: bool)
    | Bool(b: bool)
    | Blank
    | Formula(cachedText: Option<string>)
    | Error

  /** The cells of a row by column index; `None` where the row has no cell. */
  type Row = seq<Option<Cell>>

  datatype Sheet = Sheet(name: string, rows: seq<Option<Row>>)

  datatype SourceWorkbook = SourceWorkbook(sheets: seq<Sheet>)

  /** `sheet.getRow(i)`: `None` (Java `null`) for a row that does not exist. */
  function GetRow(sheet: Sheet, i: nat): (r: Option<Row>)
    ensures i >= |sheet.rows| ==> r.None?
  {
    if i < |sheet.rows| then sheet.rows[i] else None
  }

  /** `row.getCell(j)`: `None` (Java `null`) for a cell that does not exist. */
  function GetCell(row: Row, j: nat): (c: Option<Cell>)
    ensures j >= |row| ==> c.None?
  {
    if j < |row| then row[j] else None
  }

  /** `row.getLastCellNum()`: one past the last present cell, or -1 when the row has no cell. */
  function LastCellNum(row: Row): (n: int)
    ensures n == -1 <==> forall j :: 0 <= j < |row| ==> row[j].None?
    ensures n != -1 ==> 0 < n <= |row| && row[n - 1].Some?
    ensures forall j :: 0 <= j < |row| && n <= j ==> row[j].None?
  {
    if |row| == 0 then -1
    else if row[|row| - 1].Some? then |row|
    else LastCellNum(row[..|row| - 1])
  }

  /**
   * `cell.getStringCellValue()`: the text of a text cell, "" for a blank cell,
   * the cached text of a formula whose result is text; `None` where the
   * library throws because the cell holds something else.
   */
  function StringCellValue(c: Cell): (s: Option<string>)
    ensures c.Text? ==> s == Some(c.text)
    ensures c.Blank? ==> s == Some("")
    ensures c.Formula? ==> s == c.cachedText
    ensures s.None? <==> c.Numeric? || c.Bool? || c.Error? || (c.Formula? && c.cachedText.None?)
  {
    match c
    case Text(t) => Some(t)
    case Blank => Some("")
    case Formula(cached) => cached
    case _ => None
  }
}
