/**
 * Schema inference from a spreadsheet: each sheet becomes a table, row 0
 * names the fields and row 1 holds one sample cell per column that fixes the
 * field's type.
 */
module ExcelReading {
  import opened Wrappers
  import opened FieldTypes
  import opened Fields
  import opened Tables
  import opened Workbooks
  import opened SheetSource

  /** Tolerance of the integrality test on numeric cells. */
  const EPSILON: real := 0.0000000001

  function Abs(x: real): real { if x < 0.0 then -x else x }

  /** `Math.floor`. */
  function Floor(x: real): real { x.Floor as real }

  /**
   * `getTipoDato(cell)`: absent cells are UNKNOWN, text is STRING, a numeric
   * cell is DATE when date-formatted and otherwise INTEGER or DECIMAL by the
   * integrality test, a boolean is BOOLEAN, anything else is UNKNOWN.
   */
  function ClassifyCell(cell: Option<Cell>): (t: FieldType)
    ensures t.IsNumeric() <==> cell.Some? && cell.value.Numeric? && !cell.value.dateFormatted
    ensures t == UNKNOWN <==> cell.None? || cell.value.Blank? || cell.value.Formula? || cell.value.Error?
    ensures t == STRING <==> cell.Some? && cell.value.Text?
    ensures t == BOOLEAN <==> cell.Some? && cell.value.Bool?
    ensures t == DATE <==> cell.Some? && cell.value.Numeric? && cell.value.dateFormatted
  {
    match cell
    case None => UNKNOWN
    case Some(c) =>
      match c
      case Text(_) => STRING
      case Numeric(v, dateFormatted) =>
        if dateFormatted then DATE
        else if Abs(v - Floor(v)) < EPSILON then INTEGER
        else DECIMAL
      case Bool(_) => BOOLEAN
      case _ => UNKNOWN
  }

  /** A non-date number is INTEGER exactly when it lies less than EPSILON above its floor. */
  lemma NumericIntegrality(v: real)
    ensures ClassifyCell(Some(Numeric(v, false))) == INTEGER <==> v - Floor(v) < EPSILON
    ensures ClassifyCell(Some(Numeric(v, false))) == DECIMAL <==> v - Floor(v) >= EPSILON
  {
  }

  /** The date test comes first: a date-formatted whole number is a DATE. */
  lemma DateBeforeIntegrality(n: int)
    ensures ClassifyCell(Some(Numeric(n as real, true))) == DATE
    ensures ClassifyCell(Some(Numeric(n as real, false))) == INTEGER
  {
  }

  /**
   * The test is one-sided: a number just below a whole number lies within
   * EPSILON of it but is DECIMAL, because it is compared with its floor.
   */
  lemma JustBelowWholeIsDecimal(n: int)
    ensures Abs((n as real - EPSILON / 2.0) - n as real) < EPSILON
    ensures ClassifyCell(Some(Numeric(n as real - EPSILON / 2.0, false))) == DECIMAL
  {
    var v := n as real - EPSILON / 2.0;
    assert v.Floor == n - 1;
  }

  /** Why reading a sheet was abandoned: the exception `loadWorkbook` catches. */
  datatype LoadError =
    | MissingHeaderRow          // row 0 is absent
    | MissingSampleRow          // row 1 is absent while the header has cells
    | MissingHeaderCell(column: nat)
    | HeaderNotText(column: nat)

  /** The number of columns the loop visits: `getLastCellNum()`, and none when that is -1. */
  function ColumnCount(header: Row): (n: nat)
    ensures n <= |header|
    ensures n == 0 <==> forall j :: 0 <= j < |header| ==> header[j].None?
    ensures n > 0 ==> header[n - 1].Some?
    ensures forall j :: n <= j < |header| ==> header[j].None?
  {
    var last := LastCellNum(header);
    if last < 0 then 0 else last
  }

  /** `primeraFila.getCell(j).getStringCellValue()`. */
  function HeaderName(header: Row, j: nat): (r: Result<string, LoadError>)
    ensures GetCell(header, j).None? ==> r == Failure(MissingHeaderCell(j))
    ensures j >= |header| ==> r == Failure(MissingHeaderCell(j))
    ensures GetCell(header, j).Some? ==>
              (r.Success? <==> StringCellValue(GetCell(header, j).value).Some?)
    ensures r.Success? ==> r == Success(StringCellValue(GetCell(header, j).value).value)
    ensures GetCell(header, j) == Some(Blank) ==> r == Success("")
  {
    match GetCell(header, j)
    case None => Failure(MissingHeaderCell(j))
    case Some(c) =>
      match StringCellValue(c)
      case None => Failure(HeaderNotText(j))
      case Some(s) => Success(s)
  }

  /** The field for column j: its name first, then the type of row 1's cell j. */
  function ReadColumn(header: Row, sample: Option<Row>, j: nat): (r: Result<FieldModel, LoadError>)
    ensures HeaderName(header, j).Failure? ==> r == Failure(HeaderName(header, j).error)
    ensures HeaderName(header, j).Success? && sample.None? ==> r == Failure(MissingSampleRow)
    ensures r.Success? <==> HeaderName(header, j).Success? && sample.Some?
    ensures r.Success? ==> r.value.name == Some(HeaderName(header, j).value)
                           && r.value.fieldType == Some(ClassifyCell(GetCell(sample.value, j)))
  {
    match HeaderName(header, j)
    case Failure(e) => Failure(e)
    case Success(name) =>
      if sample.None? then Failure(MissingSampleRow)
      else Success(FieldModel(Some(name), Some(ClassifyCell(GetCell(sample.value, j)))))
  }

  /** The fields of columns 0 .. n-1 in column order, or the error of the first column that fails. */
  function ReadFields(header: Row, sample: Option<Row>, n: nat): (r: Result<seq<FieldModel>, LoadError>)
    ensures r.Success? <==> forall j :: 0 <= j < n ==> ReadColumn(header, sample, j).Success?
    ensures r.Success? ==> |r.value| == n
    ensures r.Success? ==> forall j :: 0 <= j < n ==> ReadColumn(header, sample, j) == Success(r.value[j])
    ensures r.Failure? ==> exists j :: 0 <= j < n && ReadColumn(header, sample, j) == Failure(r.error)
                                       && forall i :: 0 <= i < j ==> ReadColumn(header, sample, i).Success?
  {
    if n == 0 then Success([])
    else
      match ReadFields(header, sample, n - 1)
      case Failure(e) => Failure(e)
      case Success(fs) =>
        match ReadColumn(header, sample, n - 1)
        case Failure(e) => Failure(e)
        case Success(f) => Success(fs + [f])
  }

  /** One sheet as a table: named after the sheet, one field per header column. */
  function ReadTable(sheet: Sheet): (r: Result<TableSchema, LoadError>)
    ensures GetRow(sheet, 0).None? ==> r == Failure(MissingHeaderRow)
    ensures r.Success? <==> GetRow(sheet, 0).Some?
                            && (ColumnCount(GetRow(sheet, 0).value) > 0 ==> GetRow(sheet, 1).Some?)
                            && forall j :: 0 <= j < ColumnCount(GetRow(sheet, 0).value) ==>
                                 HeaderName(GetRow(sheet, 0).value, j).Success?
    ensures r.Success? ==> r.value.name == sheet.name
    ensures r.Success? ==> GetRow(sheet, 0).Some?
                           && |r.value.fields| == ColumnCount(GetRow(sheet, 0).value)
                           && (|r.value.fields| > 0 ==> GetRow(sheet, 1).Some?)
    ensures r.Success? ==> forall j :: 0 <= j < |r.value.fields| ==>
              HeaderName(GetRow(sheet, 0).value, j).Success?
              && r.value.fields[j].name == Some(HeaderName(GetRow(sheet, 0).value, j).value)
              && r.value.fields[j].fieldType == Some(ClassifyCell(GetCell(GetRow(sheet, 1).value, j)))
  {
    match GetRow(sheet, 0)
    case None => Failure(MissingHeaderRow)
    case Some(header) =>
      match ReadFields(header, GetRow(sheet, 1), ColumnCount(header))
      case Failure(e) => Failure(e)
      case Success(fields) =>
        FieldsDescribeColumns(header, GetRow(sheet, 1), ColumnCount(header));
        Success(TableSchema(sheet.name, fields))
  }

  /** Field j of a successful read is named by header cell j and typed by sample cell j. */
  lemma FieldsDescribeColumns(header: Row, sample: Option<Row>, n: nat)
    requires ReadFields(header, sample, n).Success?
    ensures n > 0 ==> sample.Some?
    ensures forall j :: 0 <= j < n ==>
              HeaderName(header, j).Success? && sample.Some?
              && ReadFields(header, sample, n).value[j]
                 == FieldModel(Some(HeaderName(header, j).value), Some(ClassifyCell(GetCell(sample.value, j))))
  {
    forall j | 0 <= j < n
      ensures HeaderName(header, j).Success? && sample.Some?
      ensures ReadFields(header, sample, n).value[j]
              == FieldModel(Some(HeaderName(header, j).value), Some(ClassifyCell(GetCell(sample.value, j))))
    {
      assert ReadColumn(header, sample, j).Success?;
    }
    if n > 0 {
      assert ReadColumn(header, sample, 0).Success?;
    }
  }

  /** A header without cells gives a table without fields, whether or not row 1 exists. */
  lemma EmptyHeaderNeedsNoSample(name: string, header: Row, rest: seq<Option<Row>>)
    requires forall j :: 0 <= j < |header| ==> header[j].None?
    ensures ReadTable(Sheet(name, [Some(header)] + rest)) == Success(TableSchema(name, []))
  {
    assert GetRow(Sheet(name, [Some(header)] + rest), 0) == Some(header);
  }

  /** A header with cells and no row 1 cannot be read (the first header cell being text). */
  lemma MissingSampleFails(name: string, header: Row)
    requires |header| > 0 && header[0].Some? && header[0].value.Text?
    ensures ReadTable(Sheet(name, [Some(header)])) == Failure(MissingSampleRow)
  {
    var sheet := Sheet(name, [Some(header)]);
    assert GetRow(sheet, 0) == Some(header);
    var r := ReadFields(header, None, ColumnCount(header));
    assert ReadColumn(header, None, 0) == Failure(MissingSampleRow);
    assert r.Failure?;
    var j :| 0 <= j < ColumnCount(header) && ReadColumn(header, None, j) == Failure(r.error)
             && forall i :: 0 <= i < j ==> ReadColumn(header, None, i).Success?;
    assert j == 0;
  }

  /** Only rows 0 and 1 are read: the rows after them do not change the table. */
  lemma OnlyFirstTwoRowsRead(sheet: Sheet, later: seq<Option<Row>>)
    requires |sheet.rows| >= 2
    ensures ReadTable(Sheet(sheet.name, sheet.rows[..2] + later)) == ReadTable(sheet)
  {
    var cut := Sheet(sheet.name, sheet.rows[..2] + later);
    assert GetRow(cut, 0) == GetRow(sheet, 0) && GetRow(cut, 1) == GetRow(sheet, 1);
  }

  /** What loading the sheets leaves behind: the tables built so far and the error, if any, that stopped it. */
  datatype LoadOutcome = LoadOutcome(tables: seq<TableSchema>, failure: Option<LoadError>)

  /**
   * The sheet loop of `loadWorkbook`: one table per sheet, in sheet order,
   * until the first sheet that cannot be read; that sheet and every later one
   * are left out, the tables before it stay.
   */
  function LoadTables(sheets: seq<Sheet>): (out: LoadOutcome)
    ensures |out.tables| <= |sheets|
    ensures forall k :: 0 <= k < |out.tables| ==> ReadTable(sheets[k]) == Success(out.tables[k])
    ensures out.failure.None? ==> |out.tables| == |sheets|
    ensures out.failure.Some? ==> |out.tables| < |sheets| && ReadTable(sheets[|out.tables|]) == Failure(out.failure.value)
  {
    if |sheets| == 0 then LoadOutcome([], None)
    else
      var prev := LoadTables(sheets[..|sheets| - 1]);
      if prev.failure.Some? then prev
      else
        match ReadTable(sheets[|sheets| - 1])
        case Failure(e) => LoadOutcome(prev.tables, Some(e))
        case Success(t) => LoadOutcome(prev.tables + [t], None)
  }

  /** Loading succeeds exactly when every sheet can be read, and then gives one table per sheet named after it. */
  lemma LoadSucceedsIff(sheets: seq<Sheet>)
    ensures LoadTables(sheets).failure.None? <==> forall k :: 0 <= k < |sheets| ==> ReadTable(sheets[k]).Success?
    ensures LoadTables(sheets).failure.None? ==>
              |LoadTables(sheets).tables| == |sheets|
              && forall k :: 0 <= k < |sheets| ==> LoadTables(sheets).tables[k].name == sheets[k].name
  {
    var out := LoadTables(sheets);
    if out.failure.Some? {
      assert !ReadTable(sheets[|out.tables|]).Success?;
    }
  }

  /** If sheets 0 .. i-1 can be read and sheet i (or the end) stops the load, exactly those i tables remain. */
  lemma LoadStopsAt(sheets: seq<Sheet>, i: nat)
    requires i <= |sheets|
    requires forall k :: 0 <= k < i ==> ReadTable(sheets[k]).Success?
    requires i < |sheets| ==> ReadTable(sheets[i]).Failure?
    ensures |LoadTables(sheets).tables| == i
    ensures forall k :: 0 <= k < i ==> LoadTables(sheets).tables[k] == ReadTable(sheets[k]).value
  {
  }

  /**
   * The column loop of `loadWorkbook`: for j below `getLastCellNum()`, append
   * the field named by header cell j and typed by sample cell j. `ok` is false
   * where the loop throws, leaving `tabla` to be discarded.
   */
  method AddColumns(tabla: TableModel, header: Row, sample: Option<Row>) returns (ok: bool)
    requires tabla.fields == []
    modifies tabla
    ensures ok <==> ReadFields(header, sample, ColumnCount(header)).Success?
    ensures ok ==> tabla.fields == ReadFields(header, sample, ColumnCount(header)).value
  {
    var nCols := LastCellNum(header);
    var j := 0;
    while j < nCols
      invariant 0 <= j && (nCols >= 0 ==> j <= nCols) && (nCols < 0 ==> j == 0)
      invariant ReadFields(header, sample, j) == Success(tabla.fields)
    {
      var headerCell := GetCell(header, j);
      if headerCell.None? {
        assert ReadColumn(header, sample, j).Failure?;
        return false;
      }
      var text := StringCellValue(headerCell.value);
      if text.None? {
        assert ReadColumn(header, sample, j).Failure?;
        return false;
      }
      if sample.None? {
        assert ReadColumn(header, sample, j).Failure?;
        return false;
      }
      var campo := FieldModel(Some(text.value), Some(ClassifyCell(GetCell(sample.value, j))));
      tabla.AddField(campo);
      j := j + 1;
    }
    return true;
  }

  /**
   * One pass of the sheet loop of `loadWorkbook`: a new table named after the
   * sheet, its fields from rows 0 and 1, and the table appended to the model.
   * `ok` is false where the pass throws; the table is then discarded.
   */
  method LoadSheet(model: WorkbookModel, sheet: Sheet) returns (ok: bool)
    modifies model.tables
    ensures model.tables == old(model.tables)
    ensures ok <==> ReadTable(sheet).Success?
    ensures !ok ==> model.tables.elements == old(model.tables.elements)
    ensures ok ==> |model.tables.elements| == |old(model.tables.elements)| + 1
                   && model.tables.elements[..|old(model.tables.elements)|] == old(model.tables.elements)
                   && fresh(model.tables.elements[|old(model.tables.elements)|])
                   && model.tables.elements[|old(model.tables.elements)|].Schema() == ReadTable(sheet).value
  {
    var tabla := new TableModel(sheet.name);
    var primeraFila := GetRow(sheet, 0);
    var segundaFila := GetRow(sheet, 1);
    if primeraFila.None? {
      return false;
    }
    ok := AddColumns(tabla, primeraFila.value, segundaFila);
    if !ok {
      return false;
    }
    var _ := model.AddTable(tabla);
  }

  class ExcelReader {
    /** The last workbook file opened. */
    var wb: Option<SourceWorkbook>
    /** The model built from it. */
    var wbm: WorkbookModel?

    constructor ()
      ensures wb.None? && wbm == null
    {
      wb := None;
      wbm := null;
    }

    /**
     * `loadWorkbook(filename)`. `file` is what the library read from the file,
     * `None` when it could not be opened or parsed: then nothing changes.
     * Otherwise a new model holds the tables of `LoadTables`; an exception in
     * a sheet ends the load and keeps the tables appended before it.
     */
    method LoadWorkbook(file: Option<SourceWorkbook>)
      modifies this
      ensures file.None? ==> wb == old(wb) && wbm == old(wbm)
      ensures file.Some? ==> wb == file && wbm != null && fresh(wbm) && fresh(wbm.tables)
      ensures file.Some? ==>
                var loaded := LoadTables(file.value.sheets).tables;
                |wbm.tables.elements| == |loaded|
                && forall k :: 0 <= k < |loaded| ==>
                     fresh(wbm.tables.elements[k]) && wbm.tables.elements[k].Schema() == loaded[k]
    {
      if file.None? {
        return;
      }
      wb := file;
      var model := new WorkbookModel();
      wbm := model;
      var sheets := file.value.sheets;
      var i := 0;
      while i < |sheets|
        invariant 0 <= i <= |sheets|
        invariant wb == file && wbm == model && fresh(model) && fresh(model.tables)
        invariant |model.tables.elements| == i
        invariant forall k :: 0 <= k < i ==>
                    ReadTable(sheets[k]).Success? && fresh(model.tables.elements[k])
                    && model.tables.elements[k].Schema() == ReadTable(sheets[k]).value
      {
        var ok := LoadSheet(model, sheets[i]);
        if !ok {
          break;
        }
        i := i + 1;
      }
      assert i < |sheets| ==> ReadTable(sheets[i]).Failure?;
      LoadStopsAt(sheets, i);
    }
  }
}
