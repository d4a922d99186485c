/**
 * Reading an exported workbook back with the schema loader: the table names
 * and the column labels come back, and the first data row, standing where the
 * loader expects its sample row, decides the field types.
 */
module RoundTrip {
  import opened Wrappers
  import opened FieldTypes
  import opened Fields
  import opened Tables
  import opened SheetSource
  import opened ExcelReading
  import opened DatabaseExport

  /** A written cell as it reads back from the file; no date format is ever set on a written cell. */
  function ReadBackCell(c: OutCell): Cell
  {
    match c
    case BlankCell => Blank
    case NumericCell(v) => Numeric(v, false)
    case TextCell(t) => Text(t)
    case BooleanCell(b) => Bool(b)
  }

  function ReadBackRow(cells: seq<OutCell>): (row: Row)
    ensures |row| == |cells|
    ensures forall i :: 0 <= i < |row| ==> row[i] == Some(ReadBackCell(cells[i]))
  {
    seq(|cells|, i requires 0 <= i < |cells| => Some(ReadBackCell(cells[i])))
  }

  function ReadBackSheet(g: Grid): (s: Sheet)
    ensures s.name == g.name && |s.rows| == |g.rows|
    ensures forall k :: 0 <= k < |s.rows| ==> s.rows[k] == Some(ReadBackRow(g.rows[k]))
  {
    Sheet(g.name, seq(|g.rows|, k requires 0 <= k < |g.rows| => Some(ReadBackRow(g.rows[k]))))
  }

  /** The type the loader gives a column whose sample is an exported value. */
  function ExportedType(v: DbValue): FieldType
  {
    match v
    case SqlNull => UNKNOWN
    case Number(d) => if Abs(d - Floor(d)) < EPSILON then INTEGER else DECIMAL
    case SqlDate(_) => STRING
    case Timestamp(_) => STRING
    case Boolean(_) => BOOLEAN
    case OtherObject(_) => STRING
  }

  /**
   * Per value: numbers keep a numeric type, booleans stay BOOLEAN, null
   * becomes UNKNOWN, and dates and timestamps widen to STRING.
   */
  lemma CellTypeRoundTrip(v: DbValue)
    ensures ClassifyCell(Some(ReadBackCell(CellFor(v)))) == ExportedType(v)
    ensures ExportedType(v).IsNumeric() <==> v.Number?
    ensures ExportedType(v) == STRING <==> v.SqlDate? || v.Timestamp? || v.OtherObject?
  {
  }

  /** Row 0 of a read-back sheet: one text cell per label, so the loader sees every label as a column name. */
  lemma ReadBackHeader(e: CatalogEntry)
    requires WellFormed(e)
    ensures GetRow(ReadBackSheet(TableGrid(e)), 0) == Some(ReadBackRow(HeaderCells(e.labels)))
    ensures ColumnCount(ReadBackRow(HeaderCells(e.labels))) == |e.labels|
    ensures forall j :: 0 <= j < |e.labels| ==> HeaderName(ReadBackRow(HeaderCells(e.labels)), j) == Success(e.labels[j])
  {
    var header := ReadBackRow(HeaderCells(e.labels));
    if |e.labels| > 0 {
      assert header[|header| - 1].Some?;
    }
    forall j | 0 <= j < |e.labels|
      ensures HeaderName(header, j) == Success(e.labels[j])
    {
      assert header[j] == Some(Text(e.labels[j]));
    }
  }

  /** Row 1 of a read-back sheet with rows: column j is read as label j typed by the first row's value j. */
  lemma ReadBackSample(e: CatalogEntry)
    requires WellFormed(e) && |e.rows| > 0
    ensures GetRow(ReadBackSheet(TableGrid(e)), 1) == Some(ReadBackRow(DataCells(e.rows[0])))
    ensures forall j :: 0 <= j < |e.labels| ==>
              ReadColumn(ReadBackRow(HeaderCells(e.labels)), Some(ReadBackRow(DataCells(e.rows[0]))), j)
              == Success(FieldModel(Some(e.labels[j]), Some(ExportedType(e.rows[0][j]))))
  {
    ReadBackHeader(e);
    var sample := ReadBackRow(DataCells(e.rows[0]));
    forall j | 0 <= j < |e.labels|
      ensures ClassifyCell(GetCell(sample, j)) == ExportedType(e.rows[0][j])
    {
      assert GetCell(sample, j) == Some(ReadBackCell(CellFor(e.rows[0][j])));
      CellTypeRoundTrip(e.rows[0][j]);
    }
  }

  /**
   * One table: its name and labels come back as the table and field names.
   * A table with columns but no rows cannot be read back, since row 1 is
   * missing; otherwise field j is typed by the first row's value j.
   */
  lemma TableRoundTrip(e: CatalogEntry)
    requires WellFormed(e)
    ensures |e.labels| == 0 ==> ReadTable(ReadBackSheet(TableGrid(e))) == Success(TableSchema(e.name, []))
    ensures |e.labels| > 0 && |e.rows| == 0 ==> ReadTable(ReadBackSheet(TableGrid(e))) == Failure(MissingSampleRow)
    ensures |e.labels| > 0 && |e.rows| > 0 ==>
              var r := ReadTable(ReadBackSheet(TableGrid(e)));
              r.Success? && r.value.name == e.name && |r.value.fields| == |e.labels|
              && forall j :: 0 <= j < |e.labels| ==>
                   r.value.fields[j] == FieldModel(Some(e.labels[j]), Some(ExportedType(e.rows[0][j])))
  {
    var s := ReadBackSheet(TableGrid(e));
    var header := ReadBackRow(HeaderCells(e.labels));
    ReadBackHeader(e);
    if |e.labels| > 0 {
      if |e.rows| == 0 {
        assert GetRow(s, 1).None?;
        assert ReadColumn(header, None, 0) == Failure(MissingSampleRow);
      } else {
        ReadBackSample(e);
      }
    }
  }

  /** Whether the loader can read a table's sheet back. */
  predicate ReadsBack(e: CatalogEntry)
  {
    |e.labels| == 0 || |e.rows| > 0
  }

  function ReadBackAll(sheets: seq<Grid>): (ss: seq<Sheet>)
    ensures |ss| == |sheets|
    ensures forall k :: 0 <= k < |ss| ==> ss[k] == ReadBackSheet(sheets[k])
  {
    seq(|sheets|, k requires 0 <= k < |sheets| => ReadBackSheet(sheets[k]))
  }

  /** A table's sheet reads back exactly when the table `ReadsBack`, and then with its name and column count. */
  lemma TableReadsBack(e: CatalogEntry)
    requires WellFormed(e)
    ensures ReadTable(ReadBackSheet(TableGrid(e))).Success? <==> ReadsBack(e)
    ensures ReadsBack(e) ==>
              ReadTable(ReadBackSheet(TableGrid(e))).value.name == e.name
              && |ReadTable(ReadBackSheet(TableGrid(e))).value.fields| == |e.labels|
  {
    TableRoundTrip(e);
  }

  /** Loading sheets that are read-back table sheets, whatever sequence of tables they come from. */
  lemma LoadReadBackSheets(bs: Catalog, sheets: seq<Sheet>)
    requires forall k :: 0 <= k < |bs| ==> WellFormed(bs[k])
    requires |sheets| == |bs|
    requires forall k :: 0 <= k < |bs| ==> sheets[k] == ReadBackSheet(TableGrid(bs[k]))
    ensures LoadTables(sheets).failure.None? <==> forall k :: 0 <= k < |bs| ==> ReadsBack(bs[k])
    ensures |LoadTables(sheets).tables| <= |bs|
    ensures forall k :: 0 <= k < |LoadTables(sheets).tables| ==>
              LoadTables(sheets).tables[k].name == bs[k].name
              && |LoadTables(sheets).tables[k].fields| == |bs[k].labels|
  {
    forall k | 0 <= k < |bs|
      ensures ReadTable(sheets[k]).Success? <==> ReadsBack(bs[k])
      ensures ReadsBack(bs[k]) ==>
                ReadTable(sheets[k]).value.name == bs[k].name
                && |ReadTable(sheets[k]).value.fields| == |bs[k].labels|
    {
      TableReadsBack(bs[k]);
    }
    LoadSucceedsIff(sheets);
    var out := LoadTables(sheets);
    forall k | 0 <= k < |out.tables|
      ensures out.tables[k].name == bs[k].name && |out.tables[k].fields| == |bs[k].labels|
    {
      assert ReadTable(sheets[k]) == Success(out.tables[k]);
    }
  }

  /** The exported sheets, read back, are the read-back sheets of the base tables. */
  lemma ExportedSheets(c: Catalog)
    requires forall e :: e in c ==> WellFormed(e)
    ensures forall k :: 0 <= k < |BaseTables(c)| ==> WellFormed(BaseTables(c)[k])
    ensures |ReadBackAll(ExportCatalog(c))| == |BaseTables(c)|
    ensures forall k :: 0 <= k < |BaseTables(c)| ==>
              ReadBackAll(ExportCatalog(c))[k] == ReadBackSheet(TableGrid(BaseTables(c)[k]))
  {
    var bs := BaseTables(c);
    forall k | 0 <= k < |bs|
      ensures WellFormed(bs[k])
    {
      assert bs[k] in c;
    }
  }

  /**
   * The whole catalog: loading the exported workbook gives back one table per
   * base table, with its name and one field per column, exactly when every
   * base table `ReadsBack`; otherwise the load stops at the first one that
   * does not.
   */
  lemma CatalogRoundTrip(c: Catalog)
    requires forall e :: e in c ==> WellFormed(e)
    ensures var bs := BaseTables(c);
            var out := LoadTables(ReadBackAll(ExportCatalog(c)));
            (out.failure.None? <==> forall k :: 0 <= k < |bs| ==> ReadsBack(bs[k]))
            && |out.tables| <= |bs|
            && forall k :: 0 <= k < |out.tables| ==>
                 out.tables[k].name == bs[k].name && |out.tables[k].fields| == |bs[k].labels|
  {
    ExportedSheets(c);
    LoadReadBackSheets(BaseTables(c), ReadBackAll(ExportCatalog(c)));
  }
}
