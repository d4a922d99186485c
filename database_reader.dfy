/**
 * Export of a database to a spreadsheet: one sheet per base table, the column
 * labels in row 0 and the result rows from row 1 on.
 */
module DatabaseExport {
  import opened Wrappers

  /**
   * A value as `ResultSet.getObject` returns it. A number carries what its
   * `doubleValue()` gives, a date and a timestamp the ISO text their
   * `toLocalDate().toString()` and `toLocalDateTime().toString()` give, and
   * any other object the text of its `toString()`.
   */
  datatype DbValue =
    | SqlNull
    | Number(doubleValue: real)
    | SqlDate(isoDate: string)
    | Timestamp(isoDateTime: string)
    | Boolean(b: bool)
    | OtherObject(text: string)

  /** The table type the catalog reports; only "TABLE" is exported. */
  datatype TableKind = BaseTable | View | SystemTable | OtherKind

  /** A table of the catalog with the labels and rows of `SELECT *` on it. */
  datatype CatalogEntry = CatalogEntry(name: string, kind: TableKind, labels: seq<string>, rows: seq<seq<DbValue>>)

  type Catalog = seq<CatalogEntry>

  /** Every result row has one value per column, as a JDBC result set does. */
  predicate WellFormed(e: CatalogEntry)
  {
    forall k :: 0 <= k < |e.rows| ==> |e.rows[k]| == |e.labels|
  }

  /** A written spreadsheet cell. `createCell` makes a blank one. */
  datatype OutCell = BlankCell | NumericCell(v: real) | TextCell(text: string) | BooleanCell(b: bool)

  /** A written sheet: its name and its rows from row 0 on. */
  datatype Grid = Grid(name: string, rows: seq<seq<OutCell>>)

  /**
   * `setCellValue(cell, value)` on a cell just created: null leaves it blank,
   * a number makes it numeric, a boolean makes it boolean, and everything else
   * (dates and timestamps as ISO text) makes it text.
   */
  function CellFor(value: DbValue): (c: OutCell)
    ensures c.BlankCell? <==> value.SqlNull?
    ensures c.NumericCell? <==> value.Number?
    ensures c.BooleanCell? <==> value.Boolean?
    ensures c.TextCell? <==> value.SqlDate? || value.Timestamp? || value.OtherObject?
    ensures value.Number? ==> c.v == value.doubleValue
    ensures value.Boolean? ==> c.b == value.b
    ensures value.SqlDate? ==> c.text == value.isoDate
    ensures value.Timestamp? ==> c.text == value.isoDateTime
    ensures value.OtherObject? ==> c.text == value.text
  {
    match value
    case SqlNull => BlankCell
    case Number(d) => NumericCell(d)
    case SqlDate(iso) => TextCell(iso)
    case Timestamp(iso) => TextCell(iso)
    case Boolean(b) => BooleanCell(b)
    case OtherObject(text) => TextCell(text)
  }

  /** Row 0: cell i holds label i (the label of JDBC column i + 1) as text. */
  function HeaderCells(labels: seq<string>): (cells: seq<OutCell>)
    ensures |cells| == |labels|
    ensures forall i :: 0 <= i < |labels| ==> cells[i].TextCell? && cells[i].text == labels[i]
  {
    seq(|labels|, i requires 0 <= i < |labels| => TextCell(labels[i]))
  }

  /** A data row: cell i comes from the value of JDBC column i + 1. */
  function DataCells(row: seq<DbValue>): (cells: seq<OutCell>)
    ensures |cells| == |row|
    ensures forall i :: 0 <= i < |row| ==> (cells[i].BlankCell? <==> row[i].SqlNull?)
    ensures forall i :: 0 <= i < |row| ==> cells[i] == CellFor(row[i])
  {
    seq(|row|, i requires 0 <= i < |row| => CellFor(row[i]))
  }

  /** The sheet `exportTable` writes for one table. */
  function TableGrid(e: CatalogEntry): (g: Grid)
    requires WellFormed(e)
    ensures g.name == e.name
    ensures |g.rows| == |e.rows| + 1
    ensures g.rows[0] == HeaderCells(e.labels)
    ensures forall k :: 1 <= k < |g.rows| ==> |g.rows[k]| == |e.labels|
    ensures forall k, i :: 0 <= k < |e.rows| && 0 <= i < |e.labels| ==> g.rows[k + 1][i] == CellFor(e.rows[k][i])
  {
    Grid(e.name, [HeaderCells(e.labels)] + seq(|e.rows|, k requires 0 <= k < |e.rows| => DataCells(e.rows[k])))
  }

  /** The base tables of the catalog, in catalog order. */
  function BaseTables(c: Catalog): (bs: Catalog)
    ensures |bs| <= |c|
    ensures forall e :: e in bs <==> e in c && e.kind == BaseTable
  {
    if |c| == 0 then []
    else if c[|c| - 1].kind == BaseTable then BaseTables(c[..|c| - 1]) + [c[|c| - 1]]
    else BaseTables(c[..|c| - 1])
  }

  /** Filtering distributes over concatenation: the base tables keep their relative order. */
  lemma {:induction false} BaseTablesAppend(c: Catalog, d: Catalog)
    ensures BaseTables(c + d) == BaseTables(c) + BaseTables(d)
    decreases |d|
  {
    if |d| == 0 {
      assert c + d == c;
    } else {
      var d' := d[..|d| - 1];
      assert (c + d)[..|c + d| - 1] == c + d';
      assert (c + d)[|c + d| - 1] == d[|d| - 1];
      BaseTablesAppend(c, d');
    }
  }

  /** A catalog of base tables only is exported whole. */
  lemma {:induction false} AllBaseTablesKept(c: Catalog)
    requires forall k :: 0 <= k < |c| ==> c[k].kind == BaseTable
    ensures BaseTables(c) == c
  {
    if |c| > 0 {
      AllBaseTablesKept(c[..|c| - 1]);
      assert c[..|c| - 1] + [c[|c| - 1]] == c;
    }
  }

  /** The sheets `readDatabase` writes: one per base table, in catalog order. */
  function ExportCatalog(c: Catalog): (sheets: seq<Grid>)
    requires forall e :: e in c ==> WellFormed(e)
    ensures |sheets| == |BaseTables(c)|
    ensures forall k :: 0 <= k < |sheets| ==> sheets[k] == TableGrid(BaseTables(c)[k])
    ensures forall k :: 0 <= k < |sheets| ==> sheets[k].name == BaseTables(c)[k].name
  {
    var bs := BaseTables(c);
    seq(|bs|, k requires 0 <= k < |bs| => TableGrid(bs[k]))
  }

  /** One more catalog entry adds its sheet exactly when it is a base table. */
  lemma ExportCatalogStep(c: Catalog, i: nat)
    requires forall e :: e in c ==> WellFormed(e)
    requires i < |c|
    ensures ExportCatalog(c[..i + 1])
            == ExportCatalog(c[..i]) + (if c[i].kind == BaseTable then [TableGrid(c[i])] else [])
  {
    assert c[..i + 1][..i] == c[..i];
    assert c[..i + 1][i] == c[i];
  }

  /** The workbook the export writes into. */
  class OutputWorkbook {
    var sheets: seq<Grid>

    constructor ()
      ensures sheets == []
    {
      sheets := [];
    }
  }

  /**
   * `exportTable(workbook, connection, tableName)`: adds the table's sheet.
   * The header loop writes the labels into row 0; the `rs.next()` loop
   * writes the k-th result row into row k + 1, one cell per column.
   */
  method ExportTable(workbook: OutputWorkbook, e: CatalogEntry)
    requires WellFormed(e)
    modifies workbook
    ensures workbook.sheets == old(workbook.sheets) + [TableGrid(e)]
  {
    var columnCount := |e.labels|;
    var headerRow: seq<OutCell> := [];
    var i := 1;
    while i <= columnCount
      invariant 1 <= i <= columnCount + 1
      invariant |headerRow| == i - 1
      invariant forall m :: 0 <= m < i - 1 ==> headerRow[m] == TextCell(e.labels[m])
    {
      headerRow := headerRow + [TextCell(e.labels[i - 1])];
      i := i + 1;
    }
    var rows := [headerRow];
    var rowIndex := 1;
    var next := 0;
    while next < |e.rows|
      invariant 0 <= next <= |e.rows|
      invariant rowIndex == next + 1 && |rows| == rowIndex
      invariant rows[0] == HeaderCells(e.labels)
      invariant forall k :: 1 <= k < rowIndex ==> rows[k] == DataCells(e.rows[k - 1])
    {
      var values := e.rows[next];
      var dataRow: seq<OutCell> := [];
      i := 1;
      while i <= columnCount
        invariant 1 <= i <= columnCount + 1
        invariant |dataRow| == i - 1
        invariant forall m :: 0 <= m < i - 1 ==> dataRow[m] == CellFor(values[m])
      {
        dataRow := dataRow + [CellFor(values[i - 1])];
        i := i + 1;
      }
      rows := rows + [dataRow];
      rowIndex := rowIndex + 1;
      next := next + 1;
    }
    assert rows == TableGrid(e).rows;
    workbook.sheets := workbook.sheets + [Grid(e.name, rows)];
  }

  /** Why no workbook was produced. */
  datatype DbError = NoConnection

  /**
   * `readDatabase()`. `connection` is the catalog the connection shows,
   * `None` when no connection could be obtained: that raises an error and no
   * workbook is produced.
   */
  method ReadDatabase(connection: Option<Catalog>) returns (r: Result<OutputWorkbook, DbError>)
    requires connection.Some? ==> forall e :: e in connection.value ==> WellFormed(e)
    ensures r.Failure? <==> connection.None?
    ensures r.Success? ==> fresh(r.value) && r.value.sheets == ExportCatalog(connection.value)
  {
    if connection.None? {
      return Failure(NoConnection);
    }
    var catalog := connection.value;
    var workbook := new OutputWorkbook();
    var i := 0;
    while i < |catalog|
      invariant 0 <= i <= |catalog|
      invariant fresh(workbook)
      invariant workbook.sheets == ExportCatalog(catalog[..i])
    {
      var entry := catalog[i];
      ExportCatalogStep(catalog, i);
      if entry.kind == BaseTable {
        ExportTable(workbook, entry);
      }
      i := i + 1;
    }
    assert catalog[..i] == catalog;
    return Success(workbook);
  }
}
