# excel2database: schema inference and table export, modelled in Dafny

This project models the core of excel2database, a Java tool that moves tables
between spreadsheet workbooks and a relational database. The model covers
two paths:

- **Sheet to schema.** `ExcelReader.loadWorkbook` turns each sheet of a workbook into a
  table of an in-memory `WorkbookModel`. Row 0 names the fields. Row 1 holds one
  sample cell per column, and `getTipoDato` classifies that cell to fix the
  field's type.
- **Table to sheet.** `DatabaseReader.readDatabase` writes one sheet per base
  table. The column labels go in row 0 and the result rows go in row 1 onward.
  `setCellValue` maps each value to a cell kind.

The model also includes the schema classes `FieldType`, `FieldModel`,
`TableModel` and `WorkbookModel`. A further module reads an exported sheet
back with the loader, which connects the two paths.

Modules, one per file:

- `Wrappers` (`wrappers.dfy`): `Option` and `Result`. `None` also stands for Java `null`.
- `FieldTypes` (`field_type.dfy`): the six-constant enum, `isNumeric`, and the implicit `values()`, `ordinal()` and `toString()`.
- `Fields` (`field_model.dfy`): `FieldModel` as an immutable value with nullable name and type. It has the three constructors, the getters, `equals` and `toString`.
- `Tables` (`table_model.dfy`): `TableModel` as a class with a constant name and a field list that only grows.
- `Lists` (`java_list.dfy`): a `java.util.List` as an object, so that sharing one list is visible.
- `Workbooks` (`workbook_model.dfy`): `WorkbookModel` as a class that holds a list object. It adopts a list by reference, hands the same list out, compares lists element by element and prints them.
- `SheetSource` (`sheet_source.dfy`): the spreadsheet library's read side as the loader uses it: `getRow`, `getCell`, `getLastCellNum` and `getStringCellValue`.
- `ExcelReading` (`excel_reader.dfy`): `getTipoDato` and `loadWorkbook`. Pure specification functions (`ReadTable`, `LoadTables`) describe the result. The `ExcelReader` class and its loops are proved against them.
- `DatabaseExport` (`database_reader.dfy`): `setCellValue`, `exportTable` and `readDatabase`. The catalog is an abstract value (names, table kinds, labels, rows). Specification functions (`TableGrid`, `ExportCatalog`) describe the sheets that the loops write.
- `RoundTrip` (`round_trip.dfy`): reads an exported sheet back with the loader's specification. It shows which table and field names come back, which types come back and when the load fails.

The model follows the code in these points:

- The integrality test compares a number with its floor (`Math.floor`), not with the nearest whole number. The tolerance is therefore one-sided: `JustBelowWholeIsDecimal` shows a number just below a whole number that is classified DECIMAL.
- The type constants are `INTEGER, DECIMAL, STRING, DATE, BOOLEAN, UNKNOWN`. There is no mapping to SQL types.
- The loader reads only rows 0 and 1. It does not read data rows, coerce values or filter empty rows.
- The export puts data in row 1. The class comment of `DatabaseReader` says that row 1 holds the SQL types, but the code writes no such row.
- The export writes no types, so a round trip re-infers each type from the first data row. Dates come back as STRING, and a table with columns but no rows cannot be loaded back.

`TableModel`'s constructor and `addField` are called by the loader but are not defined in `TableModel.java`. They are modelled in the obvious minimal way: the constructor stores the name and starts with an empty list, and `addField` appends.

## Model

| member | source | states |
|---|---|---|
| `FieldTypes.Values` | src/main/java/com/iesvdc/dam/acceso/modelo/FieldType.java:6-12 | there are exactly six constants, all distinct, and each one sits at its ordinal position |
| `FieldTypes.Ordinal` | src/main/java/com/iesvdc/dam/acceso/modelo/FieldType.java:6-12 | every constant has a declaration position below six |
| `FieldTypes.FieldType.IsNumeric` | src/main/java/com/iesvdc/dam/acceso/modelo/FieldType.java:18-20 | the numeric types are exactly the first two constants declared |
| `FieldTypes.IsNumericExactly` | src/main/java/com/iesvdc/dam/acceso/modelo/FieldType.java:18-20 | `isNumeric` holds for INTEGER and DECIMAL and for no other constant |
| `FieldTypes.NameInjective` | src/main/java/com/iesvdc/dam/acceso/modelo/FieldType.java:6-12 | distinct constants print distinct names |
| `Fields.NewField` | src/main/java/com/iesvdc/dam/acceso/modelo/FieldModel.java:14-17 | the no-argument constructor gives name "" and type UNKNOWN |
| `Fields.NewNamedField` | src/main/java/com/iesvdc/dam/acceso/modelo/FieldModel.java:19-22 | the name-only constructor keeps the name, and the getters report type UNKNOWN |
| `Fields.NewTypedField` | src/main/java/com/iesvdc/dam/acceso/modelo/FieldModel.java:24-36 | the getters return exactly the name and type given to the two-argument constructor |
| `Fields.GetName` | src/main/java/com/iesvdc/dam/acceso/modelo/FieldModel.java:29-31 | the name the field was built with, null included |
| `Fields.GetType` | src/main/java/com/iesvdc/dam/acceso/modelo/FieldModel.java:34-36 | the type the field was built with, null included |
| `Fields.ConstructorGetters` | src/main/java/com/iesvdc/dam/acceso/modelo/FieldModel.java:24-36 | rebuilding a field from its getters gives an equal field; nothing is lost in construction |
| `Fields.Equals` | src/main/java/com/iesvdc/dam/acceso/modelo/FieldModel.java:39-48 | `equals` is true exactly for another field with the same (null-safe) name and the same type |
| `Fields.EqualsReflexive` | src/main/java/com/iesvdc/dam/acceso/modelo/FieldModel.java:41-42 | every field equals itself |
| `Fields.EqualsSymmetric` | src/main/java/com/iesvdc/dam/acceso/modelo/FieldModel.java:46-47 | `equals` gives the same answer in both directions |
| `Fields.EqualsNotOtherObjects` | src/main/java/com/iesvdc/dam/acceso/modelo/FieldModel.java:43-45 | `equals` is false for null and for objects of another class |
| `Fields.ToString` | src/main/java/com/iesvdc/dam/acceso/modelo/FieldModel.java:51-56 | the text is `{ name='`, the name ("null" for a null name), `', type='`, the type's name (or "null") and `'}`, in that order, with nothing else |
| `Fields.ToStringInjective` | src/main/java/com/iesvdc/dam/acceso/modelo/FieldModel.java:51-56 | for non-null names, two fields print the same text exactly when they are equal |
| `Fields.NullNamePrintsLikeNullText` | src/main/java/com/iesvdc/dam/acceso/modelo/FieldModel.java:51-56 | a null name and the name "null" print the same text, yet the fields are not equal |
| `Tables.TableModel.constructor` | src/main/java/com/iesvdc/dam/acceso/modelo/TableModel.java:10-11 | a new table stores the given name, which is constant, and has no fields |
| `Tables.TableModel.AddField` | src/main/java/com/iesvdc/dam/acceso/excelutil/ExcelReader.java:85 | appending grows the field list by exactly the given field at the end and keeps earlier fields |
| `Lists.JavaList.Add` | src/main/java/com/iesvdc/dam/acceso/modelo/WorkbookModel.java:23-25 | `add` appends at the end and reports true |
| `Lists.JavaList.ListEquals` | src/main/java/com/iesvdc/dam/acceso/modelo/WorkbookModel.java:40 | two lists are equal exactly when they hold the same elements position by position |
| `Lists.ListText` | src/main/java/com/iesvdc/dam/acceso/modelo/WorkbookModel.java:44-49 | a list prints between brackets: an empty list prints "[]" and a one-element list prints its element's text between brackets |
| `Lists.JoinAppend` | src/main/java/com/iesvdc/dam/acceso/modelo/WorkbookModel.java:44-49 | the joined texts of a longer list are those of the shorter list, then ", ", then the new element's text |
| `Lists.ListTextAppend` | src/main/java/com/iesvdc/dam/acceso/modelo/WorkbookModel.java:44-49 | a list with one more element prints like the shorter list with ", " and the new text put before "]"; with the two cases of `ListText` this fixes the text of every list: element texts in order, separated by ", " |
| `Workbooks.WorkbookModel.constructor` | src/main/java/com/iesvdc/dam/acceso/modelo/WorkbookModel.java:12-17 | a default workbook has a fresh, empty table list |
| `Workbooks.WorkbookModel.FromList` | src/main/java/com/iesvdc/dam/acceso/modelo/WorkbookModel.java:19-21 | the list constructor adopts the caller's list object itself |
| `Workbooks.WorkbookModel.AddTable` | src/main/java/com/iesvdc/dam/acceso/modelo/WorkbookModel.java:23-25 | `addTable` keeps the same list, appends the table at the end, grows the list by one, keeps earlier tables and returns true |
| `Workbooks.WorkbookModel.GetTables` | src/main/java/com/iesvdc/dam/acceso/modelo/WorkbookModel.java:27-29 | `getTables` returns the stored list object, not a copy |
| `Workbooks.WorkbookModel.Equals` | src/main/java/com/iesvdc/dam/acceso/modelo/WorkbookModel.java:32-41 | two workbooks are equal exactly when their table lists hold the same table objects position by position |
| `Workbooks.WorkbookModel.ToString` | src/main/java/com/iesvdc/dam/acceso/modelo/WorkbookModel.java:44-49 | a workbook without tables prints `{ tables='[]'}`, and one with a single table prints that table's text between `{ tables='[` and `]'}` |
| `Workbooks.TextsAppend` | src/main/java/com/iesvdc/dam/acceso/modelo/WorkbookModel.java:44-49 | one more table adds its text at the end of the list of table texts |
| `Workbooks.TextAfterAdd` | src/main/java/com/iesvdc/dam/acceso/modelo/WorkbookModel.java:44-49 | a workbook with one more table prints like the workbook before it with ", " and the new table's text put before `]'}`; with the two cases of `ToString` this fixes the text of every workbook |
| `Workbooks.WorkbookEqualsReflexive` | src/main/java/com/iesvdc/dam/acceso/modelo/WorkbookModel.java:34-38 | a workbook equals itself and never equals null or an object of another class |
| `Workbooks.EqualsThenSameText` | src/main/java/com/iesvdc/dam/acceso/modelo/WorkbookModel.java:40-48 | equal workbooks print the same text |
| `Workbooks.AddThroughGetTables` | src/main/java/com/iesvdc/dam/acceso/modelo/WorkbookModel.java:27-29 | a table added to the list that `getTables` returned is a table of the workbook |
| `Workbooks.SharedListIsShared` | src/main/java/com/iesvdc/dam/acceso/modelo/WorkbookModel.java:19-25 | two workbooks built on one list share it, see each other's additions and are equal |
| `SheetSource.GetRow` | src/main/java/com/iesvdc/dam/acceso/excelutil/ExcelReader.java:71-74 | a row index past the end of the sheet gives no row |
| `SheetSource.GetCell` | src/main/java/com/iesvdc/dam/acceso/excelutil/ExcelReader.java:81-82 | a column index past the end of the row gives no cell |
| `SheetSource.LastCellNum` | src/main/java/com/iesvdc/dam/acceso/excelutil/ExcelReader.java:77 | the column count is -1 exactly for a row with no cells, and otherwise one past the last present cell |
| `SheetSource.StringCellValue` | src/main/java/com/iesvdc/dam/acceso/excelutil/ExcelReader.java:81 | reading a header cell as text gives the text of a text cell, "" for a blank cell and the cached text of a text formula, and fails exactly for number, boolean, error and non-text formula cells |
| `ExcelReading.ClassifyCell` | src/main/java/com/iesvdc/dam/acceso/excelutil/ExcelReader.java:29-56 | the type is numeric exactly for non-date numeric cells; UNKNOWN exactly for absent, blank, formula and error cells; STRING exactly for text; BOOLEAN exactly for booleans; DATE exactly for date-formatted numbers |
| `ExcelReading.NumericIntegrality` | src/main/java/com/iesvdc/dam/acceso/excelutil/ExcelReader.java:41-47 | a non-date number is INTEGER exactly when it lies less than 1e-10 above its floor, and DECIMAL otherwise |
| `ExcelReading.DateBeforeIntegrality` | src/main/java/com/iesvdc/dam/acceso/excelutil/ExcelReader.java:38-44 | a date-formatted whole number is DATE, and the same number without a date format is INTEGER |
| `ExcelReading.JustBelowWholeIsDecimal` | src/main/java/com/iesvdc/dam/acceso/excelutil/ExcelReader.java:43 | a number within 1e-10 below a whole number is DECIMAL, because the test uses the floor |
| `ExcelReading.ColumnCount` | src/main/java/com/iesvdc/dam/acceso/excelutil/ExcelReader.java:77-78 | the loop visits no column exactly when the header row has no cell; otherwise it visits up to and including the last header cell present, and no cell lies past it |
| `ExcelReading.HeaderName` | src/main/java/com/iesvdc/dam/acceso/excelutil/ExcelReader.java:81 | a missing header cell (including one past the row's end) fails with its column; a present cell gives its text exactly when it can be read as text, and a blank cell gives "" |
| `ExcelReading.ReadColumn` | src/main/java/com/iesvdc/dam/acceso/excelutil/ExcelReader.java:79-83 | the name is read before the sample row is touched: a header error wins, a missing row 1 then fails, and otherwise the field is named by header cell j and typed by row 1's cell j |
| `ExcelReading.ReadFields` | src/main/java/com/iesvdc/dam/acceso/excelutil/ExcelReader.java:78-88 | on success, one field per column in column order; otherwise the error of the first column that fails |
| `ExcelReading.ReadTable` | src/main/java/com/iesvdc/dam/acceso/excelutil/ExcelReader.java:66-89 | a sheet is read exactly when row 0 exists, row 1 exists if the header has cells, and every header cell up to the last reads as text; a missing row 0 fails. Otherwise the table is named after the sheet and has as many fields as the header's cell count. Field j is named by header cell j and typed by row 1's cell j, and row 1 must exist when there are columns |
| `ExcelReading.FieldsDescribeColumns` | src/main/java/com/iesvdc/dam/acceso/excelutil/ExcelReader.java:79-85 | in a successful read, field j is named by header cell j and typed by sample cell j, and the sample row exists |
| `ExcelReading.EmptyHeaderNeedsNoSample` | src/main/java/com/iesvdc/dam/acceso/excelutil/ExcelReader.java:74-78 | a header row without cells gives a table without fields even when row 1 is absent |
| `ExcelReading.MissingSampleFails` | src/main/java/com/iesvdc/dam/acceso/excelutil/ExcelReader.java:74-82 | a header with a text cell and no row 1 fails with the missing sample row |
| `ExcelReading.OnlyFirstTwoRowsRead` | src/main/java/com/iesvdc/dam/acceso/excelutil/ExcelReader.java:71-74 | replacing every row after row 1 does not change the table |
| `ExcelReading.LoadTables` | src/main/java/com/iesvdc/dam/acceso/excelutil/ExcelReader.java:61-97 | each kept table is the reading of the sheet at its position. With no error there is one table per sheet; with an error, the sheet just after the kept tables is the one that failed |
| `ExcelReading.LoadSucceedsIff` | src/main/java/com/iesvdc/dam/acceso/excelutil/ExcelReader.java:63-68 | the load has no error exactly when every sheet can be read, and then gives one table per sheet named after it, in sheet order |
| `ExcelReading.LoadStopsAt` | src/main/java/com/iesvdc/dam/acceso/excelutil/ExcelReader.java:64-97 | if sheets before i can be read and sheet i cannot, exactly the tables of the sheets before i remain |
| `ExcelReading.AddColumns` | src/main/java/com/iesvdc/dam/acceso/excelutil/ExcelReader.java:76-88 | the column loop completes exactly when the fields can be read, and the table then holds exactly those fields |
| `ExcelReading.LoadSheet` | src/main/java/com/iesvdc/dam/acceso/excelutil/ExcelReader.java:64-90 | one pass of the sheet loop appends exactly one fresh table, equal to the sheet's reading, when the sheet can be read; otherwise the table list is unchanged |
| `ExcelReading.ExcelReader.constructor` | src/main/java/com/iesvdc/dam/acceso/excelutil/ExcelReader.java:18-23 | a new reader has no workbook and no model |
| `ExcelReading.ExcelReader.LoadWorkbook` | src/main/java/com/iesvdc/dam/acceso/excelutil/ExcelReader.java:58-98 | a file that cannot be opened changes nothing. Otherwise the reader holds a new model whose tables are fresh objects equal to `LoadTables`' result; tables read before a failing sheet stay |
| `DatabaseExport.CellFor` | src/main/java/com/iesvdc/dam/acceso/databaseutil/DatabaseReader.java:128-145 | null leaves the cell blank; numbers give numeric cells with `doubleValue`; booleans give boolean cells; dates and timestamps give their ISO text; every other value gives a text cell holding its `toString()` text |
| `DatabaseExport.HeaderCells` | src/main/java/com/iesvdc/dam/acceso/databaseutil/DatabaseReader.java:103-108 | row 0 has one text cell per column, cell i holding the label of column i+1 |
| `DatabaseExport.DataCells` | src/main/java/com/iesvdc/dam/acceso/databaseutil/DatabaseReader.java:112-117 | a data row has one cell per column, blank exactly where the value is null, cell i written by `setCellValue` from column i+1 |
| `DatabaseExport.TableGrid` | src/main/java/com/iesvdc/dam/acceso/databaseutil/DatabaseReader.java:103-118 | the sheet is named after the table. Row 0 holds the labels, and result row k is sheet row k+1, so there is no types row. Every data row has one cell per column, cell i coming from column i+1 |
| `DatabaseExport.BaseTables` | src/main/java/com/iesvdc/dam/acceso/databaseutil/DatabaseReader.java:51-55 | exactly the catalog entries of kind TABLE are exported |
| `DatabaseExport.BaseTablesAppend` | src/main/java/com/iesvdc/dam/acceso/databaseutil/DatabaseReader.java:51-55 | the table filter keeps catalog order: filtering a concatenation concatenates the filtered parts |
| `DatabaseExport.AllBaseTablesKept` | src/main/java/com/iesvdc/dam/acceso/databaseutil/DatabaseReader.java:51-54 | a catalog of base tables only is exported whole, in order |
| `DatabaseExport.ExportCatalog` | src/main/java/com/iesvdc/dam/acceso/databaseutil/DatabaseReader.java:51-58 | one sheet per base table, in catalog order, named after the table and laid out by `TableGrid` |
| `DatabaseExport.ExportCatalogStep` | src/main/java/com/iesvdc/dam/acceso/databaseutil/DatabaseReader.java:52-55 | one more catalog entry adds its sheet at the end exactly when it is a base table |
| `DatabaseExport.OutputWorkbook.constructor` | src/main/java/com/iesvdc/dam/acceso/databaseutil/DatabaseReader.java:47 | a new workbook has no sheets |
| `DatabaseExport.ExportTable` | src/main/java/com/iesvdc/dam/acceso/databaseutil/DatabaseReader.java:94-120 | the header loop and the row loop append exactly the sheet `TableGrid` describes, and nothing else changes |
| `DatabaseExport.ReadDatabase` | src/main/java/com/iesvdc/dam/acceso/databaseutil/DatabaseReader.java:41-60 | no connection gives an error and no workbook; otherwise a new workbook whose sheets are `ExportCatalog` of the catalog |
| `RoundTrip.CellTypeRoundTrip` | src/main/java/com/iesvdc/dam/acceso/databaseutil/DatabaseReader.java:134-143 | an exported value read back as a sample cell gives a numeric type exactly for numbers, BOOLEAN for booleans, UNKNOWN for null, and STRING for dates, timestamps and other objects |
| `RoundTrip.ReadBackHeader` | src/main/java/com/iesvdc/dam/acceso/databaseutil/DatabaseReader.java:103-108 | the exported header row, read back, has one column per label and each column is named by its label |
| `RoundTrip.ReadBackSample` | src/main/java/com/iesvdc/dam/acceso/databaseutil/DatabaseReader.java:110-117 | the first exported data row, read back as the sample row, gives field j the label j and the type of the first row's value j |
| `RoundTrip.TableRoundTrip` | src/main/java/com/iesvdc/dam/acceso/databaseutil/DatabaseReader.java:103-118 | reading back an exported table gives its name and one field per label, typed by the first row. A table with columns and no rows fails for want of row 1 |
| `RoundTrip.TableReadsBack` | src/main/java/com/iesvdc/dam/acceso/databaseutil/DatabaseReader.java:103-118 | an exported table reads back exactly when it has no columns or at least one row, and then keeps its name and column count |
| `RoundTrip.ExportedSheets` | src/main/java/com/iesvdc/dam/acceso/databaseutil/DatabaseReader.java:51-55 | the exported sheets, read back, are the read-back sheets of the base tables, in order |
| `RoundTrip.LoadReadBackSheets` | src/main/java/com/iesvdc/dam/acceso/excelutil/ExcelReader.java:63-89 | loading read-back table sheets succeeds exactly when every table reads back, and each table loaded keeps its name and column count |
| `RoundTrip.CatalogRoundTrip` | src/main/java/com/iesvdc/dam/acceso/databaseutil/DatabaseReader.java:51-58 | loading an exported database gives back the base tables' names (for names of at most 31 characters, see Left out) and column counts in order, and fails exactly when some base table has columns but no rows |

## Left out

- Reading the properties file (`Config`) and opening the JDBC connection (`Conexion`) are I/O. Opening returns null on error, which appears here as `ReadDatabase`'s `None` connection.
- The command-line entry points (`Excel2Database`, `ExcelDatabaseApp`) are not modelled. `ExcelDatabaseApp` also calls `saveToDatabase`, which `ExcelReader` does not define.
- Opening and parsing the `.xlsx` file is I/O. `LoadWorkbook` receives its result, or `None` when the file cannot be opened or parsed.
- The console dump after a load and the message printed for a caught exception are left out.
- `DatabaseReader.export` is left out. It creates the output directory and writes the file: I/O around `readDatabase`.
- The JDBC metadata query and `SELECT *` become an abstract catalog of (name, kind, labels, rows). The driver filters by kind "TABLE"; the model does the same filtering in the loop. A query that fails mid-export raises `SQLException` in the source, and the model does not represent it.
- The spreadsheet library's `createSheet` cuts a sheet name to 31 characters and throws `IllegalArgumentException` for forbidden characters and for a name that equals an existing one, ignoring case, after the cut. `setCellValue(String)` throws the same exception for text over 32,767 characters. Either exception aborts `readDatabase`. None of this is modelled: `TableGrid` names the sheet after the table, and `CatalogRoundTrip` gives back the base tables' names, only for names of at most 31 characters that stay distinct when case is ignored, and for texts within the cell limit.
- IEEE doubles: cell values are exact reals, so NaN, infinities and rounding are not modelled. `Number.doubleValue`, `LocalDate.toString` and `LocalDateTime.toString` are opaque. Their results are carried as fields of the value.
- `WorkbookModel(null)` and `addTable(null)` are accepted by Java and are not modelled. Both lists hold non-null tables here. A `TableModel`'s name is likewise non-null.
- `FieldModel` and `WorkbookModel` override `equals` without `hashCode`. Identity hash codes, and the identity-based text that Java prints for a `TableModel`, are outside the model. `WorkbookModel.ToString` takes that text as a parameter.
- The `RoundTrip` module assumes that writing the `.xlsx` file and reading it back keeps every cell as written: a created blank cell reads back as a blank cell, and numbers carry no date format.
- `ExcelReading.ExcelReader.LoadWorkbook`: the body of the sheet loop is the separate method `LoadSheet`, and the column loop is the separate method `AddColumns`. A `false` result from either stands for the exception that ends the load. The text of the exception is not kept.
