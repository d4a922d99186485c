/** The in-memory workbook: an ordered list of tables. */
module Workbooks {
  import opened Fields
  import opened Tables
  import opened Lists

  class WorkbookModel {
    /** Never reassigned after construction, but shared: the list constructor adopts the caller's list and `getTables` hands it out. */
    var tables: JavaList<TableModel>

    /** `new WorkbookModel()`: a fresh, empty list. */
    constructor ()
      ensures fresh(tables) && tables.elements == []
    {
      tables := new JavaList<TableModel>();
    }

    /** `new WorkbookModel(list)`: adopts the caller's list itself, without copying it. */
    constructor FromList(list: JavaList<TableModel>)
      ensures tables == list
      ensures tables.elements == list.elements
    {
      tables := list;
    }

    /** `addTable(t)`: appends at the end, keeps the earlier tables, and returns true. */
    method AddTable(t: TableModel) returns (added: bool)
      modifies tables
      ensures tables == old(tables)
      ensures tables.elements == old(tables.elements) + [t]
      ensures |tables.elements| == |old(tables.elements)| + 1
      ensures tables.elements[..|old(tables.elements)|] == old(tables.elements)
      ensures added
    {
      added := tables.Add(t);
    }

    /** `getTables()`: the stored list object itself, not a copy. */
    function GetTables(): (list: JavaList<TableModel>)
      reads this
      ensures list == tables
    {
      tables
    }

    /**
     * `equals(Object)`. A table has no `equals` of its own, so the lists are
     * compared element by element by object identity.
     */
    function Equals(o: JavaObject<WorkbookModel>): (r: bool)
      reads this, tables, if o.Instance? then {o.obj, o.obj.tables} else {}
      ensures r <==> o.Instance? && o.obj.tables.elements == tables.elements
    {
      match o
      case Instance(w) => w == this || tables.ListEquals(w.tables)
      case _ => false
    }

    /**
     * `toString()`. A table has no `toString` of its own, so Java prints an
     * identity-based text for it; `objectText` stands for that text.
     */
    function ToString(objectText: TableModel -> string): (s: string)
      reads this, tables
      ensures tables.elements == [] ==> s == "{ tables='[]'}"
      ensures |tables.elements| == 1 ==> s == "{ tables='[" + objectText(tables.elements[0]) + "]'}"
    {
      "{ tables='" + ListText(Texts(tables.elements, objectText)) + "'}"
    }
  }

  function Texts(ts: seq<TableModel>, objectText: TableModel -> string): (texts: seq<string>)
    ensures |texts| == |ts|
  {
    seq(|ts|, i requires 0 <= i < |ts| => objectText(ts[i]))
  }

  /** Naming one more table adds its text at the end of the list. */
  lemma TextsAppend(ts: seq<TableModel>, t: TableModel, objectText: TableModel -> string)
    ensures Texts(ts + [t], objectText) == Texts(ts, objectText) + [objectText(t)]
  {
    assert forall i :: 0 <= i < |ts| ==> (ts + [t])[i] == ts[i];
  }

  /**
   * A workbook with one more table prints like the workbook before it, with
   * ", " and the new table's text put before the closing "]'}". With the
   * empty and one-table cases this fixes the text of every workbook.
   */
  lemma TextAfterAdd(before: WorkbookModel, after: WorkbookModel, t: TableModel, objectText: TableModel -> string)
    requires before.tables.elements != []
    requires after.tables.elements == before.tables.elements + [t]
    ensures after.ToString(objectText)
            == before.ToString(objectText)[..|before.ToString(objectText)| - 3] + ", " + objectText(t) + "]'}"
  {
    var texts := Texts(before.tables.elements, objectText);
    TextsAppend(before.tables.elements, t, objectText);
    ListTextAppend(texts, objectText(t));
    var b := before.ToString(objectText);
    assert b[..|b| - 3] == "{ tables='" + ListText(texts)[..|ListText(texts)| - 1];
  }

  /** Every workbook equals itself, and nothing that is not a workbook equals a workbook. */
  lemma WorkbookEqualsReflexive(w: WorkbookModel)
    ensures w.Equals(Instance(w))
    ensures !w.Equals(NullRef) && !w.Equals(OtherClass)
  {
  }

  /** Equal workbooks print alike. */
  lemma EqualsThenSameText(w: WorkbookModel, v: WorkbookModel, objectText: TableModel -> string)
    requires w.Equals(Instance(v))
    ensures w.ToString(objectText) == v.ToString(objectText)
  {
  }

  /** Adding a table through the list that `getTables` returned shows up in the workbook. */
  method AddThroughGetTables(w: WorkbookModel, t: TableModel)
    modifies w.tables
    ensures w.tables.elements == old(w.tables.elements) + [t]
  {
    var list := w.GetTables();
    var _ := list.Add(t);
  }

  /** Two workbooks built on one list share it: a table added to one is a table of the other. */
  method SharedListIsShared(list: JavaList<TableModel>, t: TableModel) returns (a: WorkbookModel, b: WorkbookModel)
    modifies list
    ensures a.tables == b.tables == list
    ensures a.tables.elements == old(list.elements) + [t]
    ensures a.Equals(Instance(b))
  {
    a := new WorkbookModel.FromList(list);
    b := new WorkbookModel.FromList(list);
    var _ := a.AddTable(t);
  }
}
