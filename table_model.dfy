/** A table: a name fixed at construction and a field list that only grows. */
module Tables {
  import opened Fields

  /** The value a table holds at one moment. */
  datatype TableSchema = TableSchema(name: string, fields: seq<FieldModel>)

  class TableModel {
    const name: string
    /** The private, final field list; it never escapes the object, so a sequence stands for it. */
    var fields: seq<FieldModel>

    /** `new TableModel(name)`: the name is stored and the field list starts empty. */
    constructor (name: string)
      ensures this.name == name && fields == []
    {
      this.name := name;
      fields := [];
    }

    /** `addField(field)`: appends the field at the end; earlier fields stay as they were. */
    method AddField(field: FieldModel)
      modifies this
      ensures fields == old(fields) + [field]
      ensures |fields| == |old(fields)| + 1 && fields[..|old(fields)|] == old(fields)
    {
      fields := fields + [field];
    }

    function Schema(): (s: TableSchema)
      reads this
      ensures s.name == name && s.fields == fields
    {
      TableSchema(name, fields)
    }
  }
}
