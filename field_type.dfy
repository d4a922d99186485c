/** The closed set of column types a spreadsheet column can be inferred to have. */
module FieldTypes {

  datatype FieldType = INTEGER | DECIMAL | STRING | DATE | BOOLEAN | UNKNOWN
  {
    /** True for the two numeric types, which are the first two constants declared. */
    predicate IsNumeric()
      ensures IsNumeric() <==> Ordinal(this) < 2
    {
      this == INTEGER || this == DECIMAL
    }
  }

  /** The constants in declaration order, as Java's implicit `values()` gives them. */
  function Values(): (vs: seq<FieldType>)
    ensures |vs| == 6
    ensures forall i, j :: 0 <= i < j < |vs| ==> vs[i] != vs[j]
    ensures forall t: FieldType :: vs[Ordinal(t)] == t
  {
    [INTEGER, DECIMAL, STRING, DATE, BOOLEAN, UNKNOWN]
  }

  /** The constant's position in the declaration, as Java's `ordinal()` gives it. */
  function Ordinal(t: FieldType): (k: nat)
    ensures k < 6
  {
    match t
    case INTEGER => 0
    case DECIMAL => 1
    case STRING => 2
    case DATE => 3
    case BOOLEAN => 4
    case UNKNOWN => 5
  }

  /** The constant's name, which is what Java's enum `toString` returns. */
  function Name(t: FieldType): (s: string)
    ensures |s| > 0
  {
    match t
    case INTEGER => "INTEGER"
    case DECIMAL => "DECIMAL"
    case STRING => "STRING"
    case DATE => "DATE"
    case BOOLEAN => "BOOLEAN"
    case UNKNOWN => "UNKNOWN"
  }

  /** Exactly INTEGER and DECIMAL are numeric; the other four are not. */
  lemma IsNumericExactly(t: FieldType)
    ensures t.IsNumeric() <==> t in {INTEGER, DECIMAL}
    ensures t in {STRING, DATE, BOOLEAN, UNKNOWN} ==> !t.IsNumeric()
  {
  }

  /** Distinct constants have distinct names. */
  lemma NameInjective(t: FieldType, u: FieldType)
    ensures Name(t) == Name(u) ==> t == u
  {
  }
}
