/**
 * A column of a table: a name and a type, both fixed when the field is built.
 * Java allows either to be `null`; `None` stands for that here.
 */
module Fields {
  import opened Wrappers
  import opened FieldTypes

  datatype FieldModel = FieldModel(name: Option<string>, fieldType: Option<FieldType>)

  /** What a Java `Object` parameter can be when it is compared with an instance of `T`. */
  datatype JavaObject<T> = NullRef | Instance(obj: T) | OtherClass

  /** `new FieldModel()`. */
  function NewField(): (f: FieldModel)
    ensures f.name == Some("") && f.fieldType == Some(UNKNOWN)
  {
    FieldModel(Some(""), Some(UNKNOWN))
  }

  /** `new FieldModel(name)`: the type is not known yet. */
  function NewNamedField(name: Option<string>): (f: FieldModel)
    ensures GetName(f) == name && GetType(f) == Some(UNKNOWN)
  {
    FieldModel(name, Some(UNKNOWN))
  }

  /** `new FieldModel(name, type)`. */
  function NewTypedField(name: Option<string>, t: Option<FieldType>): (f: FieldModel)
    ensures GetName(f) == name && GetType(f) == t
  {
    FieldModel(name, t)
  }

  /** `getName()`: the name the field was built with, possibly null. */
  function GetName(f: FieldModel): (n: Option<string>)
    ensures n == f.name
  {
    f.name
  }

  /** `getType()`: the type the field was built with, possibly null. */
  function GetType(f: FieldModel): (t: Option<FieldType>)
    ensures t == f.fieldType
  {
    f.fieldType
  }

  /**
   * `equals(Object)`: identity, then a class test, then null-safe comparison of
   * both fields. It coincides with equality of the two values.
   */
  function Equals(f: FieldModel, o: JavaObject<FieldModel>): (r: bool)
    ensures r <==> o == Instance(f)
  {
    match o
    case Instance(g) => g == f || (g.name == f.name && g.fieldType == f.fieldType)
    case _ => false
  }

  /** How Java's string concatenation renders a possibly-null string. */
  function NameText(n: Option<string>): string
  {
    match n
    case None => "null"
    case Some(s) => s
  }

  /** How Java's string concatenation renders a possibly-null enum constant. */
  function TypeText(t: Option<FieldType>): (s: string)
    ensures |s| > 0
  {
    match t
    case None => "null"
    case Some(u) => Name(u)
  }

  /** `toString()`: `{ name='<name>', type='<type>'}`. */
  function ToString(f: FieldModel): (s: string)
    ensures |s| == 19 + |NameText(f.name)| + |TypeText(f.fieldType)|
    ensures s[..8] == "{ name='" && s[|s| - 2..] == "'}"
    ensures s[8..8 + |NameText(f.name)|] == NameText(f.name)
    ensures s[8 + |NameText(f.name)|..17 + |NameText(f.name)|] == "', type='"
    ensures s[17 + |NameText(f.name)|..|s| - 2] == TypeText(f.fieldType)
  {
    var n := NameText(f.name);
    var t := TypeText(f.fieldType);
    var s := "{ name='" + n + "', type='" + t + "'}";
    assert s == "{ name='" + (n + ("', type='" + (t + "'}")));
    s
  }

  lemma EqualsReflexive(f: FieldModel)
    ensures Equals(f, Instance(f))
  {
  }

  lemma EqualsSymmetric(f: FieldModel, g: FieldModel)
    ensures Equals(f, Instance(g)) == Equals(g, Instance(f))
  {
  }

  lemma EqualsNotOtherObjects(f: FieldModel)
    ensures !Equals(f, NullRef) && !Equals(f, OtherClass)
  {
  }

  /** The two-argument constructor loses nothing: the getters give back its arguments. */
  lemma ConstructorGetters(name: Option<string>, t: Option<FieldType>)
    ensures NewTypedField(GetName(FieldModel(name, t)), GetType(FieldModel(name, t))) == FieldModel(name, t)
    ensures Equals(NewTypedField(name, t), Instance(FieldModel(name, t)))
  {
  }

  /** The last letter of a type's text tells its length. */
  lemma TypeTextLastLetter(t: Option<FieldType>, u: Option<FieldType>)
    ensures TypeText(t)[|TypeText(t)| - 1] == TypeText(u)[|TypeText(u)| - 1] ==> |TypeText(t)| == |TypeText(u)|
  {
  }

  lemma TypeTextInjective(t: Option<FieldType>, u: Option<FieldType>)
    ensures TypeText(t) == TypeText(u) ==> t == u
  {
  }

  /**
   * For fields with non-null names, `toString` tells fields apart exactly when
   * `equals` does: the text can be parsed back into the name and the type.
   */
  lemma {:induction false} ToStringInjective(f: FieldModel, g: FieldModel)
    requires f.name.Some? && g.name.Some?
    ensures ToString(f) == ToString(g) <==> Equals(f, Instance(g))
  {
    if ToString(f) == ToString(g) {
      var s := ToString(f);
      var tf, tg := TypeText(f.fieldType), TypeText(g.fieldType);
      var nf, ng := f.name.value, g.name.value;
      var pre, mid, post := "{ name='", "', type='", "'}";
      assert s == pre + nf + mid + tf + post;
      assert s == pre + ng + mid + tg + post;
      assert s[|s| - 3] == tf[|tf| - 1] by {
        assert (pre + nf + mid + tf + post)[|s| - 3] == tf[|tf| - 1];
      }
      assert s[|s| - 3] == tg[|tg| - 1] by {
        assert (pre + ng + mid + tg + post)[|s| - 3] == tg[|tg| - 1];
      }
      TypeTextLastLetter(f.fieldType, g.fieldType);
      assert |tf| == |tg|;
      assert |nf| == |ng|;
      assert tf == s[|s| - 2 - |tf| .. |s| - 2] == tg;
      assert nf == s[|pre| .. |pre| + |nf|] == ng;
      TypeTextInjective(f.fieldType, g.fieldType);
    }
  }

  /** A null name and the name "null" print alike, though the fields are not equal. */
  lemma NullNamePrintsLikeNullText(t: Option<FieldType>)
    ensures ToString(FieldModel(None, t)) == ToString(FieldModel(Some("null"), t))
    ensures !Equals(FieldModel(None, t), Instance(FieldModel(Some("null"), t)))
  {
  }
}
