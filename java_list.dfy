/** A mutable `java.util.List`, as an object, so that two holders of one list see each other's changes. */
module Lists {

  class JavaList<T(==)> {
    var elements: seq<T>

    /** `new ArrayList<>()`. */
    constructor ()
      ensures elements == []
    {
      elements := [];
    }

    /** `add(x)`: appends at the end and reports that the list changed. */
    method Add(x: T) returns (changed: bool)
      modifies this
      ensures elements == old(elements) + [x]
      ensures changed
    {
      elements := elements + [x];
      changed := true;
    }

    /** `equals` between two lists: the same object, or the same elements position by position. */
    function ListEquals(other: JavaList<T>): (r: bool)
      reads this, other
      ensures r <==> elements == other.elements
    {
      other == this || elements == other.elements
    }
  }

  /** `AbstractCollection.toString`: the element texts between brackets, separated by ", ". */
  function ListText(items: seq<string>): (s: string)
    ensures |s| >= 2 && s[0] == '[' && s[|s| - 1] == ']'
    ensures items == [] ==> s == "[]"
    ensures |items| == 1 ==> s == "[" + items[0] + "]"
  {
    "[" + Join(items) + "]"
  }

  /** The element texts in order, with ", " between two neighbours. */
  function Join(items: seq<string>): string
  {
    if |items| == 0 then ""
    else if |items| == 1 then items[0]
    else items[0] + ", " + Join(items[1..])
  }

  /** One more element at the end adds ", " and its text before the closing bracket. */
  lemma {:induction false} JoinAppend(items: seq<string>, x: string)
    requires items != []
    ensures Join(items + [x]) == Join(items) + ", " + x
    decreases |items|
  {
    if |items| == 1 {
      assert (items + [x])[1..] == [x];
    } else {
      assert (items + [x])[1..] == items[1..] + [x];
      JoinAppend(items[1..], x);
    }
  }

  /**
   * The printed list grows at its end: the text of a longer list is the text
   * of the shorter one with ", " and the new element's text put before "]".
   * With the empty and one-element cases this fixes the whole text.
   */
  lemma ListTextAppend(items: seq<string>, x: string)
    requires items != []
    ensures ListText(items + [x]) == ListText(items)[..|ListText(items)| - 1] + ", " + x + "]"
  {
    JoinAppend(items, x);
    assert ListText(items)[..|ListText(items)| - 1] == "[" + Join(items);
  }
}
