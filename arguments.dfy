/**
 * The variable header of query.go: `writeArgumentType` and `queryArguments`.
 * A variable's value is known here only by its Go type.
 */
module Arguments {
  import opened GoTypes
  import opened Text
  import opened Lex

  /** The fixed table of nullable scalar names; any other name is used as it is. */
  function GraphQLName(name: string): (r: string)
    ensures name == "GqlBool" ==> r == "Boolean"
    ensures name == "GqlFloat64" ==> r == "Float!"
    ensures name == "GqlInt64" ==> r == "Int!"
    ensures name == "GqlString" ==> r == "String!"
    ensures name == "GqlTime" ==> r == "DateTime!"
    ensures name !in {"GqlBool", "GqlFloat64", "GqlInt64", "GqlString", "GqlTime"} ==> r == name
  {
    match name
    case "GqlBool" => "Boolean"
    case "GqlFloat64" => "Float!"
    case "GqlInt64" => "Int!"
    case "GqlString" => "String!"
    case "GqlTime" => "DateTime!"
    case _ => name
  }

  /** The required marker written after a value (non-pointer) type. */
  function Bang(value: bool): string {
    if value then "!" else ""
  }

  /** The type name `reflect.Type.Name()` reports for a type that is not a pointer, slice or array. */
  function TypeName(t: GoType): string
    requires t.Struct? || t.Other?
  {
    t.name
  }

  /** The text `writeArgumentType(w, t, value, isMutation)` appends to `w`. */
  function ArgType(t: GoType, value: bool, isMutation: bool): string
    decreases t
  {
    match t
    case Ptr(e) => if !isMutation then ArgType(e, false, isMutation) else ArgType(e, true, isMutation)
    case Slice(e) => "[" + ArgType(e, true, isMutation) + "]" + Bang(value)
    case Array(e) => "[" + ArgType(e, true, isMutation) + "]" + Bang(value)
    case _ => GraphQLName(TypeName(t)) + Bang(value)
  }

  /** `writeArgumentType`: appends the GraphQL type of `t` to `w`. */
  method WriteArgumentType(w: Writer, t: GoType, value: bool, isMutation: bool)
    modifies w
    ensures w.data == old(w.data) + ArgType(t, value, isMutation)
    decreases t
  {
    if t.Ptr? && !isMutation {
      // A pointer is optional: no "!" after the pointed-to type.
      WriteArgumentType(w, t.elem, false, isMutation);
      return;
    } else if t.Ptr? {
      WriteArgumentType(w, t.elem, true, isMutation);
      return;
    }
    ghost var start := w.data;
    if t.Slice? || t.Array? {
      w.WriteString("[");
      WriteArgumentType(w, t.elem, true, isMutation);
      w.WriteString("]");
      assert w.data == start + ("[" + ArgType(t.elem, true, isMutation) + "]");
    } else {
      w.WriteString(GraphQLName(TypeName(t)));
    }
    ghost var named := w.data;
    if value {
      w.WriteString("!");
    }
    assert w.data == named + Bang(value);
  }

  /** One declaration of the header: `$name:Type`, the variable's type written as a value. */
  function Declaration(k: string, t: GoType, isMutation: bool): string {
    "$" + k + ":" + ArgType(t, true, isMutation)
  }

  /** The declarations of `keys`, in that order, with no separator. */
  function Header(keys: seq<string>, variables: map<string, GoType>, isMutation: bool): string
    requires forall k :: k in keys ==> k in variables
  {
    if keys == [] then []
    else
      var n := |keys| - 1;
      Header(keys[..n], variables, isMutation) + Declaration(keys[n], variables[keys[n]], isMutation)
  }

  /**
   * `queryArguments`: the minified declarations of all variables, sorted by name,
   * with no separator between them.
   */
  method QueryArguments(variables: map<string, GoType>, isMutation: bool) returns (s: string)
    ensures s == Header(SortedKeys(variables.Keys), variables, isMutation)
  {
    var keys := SortedNames(variables);
    var buf := new Writer();
    for i := 0 to |keys|
      invariant buf.data == Header(keys[..i], variables, isMutation)
    {
      var k := keys[i];
      ghost var before := buf.data;
      buf.WriteString("$");
      buf.WriteString(k);
      buf.WriteString(":");
      WriteArgumentType(buf, variables[k], true, isMutation);
      assert buf.data == Header(keys[..i + 1], variables, isMutation) by {
        HeaderStep(keys, i, variables, isMutation);
        Regroup(before, "$", k, ":", ArgType(variables[k], true, isMutation));
      }
    }
    assert keys[..|keys|] == keys;
    s := buf.data;
  }

  /** The header of one more key is the header so far followed by that key's declaration. */
  lemma HeaderStep(keys: seq<string>, i: nat, variables: map<string, GoType>, isMutation: bool)
    requires i < |keys| && forall k :: k in keys ==> k in variables
    ensures Header(keys[..i + 1], variables, isMutation)
         == Header(keys[..i], variables, isMutation) + Declaration(keys[i], variables[keys[i]], isMutation)
  {
    assert keys[..i + 1][..i] == keys[..i] && keys[..i + 1][i] == keys[i];
  }

  /** Four appends to a buffer add their concatenation. */
  lemma Regroup(a: string, b: string, c: string, d: string, e: string)
    ensures a + b + c + d + e == a + (b + c + d + e)
  {
  }

  /**
   * The first half of `queryArguments`: the variable names are gathered in map
   * order (any order) and sorted with `sort.Strings`.
   */
  method SortedNames(variables: map<string, GoType>) returns (keys: seq<string>)
    ensures keys == SortedKeys(variables.Keys)
  {
    keys := [];
    var rest := variables.Keys;
    while rest != {}
      invariant rest <= variables.Keys
      invariant forall x :: multiset(keys)[x] == if x in variables && x !in rest then 1 else 0
      decreases rest
    {
      var k :| k in rest;
      keys := keys + [k];
      rest := rest - {k};
    }
    keys := Sort(keys);
    assert forall x :: x in keys <==> x in multiset(keys);
    SortedUniqueIsStrict(keys);
    StrictlySortedUnique(keys, SortedKeys(variables.Keys));
  }
}
