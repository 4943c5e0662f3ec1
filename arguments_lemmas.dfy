/** Properties of the variable-header encoder `writeArgumentType` / `queryArguments` (query.go). */
module ArgumentsLemmas {
  import opened GoTypes
  import opened Text
  import opened Lex
  import opened Arguments

  /**
   * Pointers. Outside a mutation any number of pointer layers make the type
   * optional: the pointed-to type is written with no "!" of its own. In a mutation
   * pointers are transparent and the pointed-to type is written as required.
   */
  lemma {:induction false} PointerLayers(k: nat, t: GoType, value: bool, isMutation: bool)
    requires k >= 1
    ensures ArgType(Ptrs(k, t), value, isMutation) == ArgType(t, isMutation, isMutation)
  {
    if k > 1 {
      PointerLayers(k - 1, t, isMutation, isMutation);
    }
  }

  /**
   * A value (non-pointer) type is marked required by one trailing "!", added after
   * whatever the name table gave: `GqlInt64` as a value becomes `Int!!`, while the
   * boolean wrapper, whose table entry has no "!", becomes `Boolean!`.
   */
  lemma RequiredMarker(t: GoType, isMutation: bool)
    requires !t.Ptr?
    ensures ArgType(t, true, isMutation) == ArgType(t, false, isMutation) + "!"
    ensures t.Struct? && t.name == "GqlInt64" ==> ArgType(t, true, isMutation) == "Int!!"
    ensures t.Struct? && t.name == "GqlBool" ==> ArgType(t, true, isMutation) == "Boolean!"
  {
  }

  /** Slices and arrays are both GraphQL lists of required elements. */
  lemma ListTypes(e: GoType, value: bool, isMutation: bool)
    ensures ArgType(Slice(e), value, isMutation) == ArgType(Array(e), value, isMutation)
    ensures ArgType(Slice(e), value, isMutation) == "[" + ArgType(e, true, isMutation) + "]" + (if value then "!" else "")
  {
  }

  /** No type name in `t` contains `c` (struct field names do not matter here). */
  predicate NamesAvoid(t: GoType, c: char) {
    match t
    case Ptr(e) => NamesAvoid(e, c)
    case Slice(e) => NamesAvoid(e, c)
    case Array(e) => NamesAvoid(e, c)
    case Struct(n, _, _) => c !in n
    case Other(n) => c !in n
  }

  /** List brackets in a type signature are well nested when no type name has a bracket. */
  lemma {:induction false} ArgTypeBalanced(t: GoType, value: bool, isMutation: bool)
    requires NamesAvoid(t, '[') && NamesAvoid(t, ']')
    ensures Balanced(ArgType(t, value, isMutation), '[', ']')
    decreases t, 0
  {
    match t
    case Ptr(e) =>
      ArgTypeBalanced(e, isMutation, isMutation);
      ArgTypeBalanced(e, false, isMutation);
    case Slice(e) => ListBalanced(e, value, isMutation);
    case Array(e) => ListBalanced(e, value, isMutation);
    case _ =>
      FreeBalanced(ArgType(t, value, isMutation), '[', ']');
  }

  lemma {:induction false} ListBalanced(e: GoType, value: bool, isMutation: bool)
    requires NamesAvoid(e, '[') && NamesAvoid(e, ']')
    ensures Balanced("[" + ArgType(e, true, isMutation) + "]" + (if value then "!" else ""), '[', ']')
    decreases e, 1
  {
    var inner := ArgType(e, true, isMutation);
    ArgTypeBalanced(e, true, isMutation);
    BalancedWrap(inner, '[', ']');
    FreeBalanced(if value then "!" else "", '[', ']');
    assert "[" + inner + "]" == ['['] + inner + [']'];
    BalancedConcat("[" + inner + "]", if value then "!" else "", '[', ']');
  }

  /** A character that is neither list syntax nor in the scalar table shows up only if some type name has it. */
  lemma {:induction false} ArgTypeAvoids(t: GoType, value: bool, isMutation: bool, c: char)
    requires c in {'$', '{', '}'}
    requires NamesAvoid(t, c)
    ensures c !in ArgType(t, value, isMutation)
  {
    match t
    case Ptr(e) =>
      ArgTypeAvoids(e, isMutation, isMutation, c);
      ArgTypeAvoids(e, false, isMutation, c);
    case Slice(e) => ArgTypeAvoids(e, true, isMutation, c);
    case Array(e) => ArgTypeAvoids(e, true, isMutation, c);
    case _ => TableAvoids(TypeName(t), c);
  }

  /** The scalar table introduces none of `$`, `{`, `}`. */
  lemma TableAvoids(name: string, c: char)
    requires c in {'$', '{', '}'} && c !in name
    ensures c !in GraphQLName(name)
  {
  }

  /** The header read back: the name after each `$`, up to its `:`. */
  function DeclaredNames(h: string): seq<string>
    decreases |h|
  {
    if h == [] then []
    else
      var decl := TakeUntil(h[1..], '$');
      [TakeUntil(decl, ':')] + DeclaredNames(h[1 + |decl|..])
  }

  lemma DeclaredNamesCons(k: string, ty: string, rest: string)
    requires '$' !in k && ':' !in k && '$' !in ty
    requires rest == [] || rest[0] == '$'
    ensures DeclaredNames("$" + k + ":" + ty + rest) == [k] + DeclaredNames(rest)
  {
    var h := "$" + k + ":" + ty + rest;
    var decl := k + ":" + ty;
    assert h[1..] == decl + rest;
    assert TakeUntil(h[1..], '$') == decl by {
      TakeUntilConcat(decl, rest, '$');
    }
    assert TakeUntil(decl, ':') == k by {
      assert decl == k + (":" + ty);
      TakeUntilConcat(k, ":" + ty, ':');
    }
    assert h[1 + |decl|..] == rest;
  }

  /** The header written front to back: the first declaration, then the rest. */
  lemma {:induction false} HeaderCons(keys: seq<string>, variables: map<string, GoType>, isMutation: bool)
    requires keys != [] && forall k :: k in keys ==> k in variables
    ensures Header(keys, variables, isMutation)
         == Declaration(keys[0], variables[keys[0]], isMutation) + Header(keys[1..], variables, isMutation)
    decreases |keys|
  {
    if |keys| > 1 {
      var n := |keys| - 1;
      var first := Declaration(keys[0], variables[keys[0]], isMutation);
      var last := Declaration(keys[n], variables[keys[n]], isMutation);
      var middle := Header(keys[1..n], variables, isMutation);
      assert Header(keys[..n], variables, isMutation) == first + middle by {
        HeaderCons(keys[..n], variables, isMutation);
        assert keys[..n][1..] == keys[1..n] && keys[..n][0] == keys[0];
      }
      assert Header(keys[1..], variables, isMutation) == middle + last by {
        assert keys[1..][..n - 1] == keys[1..n] && keys[1..][n - 1] == keys[n];
      }
      assert (first + middle) + last == first + (middle + last);
    } else {
      assert keys[..0] == [] && keys[1..] == [];
    }
  }

  /** The variable names and types are free of the characters the header uses as delimiters. */
  predicate CleanVariables(variables: map<string, GoType>) {
    forall k :: k in variables ==> '$' !in k && ':' !in k && NamesAvoid(variables[k], '$')
  }

  /** Reading the names back from a header gives the keys it was written from, in order. */
  lemma {:induction false} HeaderNamesRoundTrip(keys: seq<string>, variables: map<string, GoType>, isMutation: bool)
    requires forall k :: k in keys ==> k in variables
    requires CleanVariables(variables)
    ensures DeclaredNames(Header(keys, variables, isMutation)) == keys
    decreases |keys|
  {
    if keys != [] {
      var k := keys[0];
      assert k in keys;
      var ty := ArgType(variables[k], true, isMutation);
      ArgTypeAvoids(variables[k], true, isMutation, '$');
      HeaderCons(keys, variables, isMutation);
      var rest := Header(keys[1..], variables, isMutation);
      if keys[1..] != [] {
        assert keys[1..][0] in keys;
        HeaderCons(keys[1..], variables, isMutation);
      }
      assert Declaration(k, variables[k], isMutation) + rest == "$" + k + ":" + ty + rest;
      DeclaredNamesCons(k, ty, rest);
      HeaderNamesRoundTrip(keys[1..], variables, isMutation);
      assert keys == [k] + keys[1..];
    }
  }

  /**
   * The header declares every variable exactly once, in strictly increasing name
   * order, with nothing between declarations.
   */
  lemma HeaderDeclaresEachOnceInOrder(variables: map<string, GoType>, isMutation: bool)
    requires CleanVariables(variables)
    ensures var names := DeclaredNames(Header(SortedKeys(variables.Keys), variables, isMutation));
            && StrictlySorted(names)
            && (forall k :: k in names <==> k in variables)
            && |names| == |variables|
  {
    HeaderNamesRoundTrip(SortedKeys(variables.Keys), variables, isMutation);
  }

  /** A header whose names avoid `c` (one of `$`, `{`, `}` excluded) avoids `c` entirely. */
  lemma {:induction false} HeaderAvoids(keys: seq<string>, variables: map<string, GoType>, isMutation: bool, c: char)
    requires c in {'{', '}'}
    requires forall k :: k in keys ==> k in variables && c !in k && NamesAvoid(variables[k], c)
    ensures c !in Header(keys, variables, isMutation)
    decreases |keys|
  {
    if keys != [] {
      var n := |keys| - 1;
      assert forall k :: k in keys[..n] ==> k in keys;
      assert keys[n] in keys;
      HeaderAvoids(keys[..n], variables, isMutation, c);
      ArgTypeAvoids(variables[keys[n]], true, isMutation, c);
    }
  }
}
