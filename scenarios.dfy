/**
 * Literal outputs of the repository's tests (query_test.go), proved of the model.
 * The field-name converter is constrained only on the names each scenario uses,
 * with the conversions the tests show.
 */
module Scenarios {
  import opened Wrappers
  import opened GoTypes
  import opened Lex
  import opened Arguments
  import opened Selection
  import opened Envelope

  /** A field with no struct tags. */
  function Plain(name: string, typ: GoType): Field {
    Field(name, None, "", false, typ)
  }

  /** A field with a `graphql` tag. */
  function Tagged(name: string, tag: string, typ: GoType): Field {
    Field(name, Some(tag), "", false, typ)
  }

  /** A field type `writeQuery` writes nothing for: a `json.Unmarshaler` struct or a non-struct kind. */
  predicate Leaf(t: GoType) {
    t.Other? || (t.Struct? && t.unmarshaler)
  }

  /** The anonymous struct of query_test.go:223-229; `time.Time` unmarshals itself. */
  function Viewer(): GoType {
    Struct("", false, [
      Plain("Viewer", Struct("", false, [
        Plain("Login", Other("string")),
        Plain("CreatedAt", Struct("Time", true, [])),
        Plain("ID", Other("")),
        Plain("DatabaseID", Other("int"))]))])
  }

  /** The query of query_test.go:222-231 and the subscription of query_test.go:490-499. */
  lemma ViewerQuery(camel: string -> string)
    requires camel("Viewer") == "viewer" && camel("Login") == "login" && camel("CreatedAt") == "createdAt"
    requires camel("ID") == "id" && camel("DatabaseID") == "databaseId"
    ensures OperationText(QueryOp, Viewer(), map[], "", camel) == "{viewer{login,createdAt,id,databaseId}}"
    ensures OperationText(SubscriptionOp, Viewer(), map[], "", camel)
         == "subscription" + "{viewer{login,createdAt,id,databaseId}}"
  {
    var root := Viewer();
    var viewer := root.fields[0].typ;
    FourLeaves(viewer, camel, "login", "createdAt", "id", "databaseId");
    OneField(root, camel);
    ViewerSpelled(QueryText(viewer, false, "", camel));
  }

  lemma ViewerSpelled(v: string)
    requires v == "{" + "login" + "," + "createdAt" + "," + "id" + "," + "databaseId" + "}"
    ensures "{" + "viewer" + v + "}" == "{viewer{login,createdAt,id,databaseId}}"
  {
  }

  /** An untagged, non-embedded leaf field selects just its converted name. */
  lemma LeafText(t: GoType, i: nat, camel: string -> string)
    requires t.Struct? && i < |t.fields|
    requires t.fields[i].graphqlTag.None? && !t.fields[i].anonymous && Leaf(t.fields[i].typ)
    requires camel(t.fields[i].name) != ""
    ensures FieldText(t, i, "", camel) == Sep(i) + camel(t.fields[i].name)
  {
    assert QueryText(t.fields[i].typ, false, t.fields[i].hasInverse, camel) == [];
  }

  /** A struct of four untagged leaf fields selects their converted names, comma-separated, in braces. */
  lemma FourLeaves(t: GoType, camel: string -> string, a: string, b: string, c: string, d: string)
    requires t.Struct? && !t.unmarshaler && |t.fields| == 4
    requires forall i :: 0 <= i < 4 ==> t.fields[i].graphqlTag.None? && !t.fields[i].anonymous && Leaf(t.fields[i].typ)
    requires camel(t.fields[0].name) == a && camel(t.fields[1].name) == b
    requires camel(t.fields[2].name) == c && camel(t.fields[3].name) == d
    requires a != "" && b != "" && c != "" && d != ""
    ensures QueryText(t, false, "", camel) == "{" + a + "," + b + "," + c + "," + d + "}"
  {
    LeafText(t, 0, camel);
    LeafText(t, 1, camel);
    LeafText(t, 2, camel);
    LeafText(t, 3, camel);
    assert FieldsText(t, 1, "", camel) == a;
    assert FieldsText(t, 2, "", camel) == a + "," + b;
    assert FieldsText(t, 3, "", camel) == a + "," + b + "," + c;
    assert FieldsText(t, 4, "", camel) == a + "," + b + "," + c + "," + d;
  }

  /** A struct whose only field is selected under a non-empty name wraps that field's selection in braces. */
  lemma OneField(t: GoType, camel: string -> string)
    requires t.Struct? && !t.unmarshaler && |t.fields| == 1
    requires !t.fields[0].anonymous && t.fields[0].graphqlTag != Some("-") && t.fields[0].hasInverse == ""
    requires ResolvedName(t.fields[0], camel) != ""
    ensures QueryText(t, false, "", camel)
         == "{" + ResolvedName(t.fields[0], camel) + QueryText(t.fields[0].typ, false, "", camel) + "}"
  {
    assert FieldsText(t, 1, "", camel) == FieldText(t, 0, "", camel);
  }

  /** Two variables are declared in name order. */
  lemma SortedPair(a: string, b: string)
    requires Less(a, b)
    ensures SortedKeys({a, b}) == [a, b]
  {
    var keys := SortedKeys({a, b});
    assert StrictlySorted([a, b]);
    assert forall x :: x in keys <==> x in [a, b];
    StrictlySortedUnique(keys, [a, b]);
  }

  /** A header of two variables whose names are in order is their two declarations. */
  lemma PairHeader(a: string, b: string, vars: map<string, GoType>, isMutation: bool)
    requires Less(a, b) && vars.Keys == {a, b}
    ensures Header(SortedKeys({a, b}), vars, isMutation)
         == Declaration(a, vars[a], isMutation) + Declaration(b, vars[b], isMutation)
  {
    SortedPair(a, b);
    var keys := [a, b];
    assert keys[..1] == [a] && keys[1] == b;
    assert [a][..0] == [];
    assert Header([a], vars, isMutation) == Declaration(a, vars[a], isMutation);
  }

  /** The variables of query_test.go:516: `NewInt64(123)` and `NewBool(true)` are pointers. */
  lemma ScalarPointerArguments()
    ensures Header(SortedKeys({"a", "b"}), map["a" := Ptr(Struct("GqlInt64", true, [])), "b" := Ptr(Struct("GqlBool", true, []))], false)
         == "$a:Int!$b:Boolean"
  {
    var vars := map["a" := Ptr(Struct("GqlInt64", true, [])), "b" := Ptr(Struct("GqlBool", true, []))];
    assert vars.Keys == {"a", "b"};
    PairHeader("a", "b", vars, false);
    ScalarDeclarations();
  }

  lemma ScalarDeclarations()
    ensures Declaration("a", Ptr(Struct("GqlInt64", true, [])), false) + Declaration("b", Ptr(Struct("GqlBool", true, [])), false)
         == "$a:Int!$b:Boolean"
  {
    assert Declaration("a", Ptr(Struct("GqlInt64", true, [])), false) == "$a:Int!";
    assert Declaration("b", Ptr(Struct("GqlBool", true, [])), false) == "$b:Boolean";
  }

  /** The variables of query_test.go:519-538: a slice or array is required, a pointer to one is not. */
  lemma ListArguments(list: GoType)
    requires (list.Slice? || list.Array?) && list.elem == Other("IssueState")
    ensures Header(SortedKeys({"optional", "required"}), map["required" := list, "optional" := Ptr(list)], false)
         == "$optional:[IssueState!]" + "$required:[IssueState!]!"
  {
    var vars := map["required" := list, "optional" := Ptr(list)];
    assert vars.Keys == {"optional", "required"};
    PairHeader("optional", "required", vars, false);
    assert vars["optional"] == Ptr(list) && vars["required"] == list;
    ListDeclarations(list);
  }

  lemma ListDeclarations(list: GoType)
    requires (list.Slice? || list.Array?) && list.elem == Other("IssueState")
    ensures Declaration("optional", Ptr(list), false) == "$optional:[IssueState!]"
    ensures Declaration("required", list, false) == "$required:[IssueState!]!"
  {
    IssueStateListTypes(list);
    assert "$" + "optional" + ":" == "$optional:";
    assert "$" + "required" + ":" == "$required:";
  }

  lemma IssueStateListTypes(list: GoType)
    requires (list.Slice? || list.Array?) && list.elem == Other("IssueState")
    ensures ArgType(Ptr(list), true, false) == "[IssueState!]"
    ensures ArgType(list, true, false) == "[IssueState!]!"
  {
    assert ArgType(list.elem, true, false) == "IssueState!";
  }

  /** The anonymous struct of query_test.go:249-259. */
  function AddReaction(): GoType {
    Struct("", false, [
      Tagged("AddReaction", "addReaction(input:$input)", Struct("", false, [
        Plain("Subject", Struct("", false, [
          Plain("ReactionGroups", Slice(Struct("", false, [
            Plain("Users", Struct("", false, [
              Plain("TotalCount", Struct("GqlInt64", true, []))]))])))]))]))])
  }

  /** The mutation of query_test.go:248-266: its one variable, a struct value, is required. */
  lemma AddReactionMutation(camel: string -> string)
    requires camel("Subject") == "subject" && camel("ReactionGroups") == "reactionGroups"
    requires camel("Users") == "users" && camel("TotalCount") == "totalCount"
    ensures OperationText(MutationOp, AddReaction(), map["input" := Struct("AddReactionInput", false, [])], "", camel)
         == "mutation ($input:AddReactionInput!)" + "{addReaction(input:$input)" + "{subject{reactionGroups{users{totalCount}}}}}"
  {
    var vars := map["input" := Struct("AddReactionInput", false, [])];
    assert vars.Keys == {"input"};
    SingleHeader("input", vars, true);
    InputDeclaration();
    var header := Header(SortedKeys({"input"}), vars, true);
    assert VariablesHeader(vars, true) == Some(header);
    AddReactionSelection(camel);
    MutationSpelled(header, QueryText(AddReaction(), false, "", camel));
  }

  /** A header of one variable is its declaration. */
  lemma SingleHeader(k: string, vars: map<string, GoType>, isMutation: bool)
    requires vars.Keys == {k}
    ensures Header(SortedKeys({k}), vars, isMutation) == Declaration(k, vars[k], isMutation)
  {
    StrictlySortedUnique(SortedKeys({k}), [k]);
    assert [k][..0] == [];
  }

  lemma InputDeclaration()
    ensures Declaration("input", Struct("AddReactionInput", false, []), true) == "$input:AddReactionInput!"
  {
    assert "$" + "input" + ":" == "$input:";
  }

  lemma MutationSpelled(header: string, body: string)
    requires header == "$input:AddReactionInput!"
    ensures Document(MutationOp, "", Some(header), body) == "mutation ($input:AddReactionInput!)" + body
  {
    assert Keyword(MutationOp) + " " + "" + "(" + header + ")" == "mutation ($input:AddReactionInput!)";
  }

  /** The selection of query_test.go:266: a slice of structs is selected like the struct. */
  lemma AddReactionSelection(camel: string -> string)
    requires camel("Subject") == "subject" && camel("ReactionGroups") == "reactionGroups"
    requires camel("Users") == "users" && camel("TotalCount") == "totalCount"
    ensures QueryText(AddReaction(), false, "", camel)
         == "{addReaction(input:$input)" + "{subject{reactionGroups{users{totalCount}}}}}"
  {
    var addReaction := AddReaction().fields[0].typ;
    var subject := addReaction.fields[0].typ;
    var groups := subject.fields[0].typ;
    var users := groups.elem.fields[0].typ;
    OneField(users, camel);
    OneField(groups.elem, camel);
    OneField(subject, camel);
    OneField(addReaction, camel);
    OneField(AddReaction(), camel);
    assert QueryText(users.fields[0].typ, false, "", camel) == [];
    assert QueryText(groups, false, "", camel) == QueryText(groups.elem, false, "", camel);
    UsersSpelled(QueryText(users, false, "", camel));
    GroupsSpelled(QueryText(groups, false, "", camel));
    SubjectSpelled(QueryText(subject, false, "", camel));
    AddReactionSpelled(QueryText(addReaction, false, "", camel), QueryText(AddReaction(), false, "", camel));
  }

  lemma UsersSpelled(u: string)
    requires u == "{" + "totalCount" + [] + "}"
    ensures "{" + "users" + u + "}" == "{users{totalCount}}"
  {
    assert u == "{totalCount}";
  }

  lemma GroupsSpelled(g: string)
    requires g == "{users{totalCount}}"
    ensures "{" + "reactionGroups" + g + "}" == "{reactionGroups{users{totalCount}}}"
  {
  }

  lemma SubjectSpelled(s: string)
    requires s == "{reactionGroups{users{totalCount}}}"
    ensures "{" + "subject" + s + "}" == "{subject{reactionGroups{users{totalCount}}}}"
  {
  }

  lemma AddReactionSpelled(a: string, root: string)
    requires a == "{subject{reactionGroups{users{totalCount}}}}"
    requires root == "{" + "addReaction(input:$input)" + a + "}"
    ensures root == "{addReaction(input:$input)" + "{subject{reactionGroups{users{totalCount}}}}}"
  {
    assert a + "}" == "{subject{reactionGroups{users{totalCount}}}}}";
    assert root == "{addReaction(input:$input)" + (a + "}");
  }

  /**
   * The variable of query_test.go:540-543 as the code treats it: a Go `string` has
   * no entry in the scalar table (its `ID` mapping is commented out), so it is
   * declared under its own name, not as the `ID!` that test expects.
   */
  lemma PlainStringArgument()
    ensures Header(SortedKeys({"id"}), map["id" := Other("string")], false) == "$id:string!"
  {
    var vars := map["id" := Other("string")];
    assert vars.Keys == {"id"};
    SingleHeader("id", vars, false);
    StringDeclaration();
  }

  lemma StringDeclaration()
    ensures Declaration("id", Other("string"), false) == "$id:string!"
  {
    assert GraphQLName("string") == "string";
    assert "$" + "id" + ":" == "$id:";
  }
}
