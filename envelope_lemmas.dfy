/** Properties of the operation envelope (query.go, `constructQuery` and its siblings). */
module EnvelopeLemmas {
  import opened Wrappers
  import opened GoTypes
  import opened Text
  import opened Lex
  import opened Arguments
  import opened ArgumentsLemmas
  import opened Selection
  import opened SelectionLemmas
  import opened Envelope

  /**
   * The bare selection set is sent exactly for an anonymous query without
   * variables; every other document carries its keyword in front of it.
   */
  lemma BareOnlyForAnonymousQuery(op: Operation, name: string, header: Option<string>, body: string)
    ensures Document(op, name, header, body) == body <==> (op == QueryOp && name == "" && header == None)
  {
    var doc := Document(op, name, header, body);
    if !(op == QueryOp && name == "" && header == None) {
      assert |doc| > |body|;
    }
  }

  /**
   * The envelope never adds a brace, so with a brace-free name and header the
   * selection set is recovered from the document as everything from its first `{`.
   */
  lemma SelectionRecoverable(op: Operation, name: string, header: Option<string>, body: string)
    requires '{' !in name
    requires header.Some? ==> '{' !in header.value
    requires body == [] || body[0] == '{'
    ensures DropUntil(Document(op, name, header, body), '{') == body
  {
    var prefix: string;
    assert '{' !in Keyword(op);
    match header {
      case Some(args) =>
        prefix := Keyword(op) + " " + name + "(" + args + ")";
      case None =>
        prefix := if name != "" then Keyword(op) + " " + name else if op == QueryOp then [] else Keyword(op);
    }
    assert Document(op, name, header, body) == prefix + body;
    DropUntilConcat(prefix, body, '{');
  }

  /**
   * For every operation kind, the selection set of the document `constructQuery`,
   * `constructMutation` or `constructSubscription` builds is exactly the text
   * `query` writes for the root type, whatever the variables and the name
   * (as long as they contain no brace).
   */
  lemma OperationSelection(op: Operation, t: GoType, variables: map<string, GoType>, name: string, camel: string -> string)
    requires '{' !in name
    requires forall k :: k in variables ==> '{' !in k && NamesAvoid(variables[k], '{')
    ensures DropUntil(OperationText(op, t, variables, name, camel), '{') == QueryText(t, false, "", camel)
  {
    var body := QueryText(t, false, "", camel);
    SelectionShape(t, false, "", camel);
    var header := VariablesHeader(variables, op == MutationOp);
    if |variables| > 0 {
      HeaderAvoids(SortedKeys(variables.Keys), variables, op == MutationOp, '{');
    }
    SelectionRecoverable(op, name, header, body);
  }
}
