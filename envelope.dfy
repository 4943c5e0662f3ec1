/**
 * The operation envelope of query.go: `constructQuery`, `constructMutation`
 * and `constructSubscription`.
 */
module Envelope {
  import opened Wrappers
  import opened GoTypes
  import opened Lex
  import opened Arguments
  import opened Selection

  datatype Operation = QueryOp | MutationOp | SubscriptionOp

  function Keyword(op: Operation): string {
    match op
    case QueryOp => "query"
    case MutationOp => "mutation"
    case SubscriptionOp => "subscription"
  }

  /**
   * The document for an operation. `header` is the variable header when there
   * are variables. The keyword is left out only for an anonymous query with no
   * variables; a mutation or subscription always carries it.
   */
  function Document(op: Operation, name: string, header: Option<string>, body: string): string {
    match header
    case Some(args) => Keyword(op) + " " + name + "(" + args + ")" + body
    case None =>
      if name != "" then Keyword(op) + " " + name + body
      else if op == QueryOp then body
      else Keyword(op) + body
  }

  /** The header `queryArguments` builds, when there are variables at all. */
  ghost function VariablesHeader(variables: map<string, GoType>, isMutation: bool): Option<string> {
    if |variables| > 0 then Some(Header(SortedKeys(variables.Keys), variables, isMutation)) else None
  }

  /** The complete text an operation sends for root type `t`. */
  ghost function OperationText(op: Operation, t: GoType, variables: map<string, GoType>, name: string, camel: string -> string): string {
    Document(op, name, VariablesHeader(variables, op == MutationOp), QueryText(t, false, "", camel))
  }

  /** `constructQuery`. */
  method ConstructQuery(t: GoType, variables: map<string, GoType>, name: string, camel: string -> string) returns (r: string)
    ensures r == OperationText(QueryOp, t, variables, name, camel)
  {
    var query := Query(t, camel);
    assert "query " == Keyword(QueryOp) + " ";
    if |variables| > 0 {
      var args := QueryArguments(variables, false);
      assert VariablesHeader(variables, false) == Some(args);
      r := "query " + name + "(" + args + ")" + query;
      assert r == Document(QueryOp, name, Some(args), query);
      return;
    }
    assert VariablesHeader(variables, false) == None;
    if name != "" {
      return "query " + name + query;
    }
    return query;
  }

  /** `constructMutation`: variables are typed in mutation context. */
  method ConstructMutation(t: GoType, variables: map<string, GoType>, name: string, camel: string -> string) returns (r: string)
    ensures r == OperationText(MutationOp, t, variables, name, camel)
  {
    var query := Query(t, camel);
    assert "mutation " == Keyword(MutationOp) + " ";
    if |variables| > 0 {
      var args := QueryArguments(variables, true);
      assert VariablesHeader(variables, true) == Some(args);
      r := "mutation " + name + "(" + args + ")" + query;
      assert r == Document(MutationOp, name, Some(args), query);
      return;
    }
    assert VariablesHeader(variables, true) == None;
    if name != "" {
      return "mutation " + name + query;
    }
    return "mutation" + query;
  }

  /** `constructSubscription`. */
  method ConstructSubscription(t: GoType, variables: map<string, GoType>, name: string, camel: string -> string) returns (r: string)
    ensures r == OperationText(SubscriptionOp, t, variables, name, camel)
  {
    var query := Query(t, camel);
    assert "subscription " == Keyword(SubscriptionOp) + " ";
    if |variables| > 0 {
      var args := QueryArguments(variables, false);
      assert VariablesHeader(variables, false) == Some(args);
      r := "subscription " + name + "(" + args + ")" + query;
      assert r == Document(SubscriptionOp, name, Some(args), query);
      return;
    }
    assert VariablesHeader(variables, false) == None;
    if name != "" {
      return "subscription " + name + query;
    }
    return "subscription" + query;
  }
}
