/**
 * The selection-set writer of query.go: `writeQuery` and `query`.
 * `QueryText` is the text `writeQuery` appends for a type; `WriteQuery` is the
 * recursive writer itself, proved to append exactly that text.
 *
 * The field-name converter (`ident.ParseMixedCaps(name).ToLowerCamelCase()`)
 * is not part of this model: it is the parameter `camel`.
 */
module Selection {
  import opened Wrappers
  import opened GoTypes
  import opened Text

  /** The name a field is selected under: its `graphql` tag, or its converted name when the tag is absent or empty. */
  function ResolvedName(f: Field, camel: string -> string): string {
    var v := f.graphqlTag.GetOr("");
    if v == "" then camel(f.name) else v
  }

  /** The field is left out: tagged `graphql:"-"`, or named like the inherited inverse guard. */
  predicate Skipped(f: Field, inverseName: string, camel: string -> string) {
    f.graphqlTag == Some("-") || inverseName == ResolvedName(f, camel)
  }

  /** An embedded field without a `graphql` tag has its fields spliced into the parent. */
  predicate Inlined(f: Field) {
    f.anonymous && f.graphqlTag.None?
  }

  /** The separator `writeQuery` writes before the field with index `i`. */
  function Sep(i: nat): string {
    if i != 0 then "," else ""
  }

  /** The text `writeQuery(w, t, inline, inverseName)` appends to `w`. */
  function QueryText(t: GoType, inline: bool, inverseName: string, camel: string -> string): string
    decreases t, 1, 0
  {
    match t
    case Ptr(e) => QueryText(e, false, inverseName, camel)
    case Slice(e) => QueryText(e, false, inverseName, camel)
    case Struct(_, unmarshaler, fields) =>
      if unmarshaler then []
      else
        (if inline then "" else "{")
        + FieldsText(t, |fields|, inverseName, camel)
        + (if inline then "" else "}")
    case _ => []
  }

  /** The text written for the first `n` fields of struct `t`. */
  function FieldsText(t: GoType, n: nat, inverseName: string, camel: string -> string): string
    requires t.Struct? && n <= |t.fields|
    decreases t, 0, n + 1
  {
    if n == 0 then []
    else FieldsText(t, n - 1, inverseName, camel) + FieldText(t, n - 1, inverseName, camel)
  }

  /** The text written for field `i` of struct `t`. */
  function FieldText(t: GoType, i: nat, inverseName: string, camel: string -> string): string
    requires t.Struct? && i < |t.fields|
    decreases t, 0, 0
  {
    var f := t.fields[i];
    if Skipped(f, inverseName, camel) then []
    else
      Sep(i)
      + (if Inlined(f) then "" else ResolvedName(f, camel))
      + QueryText(f.typ, Inlined(f), f.hasInverse, camel)
  }

  /** `writeQuery`: appends the minified selection for `t` to `w`. */
  method WriteQuery(w: Writer, t: GoType, inline: bool, inverseName: string, camel: string -> string)
    modifies w
    ensures w.data == old(w.data) + QueryText(t, inline, inverseName, camel)
    decreases t, 1
  {
    match t {
      case Ptr(e) =>
        WriteQuery(w, e, false, inverseName, camel);
      case Slice(e) =>
        WriteQuery(w, e, false, inverseName, camel);
      case Struct(_, unmarshaler, fields) =>
        if unmarshaler {
          return;
        }
        ghost var start := w.data;
        if !inline {
          w.WriteString("{");
        }
        ghost var prefix := w.data;
        for i := 0 to |fields|
          invariant w.data == prefix + FieldsText(t, i, inverseName, camel)
        {
          WriteField(w, t, i, inverseName, camel);
        }
        if !inline {
          w.WriteString("}");
        }
        assert w.data == start + ((if inline then "" else "{") + FieldsText(t, |fields|, inverseName, camel)
                                  + (if inline then "" else "}"));
      case _ =>
    }
  }

  /** One pass of the field loop of `writeQuery`: appends the text for field `i` of `t`. */
  method WriteField(w: Writer, t: GoType, i: nat, inverseName: string, camel: string -> string)
    requires t.Struct? && i < |t.fields|
    modifies w
    ensures w.data == old(w.data) + FieldText(t, i, inverseName, camel)
    decreases t, 0
  {
    var f := t.fields[i];
    var value := f.graphqlTag.GetOr("");
    var ok := f.graphqlTag.Some?;
    if value == "-" {
      return; // omitted
    } else if value == "" {
      value := camel(f.name);
    }
    if inverseName == value {
      return; // back-reference to the parent: not expanded
    }
    var thisInverseName := f.hasInverse;
    if i != 0 {
      w.WriteString(",");
    }
    var inlineField := f.anonymous && !ok;
    if !inlineField {
      w.WriteString(value);
    }
    ghost var written := w.data;
    WriteQuery(w, f.typ, inlineField, thisInverseName, camel);
    assert w.data == written + QueryText(f.typ, inlineField, thisInverseName, camel);
  }

  /** `query`: the selection set for the root type, written into a fresh buffer. */
  method Query(t: GoType, camel: string -> string) returns (s: string)
    ensures s == QueryText(t, false, "", camel)
  {
    var buf := new Writer();
    WriteQuery(buf, t, false, "", camel);
    s := buf.data;
  }
}
