/** Properties of the selection-set writer `writeQuery` (query.go). */
module SelectionLemmas {
  import opened Wrappers
  import opened GoTypes
  import opened Text
  import opened Selection

  /** Pointer and slice layers contribute no text: only the type beneath them is written, and never inlined. */
  lemma {:induction false} UnwrapLayers(t: GoType, inline: bool, inverseName: string, camel: string -> string)
    ensures QueryText(t, inline, inverseName, camel)
         == QueryText(Base(t), if Base(t) == t then inline else false, inverseName, camel)
  {
    match t
    case Ptr(e) => UnwrapLayers(e, false, inverseName, camel);
    case Slice(e) => UnwrapLayers(e, false, inverseName, camel);
    case _ =>
  }

  /** A struct that `writeQuery` expands: not a custom-decoded scalar. */
  predicate Expanded(t: GoType) {
    t.Struct? && !t.unmarshaler
  }

  /**
   * Only expanded structs (possibly under pointers and slices) produce text; arrays,
   * scalar leaves and every other kind produce nothing. An expanded struct that
   * is not inlined is written as one braced selection set.
   */
  lemma SelectionShape(t: GoType, inline: bool, inverseName: string, camel: string -> string)
    ensures !Expanded(Base(t)) ==> QueryText(t, inline, inverseName, camel) == []
    ensures Expanded(Base(t)) && (Base(t) != t || !inline) ==>
              var s := QueryText(t, inline, inverseName, camel);
              |s| >= 2 && s[0] == '{' && s[|s| - 1] == '}'
  {
    UnwrapLayers(t, inline, inverseName, camel);
  }

  /**
   * No `graphql` tag and no converted field name anywhere in the type contains a
   * brace. Only the names of the type's own fields are asked of the converter.
   */
  predicate BraceFreeFields(t: GoType, camel: string -> string) {
    match t
    case Ptr(e) => BraceFreeFields(e, camel)
    case Slice(e) => BraceFreeFields(e, camel)
    case Array(e) => BraceFreeFields(e, camel)
    case Struct(_, _, fields) =>
      forall i :: 0 <= i < |fields| ==>
        && '{' !in fields[i].graphqlTag.GetOr("")
        && '}' !in fields[i].graphqlTag.GetOr("")
        && '{' !in camel(fields[i].name)
        && '}' !in camel(fields[i].name)
        && BraceFreeFields(fields[i].typ, camel)
    case Other(_) => true
  }

  /** When no tag and no converted name contains a brace, every selection text is well nested. */
  lemma {:induction false} QueryBalanced(t: GoType, inline: bool, inverseName: string, camel: string -> string)
    requires BraceFreeFields(t, camel)
    ensures Balanced(QueryText(t, inline, inverseName, camel), '{', '}')
    decreases t, 1, 0
  {
    match t
    case Ptr(e) => QueryBalanced(e, false, inverseName, camel);
    case Slice(e) => QueryBalanced(e, false, inverseName, camel);
    case Array(_) => FreeBalanced([], '{', '}');
    case Other(_) => FreeBalanced([], '{', '}');
    case Struct(_, unmarshaler, fields) =>
      if unmarshaler {
        FreeBalanced([], '{', '}');
      } else {
        var body := FieldsText(t, |fields|, inverseName, camel);
        FieldsBalanced(t, |fields|, inverseName, camel);
        if !inline {
          BalancedWrap(body, '{', '}');
          assert QueryText(t, inline, inverseName, camel) == ['{'] + body + ['}'];
        } else {
          assert QueryText(t, inline, inverseName, camel) == body;
        }
      }
  }

  lemma {:induction false} FieldsBalanced(t: GoType, n: nat, inverseName: string, camel: string -> string)
    requires t.Struct? && n <= |t.fields|
    requires BraceFreeFields(t, camel)
    ensures Balanced(FieldsText(t, n, inverseName, camel), '{', '}')
    decreases t, 0, n + 1
  {
    if n == 0 {
      FreeBalanced([], '{', '}');
    } else {
      FieldsBalanced(t, n - 1, inverseName, camel);
      var f := t.fields[n - 1];
      if Skipped(f, inverseName, camel) {
        FreeBalanced([], '{', '}');
      } else {
        var head := Sep(n - 1) + (if Inlined(f) then "" else ResolvedName(f, camel));
        assert '{' !in camel(f.name) && '}' !in camel(f.name);
        FreeBalanced(head, '{', '}');
        QueryBalanced(f.typ, Inlined(f), f.hasInverse, camel);
        BalancedConcat(head, QueryText(f.typ, Inlined(f), f.hasInverse, camel), '{', '}');
      }
      BalancedConcat(FieldsText(t, n - 1, inverseName, camel), FieldText(t, n - 1, inverseName, camel), '{', '}');
    }
  }

  /** Comma-separated list: the usual join, with a separator only between items. */
  function Join(items: seq<string>): string {
    if items == [] then []
    else if |items| == 1 then items[0]
    else items[0] + "," + Join(items[1..])
  }

  lemma {:induction false} JoinSnoc(items: seq<string>, last: string)
    requires items != []
    ensures Join(items + [last]) == Join(items) + "," + last
    decreases |items|
  {
    if |items| == 1 {
      assert items + [last] == [items[0], last];
    } else {
      assert (items + [last])[1..] == items[1..] + [last];
      JoinSnoc(items[1..], last);
    }
  }

  /** What a field that is not skipped contributes after its separator: its name (unless inlined) and its selection. */
  function Item(t: GoType, i: nat, camel: string -> string): string
    requires t.Struct? && i < |t.fields|
  {
    var f := t.fields[i];
    (if Inlined(f) then "" else ResolvedName(f, camel)) + QueryText(f.typ, Inlined(f), f.hasInverse, camel)
  }

  /** The items of the first `n` fields, in declared order. */
  function Items(t: GoType, n: nat, camel: string -> string): (r: seq<string>)
    requires t.Struct? && n <= |t.fields|
    ensures |r| == n
    ensures forall i :: 0 <= i < n ==> r[i] == Item(t, i, camel)
  {
    if n == 0 then [] else Items(t, n - 1, camel) + [Item(t, n - 1, camel)]
  }

  /**
   * When no field is skipped, the fields are written in declared order, separated by
   * exactly one comma each: the index-keyed comma of `writeQuery` is then the usual join.
   */
  lemma {:induction false} FieldsAreJoined(t: GoType, n: nat, inverseName: string, camel: string -> string)
    requires t.Struct? && n <= |t.fields|
    requires forall i :: 0 <= i < n ==> !Skipped(t.fields[i], inverseName, camel)
    ensures FieldsText(t, n, inverseName, camel) == Join(Items(t, n, camel))
  {
    if n == 1 {
      assert FieldsText(t, 1, inverseName, camel) == FieldsText(t, 0, inverseName, camel) + FieldText(t, 0, inverseName, camel);
    } else if n > 1 {
      FieldsAreJoined(t, n - 1, inverseName, camel);
      JoinSnoc(Items(t, n - 1, camel), Item(t, n - 1, camel));
    }
  }

  lemma StructIsJoinedSelection(t: GoType, inverseName: string, camel: string -> string)
    requires Expanded(t)
    requires forall i :: 0 <= i < |t.fields| ==> !Skipped(t.fields[i], inverseName, camel)
    ensures QueryText(t, false, inverseName, camel) == "{" + Join(Items(t, |t.fields|, camel)) + "}"
  {
    FieldsAreJoined(t, |t.fields|, inverseName, camel);
  }

  /**
   * The comma is keyed on the field index, not on "first field written": when
   * field 0 is skipped, the selection set opens with a comma. (Commas are
   * insignificant in GraphQL, so the text is still accepted.)
   */
  lemma LeadingComma(t: GoType, inverseName: string, camel: string -> string)
    requires Expanded(t) && |t.fields| >= 2
    requires Skipped(t.fields[0], inverseName, camel)
    requires !Skipped(t.fields[1], inverseName, camel)
    ensures QueryText(t, false, inverseName, camel)[..2] == "{,"
  {
    var fs := FieldsText(t, |t.fields|, inverseName, camel);
    FieldsPrefix(t, 2, |t.fields|, inverseName, camel);
    assert FieldText(t, 0, inverseName, camel) == [];
    assert FieldsText(t, 1, inverseName, camel) == FieldsText(t, 0, inverseName, camel) + FieldText(t, 0, inverseName, camel) == [];
    assert FieldsText(t, 2, inverseName, camel) == FieldsText(t, 1, inverseName, camel) + FieldText(t, 1, inverseName, camel);
    assert FieldText(t, 1, inverseName, camel) == "," + Item(t, 1, camel);
    assert FieldsText(t, 2, inverseName, camel) == "," + Item(t, 1, camel);
    assert fs[..1] == ",";
  }

  /** Writing more fields only extends the text. */
  lemma {:induction false} FieldsPrefix(t: GoType, m: nat, n: nat, inverseName: string, camel: string -> string)
    requires t.Struct? && m <= n <= |t.fields|
    ensures |FieldsText(t, m, inverseName, camel)| <= |FieldsText(t, n, inverseName, camel)|
    ensures FieldsText(t, n, inverseName, camel)[..|FieldsText(t, m, inverseName, camel)|] == FieldsText(t, m, inverseName, camel)
    decreases n
  {
    if m < n {
      FieldsPrefix(t, m, n - 1, inverseName, camel);
    }
  }

  /**
   * The inverse guard is one level deep: it only matters through the names of the
   * fields of the struct directly below it (under pointers and slices); each
   * field's own selection is guarded by that field's `hasInverse` tag instead.
   */
  lemma {:induction false} GuardIsOneLevel(t: GoType, inline: bool, guard1: string, guard2: string, camel: string -> string)
    requires Base(t).Struct? ==>
               forall i :: 0 <= i < |Base(t).fields| ==>
                 ResolvedName(Base(t).fields[i], camel) != guard1 && ResolvedName(Base(t).fields[i], camel) != guard2
    ensures QueryText(t, inline, guard1, camel) == QueryText(t, inline, guard2, camel)
  {
    match t
    case Ptr(e) => GuardIsOneLevel(e, false, guard1, guard2, camel);
    case Slice(e) => GuardIsOneLevel(e, false, guard1, guard2, camel);
    case Struct(_, _, fields) => FieldsGuardFree(t, |fields|, guard1, guard2, camel);
    case _ =>
  }

  lemma {:induction false} FieldsGuardFree(t: GoType, n: nat, guard1: string, guard2: string, camel: string -> string)
    requires t.Struct? && n <= |t.fields|
    requires forall i :: 0 <= i < |t.fields| ==>
               ResolvedName(t.fields[i], camel) != guard1 && ResolvedName(t.fields[i], camel) != guard2
    ensures FieldsText(t, n, guard1, camel) == FieldsText(t, n, guard2, camel)
  {
    if n > 0 {
      FieldsGuardFree(t, n - 1, guard1, guard2, camel);
      assert ResolvedName(t.fields[n - 1], camel) != guard1;
      assert ResolvedName(t.fields[n - 1], camel) != guard2;
    }
  }

  /** A field whose resolved name is the inherited guard, or tagged `-`, writes nothing: no name, no comma, no selection. */
  lemma SkippedFieldWritesNothing(t: GoType, i: nat, inverseName: string, camel: string -> string)
    requires t.Struct? && i < |t.fields|
    requires ResolvedName(t.fields[i], camel) == inverseName || t.fields[i].graphqlTag == Some("-")
    ensures FieldText(t, i, inverseName, camel) == []
    ensures FieldsText(t, i + 1, inverseName, camel) == FieldsText(t, i, inverseName, camel)
  {
  }

  /**
   * Embedded fields. Without a `graphql` tag, an embedded struct's fields are spliced
   * into the parent: no name and no braces. With a tag (an inline fragment such as
   * `... on IssueComment`), it is an ordinary named, braced selection. An embedded
   * pointer to a struct is not spliced: the pointer resets `inline`, so its fields
   * come out braced but without a name.
   */
  lemma EmbeddedField(t: GoType, i: nat, inverseName: string, camel: string -> string)
    requires t.Struct? && i < |t.fields|
    requires t.fields[i].anonymous && !Skipped(t.fields[i], inverseName, camel)
    ensures var f := t.fields[i];
            f.graphqlTag.None? && Expanded(f.typ) ==>
              FieldText(t, i, inverseName, camel)
              == Sep(i) + FieldsText(f.typ, |f.typ.fields|, f.hasInverse, camel)
    ensures var f := t.fields[i];
            f.graphqlTag.Some? && Expanded(f.typ) ==>
              FieldText(t, i, inverseName, camel)
              == Sep(i) + ResolvedName(f, camel) + "{" + FieldsText(f.typ, |f.typ.fields|, f.hasInverse, camel) + "}"
    ensures var f := t.fields[i];
            f.graphqlTag.None? && f.typ.Ptr? && Expanded(f.typ.elem) ==>
              FieldText(t, i, inverseName, camel)
              == Sep(i) + "{" + FieldsText(f.typ.elem, |f.typ.elem.fields|, f.hasInverse, camel) + "}"
  {
    var f := t.fields[i];
    if f.graphqlTag.None? && f.typ.Ptr? && Expanded(f.typ.elem) {
      assert QueryText(f.typ, true, f.hasInverse, camel) == QueryText(f.typ.elem, false, f.hasInverse, camel);
    }
  }
}
