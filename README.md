# go-graphql-client query compiler, modelled in Dafny

This project models the query compiler of a Go GraphQL client, together with its
nullable scalar wrappers. The compiler takes the Go type of a result struct and
a map of variables, and produces one minified GraphQL document, in three steps:

- **Selection set.** `writeQuery` walks the type tree and writes `{a,b{c}}`:
  - pointer and slice layers are transparent;
  - a struct whose pointer implements `json.Unmarshaler` is a leaf;
  - an untagged embedded struct has its fields spliced into the parent;
  - a `graphql:"-"` tag drops a field;
  - a field named like the inherited `hasInverse` guard is dropped as well.
- **Variable header.** `queryArguments` writes `$name:Type` for every variable, sorted by name and
  with no separators. `writeArgumentType` maps the Go type to a GraphQL type:
  - a pointer is optional, except in a mutation;
  - slices and arrays are lists of required elements;
  - five wrapper names go through a fixed table.
- **Envelope.** `constructQuery`, `constructMutation` and `constructSubscription` prefix the
  keyword, the operation name and the header. The keyword is dropped only for an anonymous query
  with no variables.

The wrappers `GqlBool`, `GqlFloat64`, `GqlInt64`, `GqlString` and `GqlTime` pair a payload with
a `Valid` flag and map it to and from JSON `null`. They are identical apart from the payload type,
so one generic `Nullable<T>` (a value) and one `NullableRef<T>` (the pointer receiver) model all
five.

Modules and files:

| file | module | what it holds |
|---|---|---|
| `gotypes.dfy` | `GoTypes` | the Go types the compiler reflects on, as a finite tree |
| `text.dfy` | `Text` | an append-only `Writer` (`bytes.Buffer`), bracket balance, and cutting at a character |
| `lex.dfy` | `Lex` | byte-wise string order, sorting, and the sorted listing of a key set |
| `selection.dfy` | `Selection` | `QueryText` (what `writeQuery` writes), with the methods `WriteQuery`, `WriteField` and `Query` proved against it |
| `arguments.dfy` | `Arguments` | `ArgType` and `Header`, with the methods `WriteArgumentType`, `SortedNames` and `QueryArguments` proved against them |
| `envelope.dfy` | `Envelope` | the three `construct*` methods, proved against `OperationText` |
| `scalar.dfy` | `Scalar` | the wrappers and their constructors |
| `*_lemmas.dfy` | | the properties of each part |
| `scenarios.dfy` | `Scenarios` | literal outputs from `query_test.go`, derived from the model |

The field-name converter `ident.ParseMixedCaps(name).ToLowerCamelCase()` is not part of this
model. It is the function parameter `camel`. The scenarios constrain it only on the names they
use, with the conversions the tests show.

## Model

| member | source | states |
|---|---|---|
| Selection.WriteQuery | query.go:133-174 | appends exactly `QueryText(t, inline, inverseName)`, the recursive selection text, to the buffer |
| Selection.WriteField | query.go:145-168 | one pass of the field loop appends exactly `FieldText`: nothing for a skipped field, otherwise the comma if the index is not 0, the resolved name unless inlined, then the field's own selection |
| Selection.Query | query.go:122-128 | a fresh buffer ends up holding the root selection written with no inlining and an empty guard |
| SelectionLemmas.UnwrapLayers | query.go:134-136 | pointer and slice layers add no text; the type beneath them is written as if it stood alone, never inlined |
| SelectionLemmas.SelectionShape | query.go:134-144 | the text is empty unless the innermost type is a struct without `json.Unmarshaler`; otherwise it opens with `{` and closes with `}` whenever it is not inlined |
| SelectionLemmas.QueryBalanced | query.go:142-172 | when no tag and no converted field name of the type contains a brace, every selection text has well-nested braces |
| SelectionLemmas.FieldsBalanced | query.go:145-169 | under the same premise on the struct's own tags and converted field names, the text written for any prefix of its fields has well-nested braces |
| SelectionLemmas.FieldsAreJoined | query.go:145-169 | with no field skipped, the field loop writes the comma-join of the field items in declared order |
| SelectionLemmas.StructIsJoinedSelection | query.go:142-172 | a struct with no skipped field is selected as `{` + comma-join of its items + `}` |
| SelectionLemmas.LeadingComma | query.go:161-163 | the comma test looks at the field index, not at what was written: skipping field 0 and keeping field 1 gives text starting `{,` |
| SelectionLemmas.FieldsPrefix | query.go:145-169 | writing more fields only extends the text already written |
| SelectionLemmas.GuardIsOneLevel | query.go:154-157 | the inverse guard affects only the fields of the struct it is passed to: if none of them resolves to either guard, both guards give the same text |
| SelectionLemmas.SkippedFieldWritesNothing | query.go:147-156 | a field tagged `-` or resolving to the guard writes nothing at all: no name, no comma, no selection |
| SelectionLemmas.EmbeddedField | query.go:164-168 | an untagged embedded struct is spliced in without name or braces; a tagged one is selected under its tag; an untagged embedded pointer writes no name but keeps its braces |
| Arguments.GraphQLName | query.go:94-109 | the five wrapper names map to `Boolean`, `Float!`, `Int!`, `String!` and `DateTime!`; every other name is kept as it is |
| Arguments.WriteArgumentType | query.go:76-116 | appends exactly `ArgType(t, value, isMutation)` to the buffer |
| Arguments.SortedNames | query.go:54-58 | the key names gathered in map order and sorted are the strictly increasing listing of the key set |
| Arguments.QueryArguments | query.go:51-71 | the result is the declarations `$k:Type` of the sorted keys, concatenated with no separator |
| Arguments.HeaderStep | query.go:61-69 | one more loop pass appends the next key's declaration to the header written so far |
| ArgumentsLemmas.PointerLayers | query.go:77-84 | any number of pointer layers is one optional marker in a query and required in a mutation: the `!` depends only on the mutation flag |
| ArgumentsLemmas.RequiredMarker | query.go:112-115 | a non-pointer value type gets a trailing `!`; the table entries already ending in `!` get a second one (`GqlInt64` gives `Int!!`, `GqlBool` gives `Boolean!`) |
| ArgumentsLemmas.ListTypes | query.go:87-91 | slices and arrays give the same text: a bracketed list of required elements |
| ArgumentsLemmas.ArgTypeBalanced | query.go:86-91 | when no type name has a square bracket, list brackets are well nested |
| ArgumentsLemmas.ListBalanced | query.go:87-91 | a list type with bracket-free names has well-nested brackets, whatever its marker |
| ArgumentsLemmas.ArgTypeAvoids | query.go:86-110 | a type signature contains `$`, `{` or `}` only if some type name does |
| ArgumentsLemmas.DeclaredNamesCons | query.go:62-65 | reading one declaration back yields its name, followed by the names of the rest |
| ArgumentsLemmas.HeaderCons | query.go:61-69 | the header is the first key's declaration followed by the header of the remaining keys |
| ArgumentsLemmas.HeaderNamesRoundTrip | query.go:61-69 | parsing the names back out of a header (each `$` up to its `:`) recovers the key sequence it was written from |
| ArgumentsLemmas.HeaderDeclaresEachOnceInOrder | query.go:51-71 | every variable is declared exactly once, in strictly increasing name order, and nothing else is declared |
| ArgumentsLemmas.HeaderAvoids | query.go:61-69 | the header contains no brace when no name or type name does |
| Envelope.ConstructQuery | query.go:14-24 | the result is the query document: `query name(header)selection` with variables, `query nameselection` with only a name, the bare selection otherwise |
| Envelope.ConstructMutation | query.go:26-35 | the mutation document, which always has its keyword; variables are typed in mutation context |
| Envelope.ConstructSubscription | query.go:37-46 | the subscription document, which always has its keyword |
| EnvelopeLemmas.BareOnlyForAnonymousQuery | query.go:14-46 | a document equals its bare selection exactly when it is a query with no name and no variables |
| EnvelopeLemmas.SelectionRecoverable | query.go:14-46 | when the name and header have no `{`, the text from the first `{` on is exactly the selection |
| EnvelopeLemmas.OperationSelection | query.go:14-46 | for every operation, the compiled document ends with the selection `query` computes, which starts at its first `{` |
| Lex.SortedKeys | query.go:54-58 | the sorted listing of a key set is strictly increasing, has exactly the set's members, and has as many elements as the set |
| Lex.StrictlySortedUnique | query.go:58 | two strictly increasing listings of the same names are equal, so the header does not depend on map iteration order |
| Lex.Sort | query.go:58 | the result is sorted and is a permutation of the input |
| Scalar.Nullable.MarshalJSON | scalar.go:24-29 | encodes JSON `null` exactly when `Valid` is false, and the payload otherwise; the other four `MarshalJSON` are the same |
| Scalar.Nullable.Unmarshal | scalar.go:31-43 | a decoding error leaves the value unchanged and is returned; `null` clears `Valid` and keeps the old payload; a value is stored and sets `Valid` |
| Scalar.NullableRef.UnmarshalJSON | scalar.go:31-43 | the pointer receiver is updated in place as `Unmarshal` says, field by field; the other four `UnmarshalJSON` are the same |
| Scalar.NewBool | scalar.go:22 | a fresh pointer to a valid wrapper holding `x` |
| Scalar.NewBoolStruct | scalar.go:17-20 | the valid wrapper value holding `x` |
| Scalar.NewFloat64 | scalar.go:55 | a fresh pointer to a valid wrapper holding `x` |
| Scalar.NewFloat64Struct | scalar.go:50-53 | the valid wrapper value holding `x` |
| Scalar.NewInt64 | scalar.go:88 | a fresh pointer to a valid wrapper holding `x` |
| Scalar.NewInt64Struct | scalar.go:83-86 | the valid wrapper value holding `x` |
| Scalar.NewString | scalar.go:121 | a fresh pointer to a valid wrapper holding `x` |
| Scalar.NewStringStruct | scalar.go:116-119 | the valid wrapper value holding `x` |
| Scalar.NewTime | scalar.go:154 | a fresh pointer to a valid wrapper holding `x` |
| Scalar.NewTimeStruct | scalar.go:149-152 | the valid wrapper value holding `x` |
| Scalar.NewPoint | scalar.go:189-191 | both coordinates are fresh, distinct, valid wrappers holding the latitude and the longitude |
| Scalar.NewPointStruct | scalar.go:184-187 | the same point, as a value holding two fresh, distinct, valid wrappers with `lat` and `lng` |
| ScalarLemmas.RoundTrip | scalar.go:24-43 | encoding then decoding never fails and restores `Valid`, plus the payload when valid; decoding `null` keeps the receiver's old payload |
| ScalarLemmas.DecodeThenEncode | scalar.go:24-43 | any JSON that decodes without error is encoded back to the same JSON |
| ScalarLemmas.UnmarshalIdempotent | scalar.go:31-43 | decoding the same input twice leaves the receiver as decoding it once |
| ScalarLemmas.RoundTripInPlace | scalar.go:24-43 | the round trip through a receiver in memory: no error, `Valid` restored, payload restored when valid and kept when null |
| Scenarios.ViewerQuery | query_test.go:222-231 | a struct of plain Go leaf fields compiles to `{viewer{login,createdAt,id,databaseId}}`, and as a subscription to the same text after `subscription` |
| Scenarios.AddReactionSelection | query_test.go:249-266 | a tagged field is selected under its tag, and a slice of structs is selected like the struct |
| Scenarios.AddReactionMutation | query_test.go:248-266 | the mutation with one struct variable compiles to `mutation ($input:AddReactionInput!){addReaction(input:$input){subject{reactionGroups{users{totalCount}}}}}` |
| Scenarios.ScalarPointerArguments | query_test.go:515-518 | `NewInt64` and `NewBool` pointers give the header `$a:Int!$b:Boolean` |
| Scenarios.ListArguments | query_test.go:519-538 | a slice or array variable is `[IssueState!]!`, a pointer to one is `[IssueState!]`, and `optional` is declared before `required` |
| Scenarios.PlainStringArgument | query.go:95-97 | a Go `string` variable is declared `$id:string!`, because the `ID` entry of the table is commented out |

## Left out

- The name converter `ident.ParseMixedCaps(..).ToLowerCamelCase()` is not part of this model. It is the parameter `camel`. The balance lemmas `SelectionLemmas.QueryBalanced` and `SelectionLemmas.FieldsBalanced` assume only that it puts no brace into the converted names of the fields of the type at hand; no other property depends on its definition.
- Go reflection is replaced by the `GoType` tree. Whether `*T` implements `json.Unmarshaler` is a flag on the struct.
- The tree is finite, so self-referential types are not modelled. The code's only protection against them is the one-level `hasInverse` guard, shown by `GuardIsOneLevel`.
- `query` builds an unused `seen` map and prints it with `fmt.Println` (query.go:124-126). That output to standard output is left out.
- A `nil` root, or a variable whose value is an untyped `nil`, makes `reflect.TypeOf` return nil (query.go:125, query.go:65). `writeQuery` or `writeArgumentType` then panics at `t.Kind()` (query.go:134, query.go:77). The model has no nil type. A typed nil pointer such as `(*[]IssueState)(nil)` keeps its type and is modelled.
- A root that is neither a struct nor a pointer or slice leading to one yields the empty selection. The code raises no error for it, and neither does the model (`SelectionShape`).
- `sort.Strings` is modelled by its result, a strictly increasing listing (`SortedKeys`). `SortedNames` sorts with a pure insertion sort rather than Go's in-place algorithm.
- `Lex.Less` compares characters. That matches Go's byte order on well-formed UTF-8 only.
- JSON text is abstract. `encoding/json` is replaced by `Json<T>` (null, a payload value, or a decoding error). Number and time formatting are not modelled, nor are the marshal failures for NaN, infinite floats and out-of-range years.
- ScalarLemmas.RoundTrip: states that nothing fails, which does not hold in Go for NaN or infinite `float64` payloads and for unencodable times, because encoding is abstract here.
- ScalarLemmas.RoundTrip: for `GqlTime` it states that the decoded payload equals the original. In Go only the instant survives the RFC 3339 text (scalar.go:156-170): the monotonic clock reading is dropped and the location comes back as UTC, Local or a fixed zone. Here `Json<T>` carries the exact `Time`, so this loss is not modelled.
- ScalarLemmas.RoundTrip: for `GqlString` it states that the payload is restored. A Go string may hold invalid UTF-8, which `json.Marshal` (scalar.go:125) replaces by U+FFFD, so Go does not round-trip such a string. The model's `string` holds only Unicode characters, so strings with invalid UTF-8 are not modelled.
- ScalarLemmas.RoundTripInPlace: the same holds for `GqlTime`. Only the instant is restored in Go, not the monotonic reading or the location, and the model does not capture that loss.
- ScalarLemmas.RoundTripInPlace: the same holds for `GqlString`. Go strings with invalid UTF-8 are not modelled, and Go does not round-trip them, because the encoder replaces each invalid byte by U+FFFD.
- `float64` is kept as its 64-bit pattern, and `time.Time` as its wall, ext and location fields. The wrappers only store them.
- `NewPoint` returns `*GqlPoint` in Go. Nothing updates a point in place, so the model returns the point value; the aliasing that stays modelled is that of the two coordinate wrappers.
- The test loop of `TestQueryArguments` calls `queryArguments(tc.in)` with one argument instead of two (query_test.go:554), for every case. `Scenarios.ScalarPointerArguments` and `Scenarios.ListArguments` read that call as `isMutation = false`. The cases at query_test.go:540-551 also expect an `ID` mapping, which the code has commented out, so they no longer match the code. `PlainStringArgument` states what the code produces for the first of them.
- The example client under `example/` performs network calls and is not part of this model.
