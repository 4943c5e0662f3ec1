/**
 * Go types as the query compiler sees them through reflection, as a finite tree.
 * Only the kinds the compiler distinguishes are separate constructors; every
 * other kind (bool, int, string, interface, map, ...) is `Other`, known by its name.
 */
module GoTypes {
  import opened Wrappers

  /**
   * A struct field: its declared name, the value of its `graphql` struct tag
   * (`None` when the tag is absent), the value of its `hasInverse` tag (empty
   * when absent, as `Tag.Lookup` reports it), whether it is embedded, and its type.
   */
  datatype Field = Field(
    name: string,
    graphqlTag: Option<string>,
    hasInverse: string,
    anonymous: bool,
    typ: GoType)

  /**
   * `Struct.unmarshaler` records whether a pointer to the struct implements
   * `json.Unmarshaler` (the nullable scalars, custom scalars such as a URI type).
   * `name` is what `reflect.Type.Name()` reports: empty for unnamed types.
   */
  datatype GoType =
    | Ptr(elem: GoType)
    | Slice(elem: GoType)
    | Array(elem: GoType)
    | Struct(name: string, unmarshaler: bool, fields: seq<Field>)
    | Other(name: string)

  /** The type under any number of pointer and slice layers (arrays are not unwrapped). */
  function Base(t: GoType): (b: GoType)
    ensures !b.Ptr? && !b.Slice?
    ensures b == t || b < t
  {
    match t
    case Ptr(e) => Base(e)
    case Slice(e) => Base(e)
    case _ => t
  }

  /** `k` pointer layers around `t`. */
  function Ptrs(k: nat, t: GoType): GoType {
    if k == 0 then t else Ptr(Ptrs(k - 1, t))
  }
}
