/** Input object types, as the cycle validators and the coercion of input values see them. */
module InputObjects {
  import opened Options
  import opened TypeRefs

  /**
   An input value. A literal enters as what the code makes of it: its objects as the
   dictionary of their fields.
   */
  datatype Value =
    | Undefined
    | Null
    | Leaf(token: int)
    | List(items: seq<Value>)
    | Object(entries: seq<Entry>)

  datatype Entry = Entry(name: Name, value: Value)

  /** The value under a key; `None` if there is no such key. */
  function Lookup(entries: seq<Entry>, name: Name): (r: Option<Value>)
    ensures r.Some? ==> exists i :: 0 <= i < |entries| && entries[i].name == name && entries[i].value == r.value
  {
    if entries == [] then None
    else if entries[|entries| - 1].name == name then Some(entries[|entries| - 1].value)
    else Lookup(entries[..|entries| - 1], name)
  }

  /** `GraphQLDefaultInput`: an external value or a literal. */
  datatype Default = Default(value: Value, literal: bool)

  /** A value after coercion. */
  datatype Coerced =
    | NullValue
    | LeafValue(token: int)
    | ListValue(items: seq<Coerced>)
    | ObjectValue(entries: seq<CoercedEntry>)

  datatype CoercedEntry = CoercedEntry(name: Name, value: Coerced)

  /** A field with its external default and its deprecated internal one. */
  datatype Field = Field(name: Name, typ: TypeRef, default: Option<Default>, internalDefault: Option<Coerced>)

  datatype InputObject = InputObject(fields: seq<Field>, isOneOf: bool)

  /** The input object types of a schema by name; every other named type is a leaf type. */
  type Schema = map<Name, InputObject>
}
