/** References to types: a named type, in lists and non-null. */
module TypeRefs {

  /** The names of types, fields and arguments, which are only compared. */
  type Name(==, !new)

  datatype TypeRef =
    | Named(name: Name)
    | ListOf(item: TypeRef)
    | NonNull(inner: TypeRef)

  /** `get_named_type` */
  function NamedType(t: TypeRef): Name {
    match t
    case Named(name) => name
    case ListOf(item) => NamedType(item)
    case NonNull(inner) => NamedType(inner)
  }
}
