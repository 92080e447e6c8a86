/** Selection sets, fragments and the schema's abstract types, as field collection sees them. */
module Selections {
  import opened Options

  /** The names of fields, fragments, types, variables and labels, which are only compared. */
  type Name(==, !new)

  /** The argument of a directive: a literal or a variable. */
  datatype Flag = Literal(value: bool) | Variable(name: Name)

  /** An instance of @skip or @include. */
  datatype Directive = Directive(id: int, condition: Flag)

  datatype Defer = Defer(enabled: Option<Flag>, tag: Option<Name>)

  /** A field without a selection set has an empty one, which selects nothing either. */
  datatype Selection =
    | Field(id: int, name: Name, alias: Option<Name>, skip: Option<Directive>, incl: Option<Directive>,
            selections: seq<Selection>)
    | InlineFragment(condition: Option<Name>, skip: Option<Directive>, incl: Option<Directive>, defer: Option<Defer>,
                     body: seq<Selection>)
    | Spread(fragment: Name, skip: Option<Directive>, incl: Option<Directive>, defer: Option<Defer>)

  datatype Fragment = Fragment(condition: Name, body: seq<Selection>)

  /** `get_field_entry_key` */
  function EntryKey(f: Selection): Name
    requires f.Field?
  {
    if f.alias.Some? then f.alias.value else f.name
  }
}
