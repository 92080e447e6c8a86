/**
 Coercion of input values and of defaults, which ask for each other: defined for every
 value once the defaults can be ranked, and memoized without changing any result.
 */
module InputCoercion {
  import opened Options
  import opened TypeRefs
  import opened InputObjects
  import opened DefaultCycles

  /** A coerced value, the invalid outcome `Undefined`, or the error for an invalid default. */
  datatype Outcome<+T> = Ok(value: T) | Invalid | Raised

  /** How leaf types coerce values and literals; `None` where they refuse. */
  type LeafCoercion = (Name, Value, bool) -> Option<Coerced>

  predicate IsMissing(v: Value) {
    v.Null? || v.Undefined?
  }

  /** `is_required_input_field` */
  predicate IsRequired(f: Field) {
    f.typ.NonNull? && f.default.None? && f.internalDefault.None?
  }

  // ---------------------------------------------------------------------------
  // What is asked for stays below a bound
  // ---------------------------------------------------------------------------

  ghost predicate AllBelow(rank: map<FieldRef, nat>, asked: seq<FieldRef>, n: nat) {
    forall r | r in asked :: r in rank && rank[r] < n
  }

  /** The defaults that coercing the value may ask for all rank below the bound. */
  ghost predicate Below(schema: Schema, rank: map<FieldRef, nat>, typ: Name, v: Value, n: nat) {
    typ in schema ==> AllBelow(rank, Asks(schema, typ, v, false), n)
  }

  ghost predicate ItemsBelow(schema: Schema, rank: map<FieldRef, nat>, typ: Name, items: seq<Value>, n: nat) {
    typ in schema ==> AllBelow(rank, AsksOfItems(schema, typ, items, false), n)
  }

  ghost predicate FieldsBelow(schema: Schema, rank: map<FieldRef, nat>, typ: Name, v: Value, k: nat, n: nat)
    requires typ in schema && v.Object? && k <= |schema[typ].fields|
  {
    AllBelow(rank, AsksOfFields(schema, typ, v, k, false), n)
  }

  function Weight(schema: Schema, t: TypeRef): nat {
    if NamedType(t) in schema then 1 else 0
  }

  lemma {:induction false} FirstItemBelow(schema: Schema, rank: map<FieldRef, nat>, typ: Name, items: seq<Value>,
      n: nat)
    requires items != [] && ItemsBelow(schema, rank, typ, items, n)
    ensures Below(schema, rank, typ, items[0], n) && ItemsBelow(schema, rank, typ, items[1..], n)
  {
    hide Asks;
  }

  lemma {:induction false} LastFieldBelow(schema: Schema, rank: map<FieldRef, nat>, typ: Name, v: Value, k: nat, n: nat)
    requires typ in schema && v.Object? && 0 < k <= |schema[typ].fields| && FieldsBelow(schema, rank, typ, v, k, n)
    ensures FieldsBelow(schema, rank, typ, v, k - 1, n)
    ensures var f := schema[typ].fields[k - 1];
            var given := Given(v.entries, f.name, false);
            && (given.Some? ==> Below(schema, rank, NamedType(f.typ), given.value, n))
            && (given.None? && f.default.Some? && NamedType(f.typ) in schema ==>
                  FieldRef(typ, k - 1) in rank && rank[FieldRef(typ, k - 1)] < n)
  {
    hide Asks;
    assert AllBelow(rank, AsksOfField(schema, typ, v, k - 1, false), n);
    assert FieldRef(typ, k - 1) in [FieldRef(typ, k - 1)];
  }

  lemma {:induction false} DefaultBelow(schema: Schema, rank: map<FieldRef, nat>, r: FieldRef)
    requires IsRank(schema, rank, false) && IsField(schema, r) && FieldOf(schema, r).default.Some?
    requires NamedType(FieldOf(schema, r).typ) in schema ==> r in rank
    ensures var f := FieldOf(schema, r);
            var n := if NamedType(f.typ) in schema then rank[r] else 0;
            Below(schema, rank, NamedType(f.typ), f.default.value.value, n)
  {
    var f := FieldOf(schema, r);
    if NamedType(f.typ) in schema {
      assert HasDefault(schema, r);
      assert AsksOfDefault(schema, r, false) == Asks(schema, NamedType(f.typ), f.default.value.value, false);
    }
  }

  // ---------------------------------------------------------------------------
  // Coercion
  // ---------------------------------------------------------------------------

  /** `coerce_input_value`, and `coerce_input_literal` for a literal without variables. */
  function CoerceValue(schema: Schema, leaf: LeafCoercion, rank: map<FieldRef, nat>, v: Value, t: TypeRef,
      literal: bool, n: nat)
    : (r: Outcome<Coerced>)
    requires IsRank(schema, rank, false) && Below(schema, rank, NamedType(t), v, n)
    decreases n, Weight(schema, t), v, 1, t
  {
    match t
    case NonNull(inner) => if IsMissing(v) then Invalid else CoerceValue(schema, leaf, rank, v, inner, literal, n)
    case ListOf(item) =>
      if IsMissing(v) then Ok(NullValue)
      else if v.List? then
        var items := CoerceItems(schema, leaf, rank, v.items, item, literal, n);
        if items.Ok? then Ok(ListValue(items.value)) else if items.Invalid? then Invalid else Raised
      else
        var r := CoerceValue(schema, leaf, rank, v, item, literal, n);
        if r.Ok? then Ok(ListValue([r.value])) else r
    case Named(name) =>
      if IsMissing(v) then Ok(NullValue)
      else if name in schema then
        if !v.Object? || HasUnknownField(schema[name], v.entries) then Invalid
        else
          var fields := CoerceFields(schema, leaf, rank, v, name, |schema[name].fields|, literal, n);
          if fields.Invalid? then Invalid
          else if fields.Raised? then Raised
          else if schema[name].isOneOf && !IsOneOf(v.entries, fields.value) then Invalid
          else Ok(ObjectValue(fields.value))
      else
        var r := leaf(name, v, literal);
        if r.Some? then Ok(r.value) else Invalid
  }

  function CoerceItems(schema: Schema, leaf: LeafCoercion, rank: map<FieldRef, nat>, items: seq<Value>, t: TypeRef,
      literal: bool, n: nat)
    : (r: Outcome<seq<Coerced>>)
    requires IsRank(schema, rank, false) && ItemsBelow(schema, rank, NamedType(t), items, n)
    decreases n, Weight(schema, t), items, 0, t
  {
    if items == [] then Ok([])
    else
      FirstItemBelow(schema, rank, NamedType(t), items, n);
      var first := CoerceValue(schema, leaf, rank, items[0], t, literal, n);
      if first.Invalid? then Invalid
      else if first.Raised? then Raised
      else
        var rest := CoerceItems(schema, leaf, rank, items[1..], t, literal, n);
        if rest.Ok? then Ok([first.value] + rest.value) else rest
  }

  /** A key that is no field's name; keys without a value do not count. */
  predicate HasUnknownField(o: InputObject, entries: seq<Entry>) {
    exists i :: 0 <= i < |entries| && Given(entries, entries[i].name, false).Some? && IsUnknown(o, entries[i].name)
  }

  predicate IsUnknown(o: InputObject, name: Name) {
    forall k | 0 <= k < |o.fields| :: o.fields[k].name != name
  }

  /** Exactly one key is given, exactly one field comes out of it, and it is not null. */
  predicate IsOneOf(entries: seq<Entry>, fields: seq<CoercedEntry>) {
    && |GivenNames(entries)| == 1
    && |fields| == 1 && fields[0].value != NullValue
  }

  function GivenNames(entries: seq<Entry>): set<Name> {
    set i | 0 <= i < |entries| && Given(entries, entries[i].name, false).Some? :: entries[i].name
  }

  /** The first `k` fields of the type, in their order. */
  function CoerceFields(schema: Schema, leaf: LeafCoercion, rank: map<FieldRef, nat>, v: Value, typ: Name, k: nat,
      literal: bool, n: nat)
    : (r: Outcome<seq<CoercedEntry>>)
    requires typ in schema && v.Object? && k <= |schema[typ].fields|
    requires IsRank(schema, rank, false) && FieldsBelow(schema, rank, typ, v, k, n)
    decreases n, 1, v, 0, Named(typ), k
  {
    if k == 0 then Ok([])
    else
      LastFieldBelow(schema, rank, typ, v, k, n);
      var before := CoerceFields(schema, leaf, rank, v, typ, k - 1, literal, n);
      if !before.Ok? then before
      else
        var here := CoerceField(schema, leaf, rank, v, typ, k - 1, literal, n);
        if here.Ok? then Ok(before.value + here.value) else here
  }

  /** One field: nothing, if it is left out and has no default. */
  function CoerceField(schema: Schema, leaf: LeafCoercion, rank: map<FieldRef, nat>, v: Value, typ: Name, k: nat,
      literal: bool, n: nat)
    : (r: Outcome<seq<CoercedEntry>>)
    requires typ in schema && v.Object? && k < |schema[typ].fields|
    requires IsRank(schema, rank, false) && FieldsBelow(schema, rank, typ, v, k + 1, n)
    decreases n, 1, v, 0, Named(typ), k
  {
    var f := schema[typ].fields[k];
    var given := Given(v.entries, f.name, false);
    LastFieldBelow(schema, rank, typ, v, k + 1, n);
    if given.Some? then
      var r := CoerceValue(schema, leaf, rank, given.value, f.typ, literal, n);
      if r.Ok? then Ok([CoercedEntry(f.name, r.value)]) else if r.Invalid? then Invalid else Raised
    else if IsRequired(f) then Invalid
    else if f.default.Some? then
      var r := CoerceDefault(schema, leaf, rank, FieldRef(typ, k));
      if r.Ok? then Ok([CoercedEntry(f.name, r.value)]) else Raised
    else if f.internalDefault.Some? then Ok([CoercedEntry(f.name, f.internalDefault.value)])
    else Ok([])
  }

  /** The number that bounds what the default of a field asks for. */
  ghost function DefaultBound(schema: Schema, rank: map<FieldRef, nat>, r: FieldRef): nat
    requires IsField(schema, r)
  {
    if NamedType(FieldOf(schema, r).typ) in schema && r in rank then rank[r] else 0
  }

  /** `coerce_default_value` for a field with an external default. */
  function CoerceDefault(schema: Schema, leaf: LeafCoercion, rank: map<FieldRef, nat>,
      r: FieldRef): (o: Outcome<Coerced>)
    requires IsRank(schema, rank, false) && IsField(schema, r) && FieldOf(schema, r).default.Some?
    requires NamedType(FieldOf(schema, r).typ) in schema ==> r in rank
    ensures !o.Invalid?
    decreases DefaultBound(schema, rank, r), Weight(schema, FieldOf(schema, r).typ),
              FieldOf(schema, r).default.value.value, 2
  {
    var f := FieldOf(schema, r);
    var n := if NamedType(f.typ) in schema then rank[r] else 0;
    DefaultBelow(schema, rank, r);
    var o := CoerceValue(schema, leaf, rank, f.default.value.value, f.typ, f.default.value.literal, n);
    if o.Ok? then o else Raised
  }

  // ---------------------------------------------------------------------------
  // The result does not depend on the rank that bounds the recursion
  // ---------------------------------------------------------------------------

  lemma {:induction false} SameValue(schema: Schema, leaf: LeafCoercion, rank: map<FieldRef, nat>,
      rank': map<FieldRef, nat>, v: Value, t: TypeRef, literal: bool, n: nat, n': nat)
    requires IsRank(schema, rank, false) && Below(schema, rank, NamedType(t), v, n)
    requires IsRank(schema, rank', false) && Below(schema, rank', NamedType(t), v, n')
    ensures CoerceValue(schema, leaf, rank, v, t, literal, n) == CoerceValue(schema, leaf, rank', v, t, literal, n')
    decreases n, Weight(schema, t), v, 1, t
  {
    hide IsRank, Below, CoerceItems, CoerceFields;
    match t
    case NonNull(inner) =>
      if !IsMissing(v) {
        SameValue(schema, leaf, rank, rank', v, inner, literal, n, n');
      }
    case ListOf(item) =>
      if v.List? {
        BelowItems(schema, rank, NamedType(t), v, n);
        BelowItems(schema, rank', NamedType(t), v, n');
        SameItems(schema, leaf, rank, rank', v.items, item, literal, n, n');
      } else if !IsMissing(v) {
        SameValue(schema, leaf, rank, rank', v, item, literal, n, n');
      }
    case Named(name) =>
      if name in schema && v.Object? {
        BelowFields(schema, rank, name, v, n);
        BelowFields(schema, rank', name, v, n');
        SameFields(schema, leaf, rank, rank', v, name, |schema[name].fields|, literal, n, n');
      }
  }

  lemma {:induction false} BelowItems(schema: Schema, rank: map<FieldRef, nat>, typ: Name, v: Value, n: nat)
    requires v.List? && Below(schema, rank, typ, v, n)
    ensures ItemsBelow(schema, rank, typ, v.items, n)
  {
  }

  lemma {:induction false} BelowFields(schema: Schema, rank: map<FieldRef, nat>, typ: Name, v: Value, n: nat)
    requires typ in schema && v.Object? && Below(schema, rank, typ, v, n)
    ensures FieldsBelow(schema, rank, typ, v, |schema[typ].fields|, n)
  {
  }

  lemma {:induction false} SameItems(schema: Schema, leaf: LeafCoercion, rank: map<FieldRef, nat>,
      rank': map<FieldRef, nat>, items: seq<Value>, t: TypeRef, literal: bool, n: nat, n': nat)
    requires IsRank(schema, rank, false) && ItemsBelow(schema, rank, NamedType(t), items, n)
    requires IsRank(schema, rank', false) && ItemsBelow(schema, rank', NamedType(t), items, n')
    ensures CoerceItems(schema, leaf, rank, items, t, literal, n) ==
            CoerceItems(schema, leaf, rank', items, t, literal, n')
    decreases n, Weight(schema, t), items, 0, t
  {
    hide IsRank, Below, ItemsBelow, CoerceValue;
    if items != [] {
      FirstItemBelow(schema, rank, NamedType(t), items, n);
      FirstItemBelow(schema, rank', NamedType(t), items, n');
      SameValue(schema, leaf, rank, rank', items[0], t, literal, n, n');
      SameItems(schema, leaf, rank, rank', items[1..], t, literal, n, n');
    }
  }

  lemma {:induction false} SameFields(schema: Schema, leaf: LeafCoercion, rank: map<FieldRef, nat>,
      rank': map<FieldRef, nat>, v: Value, typ: Name, k: nat, literal: bool, n: nat, n': nat)
    requires typ in schema && v.Object? && k <= |schema[typ].fields|
    requires IsRank(schema, rank, false) && FieldsBelow(schema, rank, typ, v, k, n)
    requires IsRank(schema, rank', false) && FieldsBelow(schema, rank', typ, v, k, n')
    ensures CoerceFields(schema, leaf, rank, v, typ, k, literal, n) ==
            CoerceFields(schema, leaf, rank', v, typ, k, literal, n')
    decreases n, 1, v, 0, Named(typ), k
  {
    hide IsRank, FieldsBelow, CoerceField;
    if k > 0 {
      LastFieldBelow(schema, rank, typ, v, k, n);
      LastFieldBelow(schema, rank', typ, v, k, n');
      SameFields(schema, leaf, rank, rank', v, typ, k - 1, literal, n, n');
      SameField(schema, leaf, rank, rank', v, typ, k - 1, literal, n, n');
    }
  }

  lemma {:induction false} SameField(schema: Schema, leaf: LeafCoercion, rank: map<FieldRef, nat>,
      rank': map<FieldRef, nat>, v: Value, typ: Name, k: nat, literal: bool, n: nat, n': nat)
    requires typ in schema && v.Object? && k < |schema[typ].fields|
    requires IsRank(schema, rank, false) && FieldsBelow(schema, rank, typ, v, k + 1, n)
    requires IsRank(schema, rank', false) && FieldsBelow(schema, rank', typ, v, k + 1, n')
    ensures CoerceField(schema, leaf, rank, v, typ, k, literal, n) ==
            CoerceField(schema, leaf, rank', v, typ, k, literal, n')
    decreases n, 1, v, 0, Named(typ), k
  {
    hide IsRank, FieldsBelow, Below, CoerceValue, CoerceDefault;
    var f := schema[typ].fields[k];
    var given := Given(v.entries, f.name, false);
    LastFieldBelow(schema, rank, typ, v, k + 1, n);
    LastFieldBelow(schema, rank', typ, v, k + 1, n');
    if given.Some? {
      SameValue(schema, leaf, rank, rank', given.value, f.typ, literal, n, n');
    } else if !IsRequired(f) && f.default.Some? {
      SameDefault(schema, leaf, rank, rank', FieldRef(typ, k));
    }
  }

  /** Any two ranks give the same default: it is a function of the schema alone. */
  lemma {:induction false} SameDefault(schema: Schema, leaf: LeafCoercion, rank: map<FieldRef, nat>,
      rank': map<FieldRef, nat>, r: FieldRef)
    requires IsField(schema, r) && FieldOf(schema, r).default.Some?
    requires IsRank(schema, rank, false) && (NamedType(FieldOf(schema, r).typ) in schema ==> r in rank)
    requires IsRank(schema, rank', false) && (NamedType(FieldOf(schema, r).typ) in schema ==> r in rank')
    ensures CoerceDefault(schema, leaf, rank, r) == CoerceDefault(schema, leaf, rank', r)
    decreases DefaultBound(schema, rank, r), Weight(schema, FieldOf(schema, r).typ),
              FieldOf(schema, r).default.value.value, 2
  {
    hide IsRank, Below, CoerceValue;
    var f := FieldOf(schema, r);
    var n := if NamedType(f.typ) in schema then rank[r] else 0;
    var n' := if NamedType(f.typ) in schema then rank'[r] else 0;
    DefaultBelow(schema, rank, r);
    DefaultBelow(schema, rank', r);
    SameValue(schema, leaf, rank, rank', f.default.value.value, f.typ, f.default.value.literal, n, n');
  }

  // ---------------------------------------------------------------------------
  // What comes out conforms to the type
  // ---------------------------------------------------------------------------

  /**
   The coerced value is one of the type: null only where that is allowed, lists item by
   item, and objects with fields of the type in its order, no required one missing, and
   every one that has a default present. `leafValue` says which values leaf types give.
   */
  ghost predicate Conforms(schema: Schema, leafValue: (Name, Coerced) -> bool, c: Coerced, t: TypeRef)
    decreases c, 1, t
  {
    match t
    case NonNull(inner) => c != NullValue && Conforms(schema, leafValue, c, inner)
    case ListOf(item) =>
      c == NullValue || (c.ListValue? && forall i | 0 <= i < |c.items| :: Conforms(schema, leafValue, c.items[i], item))
    case Named(name) =>
      c == NullValue ||
      if name in schema then
        c.ObjectValue? && FieldsConform(schema, leafValue, c, |c.entries|, name, |schema[name].fields|)
        && (schema[name].isOneOf ==> |c.entries| == 1 && c.entries[0].value != NullValue)
      else leafValue(name, c)
  }

  /** The first `m` entries are of the first `k` fields. */
  ghost predicate FieldsConform(schema: Schema, leafValue: (Name, Coerced) -> bool, c: Coerced, m: nat, typ: Name,
      k: nat)
    requires typ in schema && k <= |schema[typ].fields| && c.ObjectValue? && m <= |c.entries|
    decreases c, 0, k
  {
    if k == 0 then m == 0
    else
      var f := schema[typ].fields[k - 1];
      || (m > 0 && c.entries[m - 1].name == f.name && Conforms(schema, leafValue, c.entries[m - 1].value, f.typ)
          && FieldsConform(schema, leafValue, c, m - 1, typ, k - 1))
      || (f.default.None? && f.internalDefault.None? && !f.typ.NonNull?
          && FieldsConform(schema, leafValue, c, m, typ, k - 1))
  }

  /** More entries at the end make no difference to those before. */
  lemma {:induction false} FieldsConformOn(schema: Schema, leafValue: (Name, Coerced) -> bool, c: Coerced,
      d: Coerced, m: nat, typ: Name, k: nat)
    requires typ in schema && k <= |schema[typ].fields| && c.ObjectValue? && d.ObjectValue?
    requires m <= |c.entries| && c.entries <= d.entries
    requires FieldsConform(schema, leafValue, c, m, typ, k)
    ensures FieldsConform(schema, leafValue, d, m, typ, k)
    decreases k
  {
    hide Conforms;
    if k > 0 {
      var f := schema[typ].fields[k - 1];
      if m > 0 && c.entries[m - 1].name == f.name && Conforms(schema, leafValue, c.entries[m - 1].value, f.typ)
         && FieldsConform(schema, leafValue, c, m - 1, typ, k - 1) {
        FieldsConformOn(schema, leafValue, c, d, m - 1, typ, k - 1);
      } else {
        FieldsConformOn(schema, leafValue, c, d, m, typ, k - 1);
      }
    }
  }

  /** Leaf types give only their own values, and never null for a value that is not. */
  ghost predicate LeavesConform(schema: Schema, leaf: LeafCoercion, leafValue: (Name, Coerced) -> bool) {
    forall name, v, literal | name !in schema && leaf(name, v, literal).Some? ::
      leaf(name, v, literal).value != NullValue && leafValue(name, leaf(name, v, literal).value)
  }

  /** The deprecated internal defaults, which are used as they are, are values of their types. */
  ghost predicate InternalDefaultsConform(schema: Schema, leafValue: (Name, Coerced) -> bool) {
    forall r: FieldRef | IsField(schema, r) && FieldOf(schema, r).internalDefault.Some? ::
      Conforms(schema, leafValue, FieldOf(schema, r).internalDefault.value, FieldOf(schema, r).typ)
  }

  lemma {:induction false} ValueConforms(schema: Schema, leaf: LeafCoercion, rank: map<FieldRef, nat>,
      leafValue: (Name, Coerced) -> bool, v: Value, t: TypeRef, literal: bool, n: nat)
    requires IsRank(schema, rank, false) && Below(schema, rank, NamedType(t), v, n)
    requires LeavesConform(schema, leaf, leafValue) && InternalDefaultsConform(schema, leafValue)
    ensures var r := CoerceValue(schema, leaf, rank, v, t, literal, n);
            r.Ok? ==> Conforms(schema, leafValue, r.value, t) && (r.value == NullValue ==> IsMissing(v))
    decreases n, Weight(schema, t), v, 1, t
  {
    hide IsRank, Below, LeavesConform, InternalDefaultsConform, CoerceItems, CoerceFields, FieldsConform;
    match t
    case NonNull(inner) =>
      if !IsMissing(v) {
        ValueConforms(schema, leaf, rank, leafValue, v, inner, literal, n);
      }
    case ListOf(item) =>
      if v.List? {
        BelowItems(schema, rank, NamedType(t), v, n);
        ItemsConform(schema, leaf, rank, leafValue, v.items, item, literal, n);
      } else if !IsMissing(v) {
        ValueConforms(schema, leaf, rank, leafValue, v, item, literal, n);
      }
    case Named(name) =>
      if name !in schema {
        LeafConforms(schema, leaf, leafValue, name, v, literal);
      } else if v.Object? {
        BelowFields(schema, rank, name, v, n);
        CoercedFieldsConform(schema, leaf, rank, leafValue, v, name, |schema[name].fields|, literal, n);
      }
  }

  lemma {:induction false} LeafConforms(schema: Schema, leaf: LeafCoercion, leafValue: (Name, Coerced) -> bool,
      name: Name, v: Value, literal: bool)
    requires LeavesConform(schema, leaf, leafValue) && name !in schema
    ensures var r := leaf(name, v, literal); r.Some? ==> r.value != NullValue && leafValue(name, r.value)
  {
  }

  lemma {:induction false} ItemsConform(schema: Schema, leaf: LeafCoercion, rank: map<FieldRef, nat>,
      leafValue: (Name, Coerced) -> bool, items: seq<Value>, t: TypeRef, literal: bool, n: nat)
    requires IsRank(schema, rank, false) && ItemsBelow(schema, rank, NamedType(t), items, n)
    requires LeavesConform(schema, leaf, leafValue) && InternalDefaultsConform(schema, leafValue)
    ensures var r := CoerceItems(schema, leaf, rank, items, t, literal, n);
            r.Ok? ==>
              |r.value| == |items| && forall i | 0 <= i < |r.value| :: Conforms(schema, leafValue, r.value[i], t)
    decreases n, Weight(schema, t), items, 0, t
  {
    hide IsRank, Below, ItemsBelow, LeavesConform, InternalDefaultsConform, CoerceValue, Conforms;
    if items != [] {
      FirstItemBelow(schema, rank, NamedType(t), items, n);
      ValueConforms(schema, leaf, rank, leafValue, items[0], t, literal, n);
      ItemsConform(schema, leaf, rank, leafValue, items[1..], t, literal, n);
    }
  }

  lemma {:induction false} CoercedFieldsConform(schema: Schema, leaf: LeafCoercion, rank: map<FieldRef, nat>,
      leafValue: (Name, Coerced) -> bool, v: Value, typ: Name, k: nat, literal: bool, n: nat)
    requires typ in schema && v.Object? && k <= |schema[typ].fields|
    requires IsRank(schema, rank, false) && FieldsBelow(schema, rank, typ, v, k, n)
    requires LeavesConform(schema, leaf, leafValue) && InternalDefaultsConform(schema, leafValue)
    ensures var r := CoerceFields(schema, leaf, rank, v, typ, k, literal, n);
            r.Ok? ==> FieldsConform(schema, leafValue, ObjectValue(r.value), |r.value|, typ, k)
    decreases n, 1, v, 0, Named(typ), k
  {
    hide IsRank, FieldsBelow, LeavesConform, InternalDefaultsConform, CoerceField, Conforms;
    if k > 0 {
      LastFieldBelow(schema, rank, typ, v, k, n);
      CoercedFieldsConform(schema, leaf, rank, leafValue, v, typ, k - 1, literal, n);
      CoercedFieldConforms(schema, leaf, rank, leafValue, v, typ, k - 1, literal, n);
      var before := CoerceFields(schema, leaf, rank, v, typ, k - 1, literal, n);
      var here := CoerceField(schema, leaf, rank, v, typ, k - 1, literal, n);
      if before.Ok? && here.Ok? {
        var all := before.value + here.value;
        FieldsConformOn(schema, leafValue, ObjectValue(before.value), ObjectValue(all), |before.value|, typ, k - 1);
        assert here.value != [] ==> all[|all| - 1] == here.value[0];
      }
    }
  }

  lemma {:induction false} CoercedFieldConforms(schema: Schema, leaf: LeafCoercion, rank: map<FieldRef, nat>,
      leafValue: (Name, Coerced) -> bool, v: Value, typ: Name, k: nat, literal: bool, n: nat)
    requires typ in schema && v.Object? && k < |schema[typ].fields|
    requires IsRank(schema, rank, false) && FieldsBelow(schema, rank, typ, v, k + 1, n)
    requires LeavesConform(schema, leaf, leafValue) && InternalDefaultsConform(schema, leafValue)
    ensures var r := CoerceField(schema, leaf, rank, v, typ, k, literal, n);
            var f := schema[typ].fields[k];
            && (r.Ok? ==> |r.value| <= 1)
            && (r.Ok? && r.value == [] ==> f.default.None? && f.internalDefault.None? && !f.typ.NonNull?)
            && (r.Ok? && r.value != [] ==>
                  r.value[0].name == f.name && Conforms(schema, leafValue, r.value[0].value, f.typ))
    decreases n, 1, v, 0, Named(typ), k
  {
    hide IsRank, FieldsBelow, Below, LeavesConform, CoerceValue, CoerceDefault, Conforms;
    var f := schema[typ].fields[k];
    var given := Given(v.entries, f.name, false);
    LastFieldBelow(schema, rank, typ, v, k + 1, n);
    if given.Some? {
      ValueConforms(schema, leaf, rank, leafValue, given.value, f.typ, literal, n);
    } else if !IsRequired(f) && f.default.Some? {
      DefaultConforms(schema, leaf, rank, leafValue, FieldRef(typ, k));
    } else if f.internalDefault.Some? {
      assert FieldOf(schema, FieldRef(typ, k)) == f;
    }
  }

  /** A default that can be coerced is a value of its field's type. */
  lemma {:induction false} DefaultConforms(schema: Schema, leaf: LeafCoercion, rank: map<FieldRef, nat>,
      leafValue: (Name, Coerced) -> bool, r: FieldRef)
    requires IsField(schema, r) && FieldOf(schema, r).default.Some?
    requires IsRank(schema, rank, false) && (NamedType(FieldOf(schema, r).typ) in schema ==> r in rank)
    requires LeavesConform(schema, leaf, leafValue) && InternalDefaultsConform(schema, leafValue)
    ensures var o := CoerceDefault(schema, leaf, rank, r);
            o.Ok? ==> Conforms(schema, leafValue, o.value, FieldOf(schema, r).typ)
    decreases DefaultBound(schema, rank, r), Weight(schema, FieldOf(schema, r).typ),
              FieldOf(schema, r).default.value.value, 2
  {
    hide IsRank, Below, LeavesConform, InternalDefaultsConform, CoerceValue, Conforms;
    var f := FieldOf(schema, r);
    var n := if NamedType(f.typ) in schema then rank[r] else 0;
    DefaultBelow(schema, rank, r);
    ValueConforms(schema, leaf, rank, leafValue, f.default.value.value, f.typ, f.default.value.literal, n);
  }

  // ---------------------------------------------------------------------------
  // When the validator's silence makes coercion terminate
  // ---------------------------------------------------------------------------

  /** No object in the value has a key without a value. */
  predicate NoUndefined(v: Value) {
    match v
    case Undefined => false
    case List(items) => forall i | 0 <= i < |items| :: items[i].Undefined? || NoUndefined(items[i])
    case Object(entries) => forall i | 0 <= i < |entries| :: NoUndefined(entries[i].value)
    case _ => true
  }

  ghost predicate NoUndefinedDefaults(schema: Schema) {
    forall r: FieldRef | IsField(schema, r) && FieldOf(schema, r).default.Some? ::
      FieldOf(schema, r).default.value.value.Undefined? || NoUndefined(FieldOf(schema, r).default.value.value)
  }

  lemma {:induction false} SameAsks(schema: Schema, typ: Name, v: Value)
    requires typ in schema && (v.Undefined? || NoUndefined(v))
    ensures Asks(schema, typ, v, false) == Asks(schema, typ, v, true)
    decreases v, 1, 0
  {
    match v
    case List(items) => SameAsksOfItems(schema, typ, items);
    case Object(_) => SameAsksOfFields(schema, typ, v, |schema[typ].fields|);
    case _ =>
  }

  lemma {:induction false} SameAsksOfItems(schema: Schema, typ: Name, items: seq<Value>)
    requires typ in schema && forall i | 0 <= i < |items| :: items[i].Undefined? || NoUndefined(items[i])
    ensures AsksOfItems(schema, typ, items, false) == AsksOfItems(schema, typ, items, true)
    decreases items, 1, 0
  {
    if items != [] {
      SameAsks(schema, typ, items[0]);
      SameAsksOfItems(schema, typ, items[1..]);
    }
  }

  lemma {:induction false} SameAsksOfFields(schema: Schema, typ: Name, v: Value, k: nat)
    requires typ in schema && v.Object? && NoUndefined(v) && k <= |schema[typ].fields|
    ensures AsksOfFields(schema, typ, v, k, false) == AsksOfFields(schema, typ, v, k, true)
    decreases v, 0, k
  {
    if k > 0 {
      SameAsksOfFields(schema, typ, v, k - 1);
      var f := schema[typ].fields[k - 1];
      var given := Lookup(v.entries, f.name);
      if NamedType(f.typ) in schema && given.Some? {
        SameAsks(schema, NamedType(f.typ), given.value);
      }
    }
  }

  /** Without such keys, what the validator ranks is what coercion needs. */
  lemma {:induction false} SilenceRanks(schema: Schema, rank: map<FieldRef, nat>)
    requires NoUndefinedDefaults(schema)
    ensures IsRank(schema, rank, false) <==> IsRank(schema, rank, true)
  {
    forall r | HasDefault(schema, r) ensures AsksOfDefault(schema, r, false) == AsksOfDefault(schema, r, true) {
      var f := FieldOf(schema, r);
      SameAsks(schema, NamedType(f.typ), f.default.value.value);
    }
    hide AsksOfDefault, HasDefault;
  }

  // ---------------------------------------------------------------------------
  // What the validator has to be run on
  // ---------------------------------------------------------------------------

  /** The value without the keys whose value is `Undefined`, at every depth. */
  function Dropped(v: Value): Value
    decreases v, 1
  {
    match v
    case List(items) => List(DroppedItems(items))
    case Object(entries) => Object(DroppedEntries(entries))
    case _ => v
  }

  function DroppedItems(items: seq<Value>): seq<Value>
    decreases items, 0
  {
    if items == [] then [] else [Dropped(items[0])] + DroppedItems(items[1..])
  }

  function DroppedEntries(entries: seq<Entry>): seq<Entry>
    decreases entries, 0
  {
    if entries == [] then []
    else
      var last := entries[|entries| - 1];
      var front := DroppedEntries(entries[..|entries| - 1]);
      if last.value.Undefined? then WithoutKey(front, last.name) else front + [DroppedEntry(last)]
  }

  function DroppedEntry(e: Entry): Entry
    decreases e, 0
  {
    Entry(e.name, Dropped(e.value))
  }

  function WithoutKey(entries: seq<Entry>, name: Name): seq<Entry> {
    if entries == [] then []
    else
      var front, last := WithoutKey(entries[..|entries| - 1], name), entries[|entries| - 1];
      if last.name == name then front else front + [last]
  }

  /** The schema with such keys dropped from every default. */
  function DroppedField(f: Field): Field {
    if f.default.None? then f else f.(default := Some(f.default.value.(value := Dropped(f.default.value.value))))
  }

  function DroppedObject(o: InputObject): InputObject {
    o.(fields := seq(|o.fields|, k requires 0 <= k < |o.fields| => DroppedField(o.fields[k])))
  }

  function DroppedSchema(schema: Schema): Schema {
    map t | t in schema :: DroppedObject(schema[t])
  }

  lemma {:induction false} LookupWithoutKey(entries: seq<Entry>, name: Name, other: Name)
    ensures Lookup(WithoutKey(entries, name), other) == if other == name then None else Lookup(entries, other)
  {
    if entries != [] {
      LookupWithoutKey(entries[..|entries| - 1], name, other);
    }
  }

  /** What is given once the keys are dropped is what coercion takes for given. */
  lemma {:induction false} GivenDropped(entries: seq<Entry>, name: Name)
    ensures var given := Given(entries, name, false);
            Given(DroppedEntries(entries), name, true) == if given.None? then None else Some(Dropped(given.value))
  {
    if entries != [] {
      var front, last := entries[..|entries| - 1], entries[|entries| - 1];
      GivenDropped(front, name);
      if last.value.Undefined? {
        LookupWithoutKey(DroppedEntries(front), last.name, name);
      }
    }
  }

  /** The dropped value asks the validator for what the value asks coercion for. */
  lemma {:induction false} DroppedAsks(schema: Schema, typ: Name, v: Value)
    requires typ in schema
    ensures Asks(DroppedSchema(schema), typ, Dropped(v), true) == Asks(schema, typ, v, false)
    decreases v, 1, 0
  {
    hide AsksOfItems, AsksOfFields;
    match v
    case List(items) => DroppedAsksOfItems(schema, typ, items);
    case Object(_) => DroppedAsksOfFields(schema, typ, v, |schema[typ].fields|);
    case _ =>
  }

  lemma {:induction false} DroppedAsksOfItems(schema: Schema, typ: Name, items: seq<Value>)
    requires typ in schema
    ensures AsksOfItems(DroppedSchema(schema), typ, DroppedItems(items), true) == AsksOfItems(schema, typ, items, false)
    decreases items, 1, 0
  {
    hide Asks, Dropped;
    if items != [] {
      DroppedAsks(schema, typ, items[0]);
      DroppedAsksOfItems(schema, typ, items[1..]);
      var dropped := DroppedItems(items);
      assert dropped[0] == Dropped(items[0]) && dropped[1..] == DroppedItems(items[1..]);
    }
  }

  lemma {:induction false} DroppedAsksOfFields(schema: Schema, typ: Name, v: Value, k: nat)
    requires typ in schema && v.Object? && k <= |schema[typ].fields|
    ensures AsksOfFields(DroppedSchema(schema), typ, Dropped(v), k, true) == AsksOfFields(schema, typ, v, k, false)
    decreases v, 0, k
  {
    if k > 0 {
      DroppedAsksOfFields(schema, typ, v, k - 1);
      DroppedAsksOfField(schema, typ, v, k - 1);
      hide AsksOfField;
    }
  }

  lemma {:induction false} DroppedAsksOfField(schema: Schema, typ: Name, v: Value, k: nat)
    requires typ in schema && v.Object? && k < |schema[typ].fields|
    ensures AsksOfField(DroppedSchema(schema), typ, Dropped(v), k, true) == AsksOfField(schema, typ, v, k, false)
    decreases v, 0, k
  {
    hide Asks;
    var f := schema[typ].fields[k];
    GivenDropped(v.entries, f.name);
    var given := Given(v.entries, f.name, false);
    assert DroppedSchema(schema)[typ].fields[k] == DroppedField(f);
    if NamedType(f.typ) in schema && given.Some? {
      DroppedAsks(schema, NamedType(f.typ), given.value);
    }
  }

  lemma {:induction false} DroppedHasDefault(schema: Schema, r: FieldRef)
    ensures HasDefault(schema, r) <==> HasDefault(DroppedSchema(schema), r)
    ensures HasDefault(schema, r) ==> FieldOf(DroppedSchema(schema), r) == DroppedField(FieldOf(schema, r))
  {
  }

  lemma {:induction false} DroppedAsksOfDefault(schema: Schema, r: FieldRef)
    requires HasDefault(schema, r)
    ensures HasDefault(DroppedSchema(schema), r)
    ensures AsksOfDefault(DroppedSchema(schema), r, true) == AsksOfDefault(schema, r, false)
  {
    DroppedHasDefault(schema, r);
    var f := FieldOf(schema, r);
    DroppedAsks(schema, NamedType(f.typ), f.default.value.value);
  }

  /** Exactly: a rank for coercion is a rank for the validator once the keys are dropped. */
  lemma {:induction false} CoercionRanks(schema: Schema, rank: map<FieldRef, nat>)
    ensures IsRank(schema, rank, false) <==> IsRank(DroppedSchema(schema), rank, true)
  {
    var dropped := DroppedSchema(schema);
    forall r ensures HasDefault(schema, r) <==> HasDefault(dropped, r) {
      DroppedHasDefault(schema, r);
    }
    forall r | HasDefault(schema, r) ensures AsksOfDefault(dropped, r, true) == AsksOfDefault(schema, r, false) {
      DroppedAsksOfDefault(schema, r);
    }
    hide AsksOfDefault, HasDefault;
  }

  /**
   The validator, run on the schema with such keys dropped, is silent exactly when all
   defaults can be coerced in some order.
   */
  lemma {:induction false} SilentOnDropped(schema: Schema, errors: seq<CycleError>)
    requires errors == [] <==> exists rank :: IsRank(DroppedSchema(schema), rank, true)
    ensures errors == [] <==> exists rank :: IsRank(schema, rank, false)
  {
    hide IsRank, DroppedSchema;
    if errors == [] {
      var rank :| IsRank(DroppedSchema(schema), rank, true);
      CoercionRanks(schema, rank);
    }
    if rank :| IsRank(schema, rank, false) {
      CoercionRanks(schema, rank);
    }
  }

  /** The validator asks for no more than coercion, so it never reports what coerces. */
  lemma {:induction false} AsksFewer(schema: Schema, typ: Name, v: Value)
    requires typ in schema
    ensures forall r | r in Asks(schema, typ, v, true) :: r in Asks(schema, typ, v, false)
    decreases v, 1, 0
  {
    hide AsksOfItems, AsksOfFields;
    match v
    case List(items) => ItemsAskFewer(schema, typ, items);
    case Object(_) => FieldsAskFewer(schema, typ, v, |schema[typ].fields|);
    case _ =>
  }

  lemma {:induction false} ItemsAskFewer(schema: Schema, typ: Name, items: seq<Value>)
    requires typ in schema
    ensures forall r | r in AsksOfItems(schema, typ, items, true) :: r in AsksOfItems(schema, typ, items, false)
    decreases items, 1, 0
  {
    hide Asks;
    if items != [] {
      AsksFewer(schema, typ, items[0]);
      ItemsAskFewer(schema, typ, items[1..]);
    }
  }

  lemma {:induction false} FieldsAskFewer(schema: Schema, typ: Name, v: Value, k: nat)
    requires typ in schema && v.Object? && k <= |schema[typ].fields|
    ensures forall r | r in AsksOfFields(schema, typ, v, k, true) :: r in AsksOfFields(schema, typ, v, k, false)
    decreases v, 0, k
  {
    if k > 0 {
      FieldsAskFewer(schema, typ, v, k - 1);
      FieldAsksFewer(schema, typ, v, k - 1);
      hide AsksOfField;
    }
  }

  lemma {:induction false} FieldAsksFewer(schema: Schema, typ: Name, v: Value, k: nat)
    requires typ in schema && v.Object? && k < |schema[typ].fields|
    ensures forall r | r in AsksOfField(schema, typ, v, k, true) :: r in AsksOfField(schema, typ, v, k, false)
    decreases v, 0, k
  {
    var f := schema[typ].fields[k];
    var given := Lookup(v.entries, f.name);
    if NamedType(f.typ) in schema && given.Some? {
      if given.value.Undefined? {
        assert AsksOfField(schema, typ, v, k, true) == [];
      } else {
        AsksFewer(schema, NamedType(f.typ), given.value);
      }
    }
  }

  lemma {:induction false} RankedIsSilent(schema: Schema, rank: map<FieldRef, nat>)
    requires IsRank(schema, rank, false)
    ensures IsRank(schema, rank, true)
  {
    forall r | HasDefault(schema, r)
      ensures forall next | next in AsksOfDefault(schema, r, true) :: next in AsksOfDefault(schema, r, false)
    {
      var f := FieldOf(schema, r);
      AsksFewer(schema, NamedType(f.typ), f.default.value.value);
    }
    hide AsksOfDefault, HasDefault;
  }

  /** Under a rank, every value of every type can be coerced: whatever it asks for is below some bound. */
  lemma {:induction false} EveryValueIsBelow(schema: Schema, rank: map<FieldRef, nat>, typ: Name,
      v: Value) returns (n: nat)
    requires IsRank(schema, rank, false)
    ensures Below(schema, rank, typ, v, n)
  {
    n := 0;
    if typ in schema {
      AsksHaveDefaults(schema, typ, v, false);
      n := Above(rank, Asks(schema, typ, v, false));
    }
  }

  lemma {:induction false} Above(rank: map<FieldRef, nat>, asked: seq<FieldRef>) returns (n: nat)
    requires forall r | r in asked :: r in rank
    ensures AllBelow(rank, asked, n)
  {
    n := 0;
    if asked != [] {
      n := Above(rank, asked[1..]);
      n := if rank[asked[0]] < n then n else rank[asked[0]] + 1;
    }
  }

  /**
   With one, the validator can be silent although no rank for coercion exists: the default
   of field `a` of type A gives the key `a` no value, which the validator takes for given
   and coercion for left out.
   */
  lemma {:induction false} UndefinedKeyEscapes(A: Name, a: Name)
    ensures var default := Default(Object([Entry(a, Undefined)]), false);
            var schema: Schema := map[A := InputObject([Field(a, Named(A), Some(default), None)], false)];
            (exists rank :: IsRank(schema, rank, true)) && !(exists rank :: IsRank(schema, rank, false))
  {
    var v := Object([Entry(a, Undefined)]);
    var f := Field(a, Named(A), Some(Default(v, false)), None);
    var schema: Schema := map[A := InputObject([f], false)];
    var r := FieldRef(A, 0);
    assert Lookup(v.entries, a) == Some(Undefined);
    assert HasDefault(schema, r) && FieldOf(schema, r) == f;
    assert schema[A].fields[0] == f && NamedType(f.typ) == A && Given(v.entries, a, false) == None;
    LeftOutAsks(schema, A, v, 0);
    assert AsksOfField(schema, A, v, 0, true) == [] && AsksOfField(schema, A, v, 0, false) == [r];
    assert AsksOfFields(schema, A, v, 0, true) == [] && AsksOfFields(schema, A, v, 0, false) == [];
    assert AsksOfFields(schema, A, v, 1, true) == [] && AsksOfFields(schema, A, v, 1, false) == [] + [r];
    assert AsksOfDefault(schema, r, true) == [] && r in AsksOfDefault(schema, r, false);
    OnlyField(schema, f, A);
    hide Asks, AsksOfDefault, HasDefault;
    assert IsRank(schema, map[r := 0], true);
  }

  lemma {:induction false} LeftOutAsks(schema: Schema, typ: Name, v: Value, k: nat)
    requires typ in schema && v.Object? && k < |schema[typ].fields|
    requires var f := schema[typ].fields[k];
             NamedType(f.typ) in schema && f.default.Some? && Given(v.entries, f.name, false).None?
    ensures AsksOfField(schema, typ, v, k, false) == [FieldRef(typ, k)]
  {
  }

  lemma {:induction false} OnlyField(schema: Schema, f: Field, A: Name)
    requires schema == map[A := InputObject([f], false)]
    ensures forall r | HasDefault(schema, r) :: r == FieldRef(A, 0)
  {
  }

  // ---------------------------------------------------------------------------
  // Coercion with memoized defaults
  // ---------------------------------------------------------------------------

  /** A field with an external default that can be coerced under the rank. */
  ghost predicate HasRanked(schema: Schema, rank: map<FieldRef, nat>, r: FieldRef) {
    && IsField(schema, r) && FieldOf(schema, r).default.Some?
    && (NamedType(FieldOf(schema, r).typ) in schema ==> r in rank)
  }

  /** Everything memoized is the coerced default of its field. */
  ghost predicate Sound(schema: Schema, leaf: LeafCoercion, rank: map<FieldRef, nat>, memo: map<FieldRef, Coerced>)
    requires IsRank(schema, rank, false)
  {
    forall r | r in memo :: HasRanked(schema, rank, r) && CoerceDefault(schema, leaf, rank, r) == Ok(memo[r])
  }

  /** Items coerced before others. */
  function Onto<T>(items: seq<T>, r: Outcome<seq<T>>): Outcome<seq<T>> {
    if r.Ok? then Ok(items + r.value) else r
  }

  lemma {:induction false} OntoStep<T>(items: seq<T>, x: T, r: Outcome<seq<T>>)
    ensures Onto(items, Onto([x], r)) == Onto(items + [x], r)
  {
    if r.Ok? {
      assert items + ([x] + r.value) == items + [x] + r.value;
    }
  }

  lemma {:induction false} OntoNothing<T>(r: Outcome<seq<T>>)
    ensures Onto([], r) == r
  {
    if r.Ok? {
      assert [] + r.value == r.value;
    }
  }

  lemma {:induction false} ItemsStep(schema: Schema, leaf: LeafCoercion, rank: map<FieldRef, nat>,
      items: seq<Value>, t: TypeRef, literal: bool, n: nat)
    requires IsRank(schema, rank, false) && ItemsBelow(schema, rank, NamedType(t), items, n)
    ensures items == [] ==> CoerceItems(schema, leaf, rank, items, t, literal, n) == Ok([])
    ensures items != [] ==>
              && Below(schema, rank, NamedType(t), items[0], n) && ItemsBelow(schema, rank, NamedType(t), items[1..], n)
              && var first := CoerceValue(schema, leaf, rank, items[0], t, literal, n);
                 var rest := CoerceItems(schema, leaf, rank, items[1..], t, literal, n);
                 CoerceItems(schema, leaf, rank, items, t, literal, n) ==
                 if first.Invalid? then Invalid else if first.Raised? then Raised else Onto([first.value], rest)
  {
    if items != [] {
      FirstItemBelow(schema, rank, NamedType(t), items, n);
    }
    hide IsRank, Below, ItemsBelow, CoerceValue;
  }

  lemma {:induction false} FieldsBelowUpTo(schema: Schema, rank: map<FieldRef, nat>, typ: Name, v: Value, k: nat,
      m: nat, n: nat)
    requires typ in schema && v.Object? && k <= m <= |schema[typ].fields| && FieldsBelow(schema, rank, typ, v, m, n)
    ensures FieldsBelow(schema, rank, typ, v, k, n)
    decreases m - k
  {
    if k < m {
      hide FieldsBelow;
      LastFieldBelow(schema, rank, typ, v, m, n);
      FieldsBelowUpTo(schema, rank, typ, v, k, m - 1, n);
    }
  }

  /** Once a field has failed, so has the object. */
  lemma {:induction false} FailureStays(schema: Schema, leaf: LeafCoercion, rank: map<FieldRef, nat>, v: Value,
      typ: Name, k: nat, m: nat, literal: bool, n: nat)
    requires typ in schema && v.Object? && k <= m <= |schema[typ].fields|
    requires IsRank(schema, rank, false) && FieldsBelow(schema, rank, typ, v, m, n) &&
             FieldsBelow(schema, rank, typ, v, k, n)
    requires !CoerceFields(schema, leaf, rank, v, typ, k, literal, n).Ok?
    ensures CoerceFields(schema, leaf, rank, v, typ, m, literal, n) ==
            CoerceFields(schema, leaf, rank, v, typ, k, literal, n)
    decreases m - k
  {
    hide IsRank, FieldsBelow, CoerceField;
    if k < m {
      LastFieldBelow(schema, rank, typ, v, m, n);
      FailureStays(schema, leaf, rank, v, typ, k, m - 1, literal, n);
    }
  }

  class Coercer {
    const schema: Schema
    const leaf: LeafCoercion
    ghost const rank: map<FieldRef, nat>
    /** `_memoized_coerced_value` of every default, where it is set. */
    var memo: map<FieldRef, Coerced>

    ghost predicate Valid()
      reads this
    {
      IsRank(schema, rank, false) && Sound(schema, leaf, rank, memo)
    }

    constructor (schema: Schema, leaf: LeafCoercion, ghost rank: map<FieldRef, nat>)
      requires IsRank(schema, rank, false)
      ensures Valid() && this.schema == schema && this.leaf == leaf && this.rank == rank && memo == map[]
    {
      this.schema, this.leaf, this.rank := schema, leaf, rank;
      memo := map[];
    }

    /** `coerce_input_value` and `coerce_input_literal` */
    method Coerce(v: Value, t: TypeRef, literal: bool, ghost n: nat) returns (r: Outcome<Coerced>)
      requires Valid() && Below(schema, rank, NamedType(t), v, n)
      modifies this
      ensures Valid() && r == CoerceValue(schema, leaf, rank, v, t, literal, n)
      decreases n, Weight(schema, t), v, 1, t
    {
      hide IsRank, Below, Sound, CoerceItems, CoerceFields;
      match t
      case NonNull(inner) =>
        if IsMissing(v) {
          return Invalid;
        }
        r := Coerce(v, inner, literal, n);
      case ListOf(item) =>
        if IsMissing(v) {
          return Ok(NullValue);
        }
        if !v.List? {
          var coercedItem := Coerce(v, item, literal, n);
          return if coercedItem.Ok? then Ok(ListValue([coercedItem.value])) else coercedItem;
        }
        BelowItems(schema, rank, NamedType(t), v, n);
        var coercedList := CoerceListItems(v.items, item, literal, n);
        r := if coercedList.Ok? then Ok(ListValue(coercedList.value))
             else if coercedList.Invalid? then Invalid
             else Raised;
      case Named(name) =>
        if IsMissing(v) {
          return Ok(NullValue);
        }
        if name !in schema {
          var coerced := leaf(name, v, literal);
          return if coerced.Some? then Ok(coerced.value) else Invalid;
        }
        if !v.Object? || HasUnknownField(schema[name], v.entries) {
          return Invalid;
        }
        BelowFields(schema, rank, name, v, n);
        var coercedDict := CoerceObjectFields(v, name, literal, n);
        if !coercedDict.Ok? {
          return if coercedDict.Invalid? then Invalid else Raised;
        }
        if schema[name].isOneOf && !IsOneOf(v.entries, coercedDict.value) {
          return Invalid;
        }
        r := Ok(ObjectValue(coercedDict.value));
    }

    method CoerceListItems(items: seq<Value>, t: TypeRef, literal: bool,
        ghost n: nat) returns (r: Outcome<seq<Coerced>>)
      requires Valid() && ItemsBelow(schema, rank, NamedType(t), items, n)
      modifies this
      ensures Valid() && r == CoerceItems(schema, leaf, rank, items, t, literal, n)
      decreases n, Weight(schema, t), items, 0, t
    {
      hide IsRank, Below, ItemsBelow, Sound, CoerceValue, CoerceItems;
      var coercedList: seq<Coerced> := [];
      ghost var all := CoerceItems(schema, leaf, rank, items, t, literal, n);
      assert items[0..] == items;
      OntoNothing(all);
      for i := 0 to |items|
        invariant Valid() && ItemsBelow(schema, rank, NamedType(t), items[i..], n)
        invariant all == Onto(coercedList, CoerceItems(schema, leaf, rank, items[i..], t, literal, n))
      {
        assert items[i..][1..] == items[i + 1..];
        ItemsStep(schema, leaf, rank, items[i..], t, literal, n);
        var coercedItem := Coerce(items[i], t, literal, n);
        if coercedItem.Invalid? {
          return Invalid;
        }
        if coercedItem.Raised? {
          return Raised;
        }
        OntoStep(coercedList, coercedItem.value, CoerceItems(schema, leaf, rank, items[i + 1..], t, literal, n));
        coercedList := coercedList + [coercedItem.value];
      }
      ItemsStep(schema, leaf, rank, items[|items|..], t, literal, n);
      assert coercedList + [] == coercedList;
      r := Ok(coercedList);
    }

    method CoerceObjectFields(v: Value, typ: Name, literal: bool, ghost n: nat) returns (r: Outcome<seq<CoercedEntry>>)
      requires Valid() && typ in schema && v.Object? && FieldsBelow(schema, rank, typ, v, |schema[typ].fields|, n)
      modifies this
      ensures Valid() && r == CoerceFields(schema, leaf, rank, v, typ, |schema[typ].fields|, literal, n)
      decreases n, 1, v, 0, Named(typ), |schema[typ].fields|
    {
      hide IsRank, FieldsBelow, Sound, CoerceField;
      var coercedDict: seq<CoercedEntry> := [];
      ghost var m := |schema[typ].fields|;
      FieldsBelowUpTo(schema, rank, typ, v, 0, m, n);
      for k := 0 to |schema[typ].fields|
        invariant Valid() && FieldsBelow(schema, rank, typ, v, k, n)
        invariant CoerceFields(schema, leaf, rank, v, typ, k, literal, n) == Ok(coercedDict)
      {
        FieldsBelowUpTo(schema, rank, typ, v, k + 1, m, n);
        var coercedField := CoerceObjectField(v, typ, k, literal, n);
        if !coercedField.Ok? {
          FailureStays(schema, leaf, rank, v, typ, k + 1, m, literal, n);
          return coercedField;
        }
        coercedDict := coercedDict + coercedField.value;
      }
      r := Ok(coercedDict);
    }

    /** One round of the loop over the fields of a type. */
    method CoerceObjectField(v: Value, typ: Name, k: nat, literal: bool,
        ghost n: nat) returns (r: Outcome<seq<CoercedEntry>>)
      requires Valid() && typ in schema && v.Object? && k < |schema[typ].fields| &&
               FieldsBelow(schema, rank, typ, v, k + 1, n)
      modifies this
      ensures Valid() && r == CoerceField(schema, leaf, rank, v, typ, k, literal, n)
      decreases n, 1, v, 0, Named(typ), k
    {
      hide IsRank, FieldsBelow, Below, Sound, CoerceValue, CoerceDefault;
      var field := schema[typ].fields[k];
      var given := Given(v.entries, field.name, false);
      LastFieldBelow(schema, rank, typ, v, k + 1, n);
      if given.Some? {
        var coerced := Coerce(given.value, field.typ, literal, n);
        return if coerced.Ok? then Ok([CoercedEntry(field.name, coerced.value)])
               else if coerced.Invalid? then Invalid
               else Raised;
      }
      if IsRequired(field) {
        return Invalid;
      }
      if field.default.Some? {
        var coerced := CoerceDefaultValue(FieldRef(typ, k));
        return if coerced.Ok? then Ok([CoercedEntry(field.name, coerced.value)]) else Raised;
      }
      r := Ok(if field.internalDefault.Some? then [CoercedEntry(field.name, field.internalDefault.value)] else []);
    }

    /** `coerce_default_value` */
    method CoerceDefaultValue(r: FieldRef) returns (o: Outcome<Coerced>)
      requires Valid() && HasRanked(schema, rank, r)
      modifies this
      ensures Valid() && o == CoerceDefault(schema, leaf, rank, r)
      decreases DefaultBound(schema, rank, r), Weight(schema, FieldOf(schema, r).typ),
                FieldOf(schema, r).default.value.value, 2
    {
      hide IsRank, Below, CoerceValue;
      if r in memo {
        return Ok(memo[r]);
      }
      var field := FieldOf(schema, r);
      ghost var n := if NamedType(field.typ) in schema then rank[r] else 0;
      DefaultBelow(schema, rank, r);
      var coerced := Coerce(field.default.value.value, field.typ, field.default.value.literal, n);
      if !coerced.Ok? {
        return Raised;
      }
      memo := memo[r := coerced.value];
      o := coerced;
    }
  }
}
