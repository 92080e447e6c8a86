/**
 Coercion as it runs, without a rank: it may never come back from a default. Up to any
 depth of nested defaults the run either has ended, with what coercion under a rank
 gives, or is still going on.
 */
module CoercionRuns {
  import opened Options
  import opened TypeRefs
  import opened InputObjects
  import opened DefaultCycles
  import opened InputCoercion

  /** A run that asks for defaults within defaults no deeper than some depth. */
  datatype Run<+T> = Ended(outcome: Outcome<T>) | GoesOn

  function RunValue(schema: Schema, leaf: LeafCoercion, v: Value, t: TypeRef, literal: bool, depth: nat): Run<Coerced>
    decreases depth, Weight(schema, t), v, 1, t
  {
    match t
    case NonNull(inner) => if IsMissing(v) then Ended(Invalid) else RunValue(schema, leaf, v, inner, literal, depth)
    case ListOf(item) =>
      if IsMissing(v) then Ended(Ok(NullValue))
      else if v.List? then
        var items := RunItems(schema, leaf, v.items, item, literal, depth);
        if items.GoesOn? then GoesOn
        else if items.outcome.Ok? then Ended(Ok(ListValue(items.outcome.value)))
        else Ended(if items.outcome.Invalid? then Invalid else Raised)
      else
        var r := RunValue(schema, leaf, v, item, literal, depth);
        if r.Ended? && r.outcome.Ok? then Ended(Ok(ListValue([r.outcome.value]))) else r
    case Named(name) =>
      if IsMissing(v) then Ended(Ok(NullValue))
      else if name in schema then
        if !v.Object? || HasUnknownField(schema[name], v.entries) then Ended(Invalid)
        else
          var fields := RunFields(schema, leaf, v, name, |schema[name].fields|, literal, depth);
          if fields.GoesOn? then GoesOn
          else if fields.outcome.Invalid? then Ended(Invalid)
          else if fields.outcome.Raised? then Ended(Raised)
          else if schema[name].isOneOf && !IsOneOf(v.entries, fields.outcome.value) then Ended(Invalid)
          else Ended(Ok(ObjectValue(fields.outcome.value)))
      else
        var r := leaf(name, v, literal);
        Ended(if r.Some? then Ok(r.value) else Invalid)
  }

  function RunItems(schema: Schema, leaf: LeafCoercion, items: seq<Value>, t: TypeRef, literal: bool, depth: nat)
    : Run<seq<Coerced>>
    decreases depth, Weight(schema, t), items, 0, t
  {
    if items == [] then Ended(Ok([]))
    else
      var first := RunValue(schema, leaf, items[0], t, literal, depth);
      if first.GoesOn? then GoesOn
      else if first.outcome.Invalid? then Ended(Invalid)
      else if first.outcome.Raised? then Ended(Raised)
      else
        var rest := RunItems(schema, leaf, items[1..], t, literal, depth);
        if rest.Ended? && rest.outcome.Ok? then Ended(Ok([first.outcome.value] + rest.outcome.value)) else rest
  }

  function RunFields(schema: Schema, leaf: LeafCoercion, v: Value, typ: Name, k: nat, literal: bool, depth: nat)
    : Run<seq<CoercedEntry>>
    requires typ in schema && v.Object? && k <= |schema[typ].fields|
    decreases depth, 1, v, 0, Named(typ), k
  {
    if k == 0 then Ended(Ok([]))
    else
      var before := RunFields(schema, leaf, v, typ, k - 1, literal, depth);
      if before.GoesOn? || !before.outcome.Ok? then before
      else
        var here := RunField(schema, leaf, v, typ, k - 1, literal, depth);
        if here.Ended? && here.outcome.Ok? then Ended(Ok(before.outcome.value + here.outcome.value)) else here
  }

  function RunField(schema: Schema, leaf: LeafCoercion, v: Value, typ: Name, k: nat, literal: bool, depth: nat)
    : Run<seq<CoercedEntry>>
    requires typ in schema && v.Object? && k < |schema[typ].fields|
    decreases depth, 1, v, 0, Named(typ), k
  {
    var f := schema[typ].fields[k];
    var given := Given(v.entries, f.name, false);
    if given.Some? then
      var r := RunValue(schema, leaf, given.value, f.typ, literal, depth);
      if r.GoesOn? then GoesOn
      else if r.outcome.Ok? then Ended(Ok([CoercedEntry(f.name, r.outcome.value)]))
      else Ended(if r.outcome.Invalid? then Invalid else Raised)
    else if IsRequired(f) then Ended(Invalid)
    else if f.default.Some? then
      if depth == 0 then GoesOn
      else
        var r := RunDefault(schema, leaf, FieldRef(typ, k), depth - 1);
        if r.GoesOn? then GoesOn
        else Ended(if r.outcome.Ok? then Ok([CoercedEntry(f.name, r.outcome.value)]) else Raised)
    else if f.internalDefault.Some? then Ended(Ok([CoercedEntry(f.name, f.internalDefault.value)]))
    else Ended(Ok([]))
  }

  /** `coerce_default_value` for a field with an external default. */
  function RunDefault(schema: Schema, leaf: LeafCoercion, r: FieldRef, depth: nat): Run<Coerced>
    requires IsField(schema, r) && FieldOf(schema, r).default.Some?
    decreases depth, Weight(schema, FieldOf(schema, r).typ), FieldOf(schema, r).default.value.value, 2
  {
    var f := FieldOf(schema, r);
    var o := RunValue(schema, leaf, f.default.value.value, f.typ, f.default.value.literal, depth);
    if o.GoesOn? || o.outcome.Ok? then o else Ended(Raised)
  }

  // ---------------------------------------------------------------------------
  // With a rank every run ends, as coercion says
  // ---------------------------------------------------------------------------

  /** How deep a run goes at most when what it asks for ranks below the bound. */
  function DepthFor(schema: Schema, t: TypeRef, n: nat): nat {
    if NamedType(t) in schema then n + 1 else 0
  }

  lemma {:induction false} RankedRunEnds(schema: Schema, leaf: LeafCoercion, rank: map<FieldRef, nat>, v: Value,
      t: TypeRef, literal: bool, n: nat, depth: nat)
    requires IsRank(schema, rank, false) && Below(schema, rank, NamedType(t), v, n)
    requires depth >= DepthFor(schema, t, n)
    ensures RunValue(schema, leaf, v, t, literal, depth) == Ended(CoerceValue(schema, leaf, rank, v, t, literal, n))
    decreases n, Weight(schema, t), v, 1, t
  {
    hide IsRank, Below, CoerceItems, CoerceFields, RunItems, RunFields;
    match t
    case NonNull(inner) =>
      if !IsMissing(v) {
        RankedRunEnds(schema, leaf, rank, v, inner, literal, n, depth);
      }
    case ListOf(item) =>
      if v.List? {
        BelowItems(schema, rank, NamedType(t), v, n);
        RankedItemsEnd(schema, leaf, rank, v.items, item, literal, n, depth);
      } else if !IsMissing(v) {
        RankedRunEnds(schema, leaf, rank, v, item, literal, n, depth);
      }
    case Named(name) =>
      if name in schema && v.Object? {
        BelowFields(schema, rank, name, v, n);
        RankedFieldsEnd(schema, leaf, rank, v, name, |schema[name].fields|, literal, n, depth);
      }
  }

  lemma {:induction false} RankedItemsEnd(schema: Schema, leaf: LeafCoercion, rank: map<FieldRef, nat>,
      items: seq<Value>, t: TypeRef, literal: bool, n: nat, depth: nat)
    requires IsRank(schema, rank, false) && ItemsBelow(schema, rank, NamedType(t), items, n)
    requires depth >= DepthFor(schema, t, n)
    ensures RunItems(schema, leaf, items, t, literal, depth) ==
            Ended(CoerceItems(schema, leaf, rank, items, t, literal, n))
    decreases n, Weight(schema, t), items, 0, t
  {
    hide IsRank, Below, ItemsBelow, CoerceValue, RunValue;
    if items != [] {
      FirstItemBelow(schema, rank, NamedType(t), items, n);
      RankedRunEnds(schema, leaf, rank, items[0], t, literal, n, depth);
      RankedItemsEnd(schema, leaf, rank, items[1..], t, literal, n, depth);
    }
  }

  lemma {:induction false} RankedFieldsEnd(schema: Schema, leaf: LeafCoercion, rank: map<FieldRef, nat>, v: Value,
      typ: Name, k: nat, literal: bool, n: nat, depth: nat)
    requires typ in schema && v.Object? && k <= |schema[typ].fields|
    requires IsRank(schema, rank, false) && FieldsBelow(schema, rank, typ, v, k, n) && depth > n
    ensures RunFields(schema, leaf, v, typ, k, literal, depth) ==
            Ended(CoerceFields(schema, leaf, rank, v, typ, k, literal, n))
    decreases n, 1, v, 0, Named(typ), k
  {
    hide IsRank, FieldsBelow, CoerceField, RunField;
    if k > 0 {
      LastFieldBelow(schema, rank, typ, v, k, n);
      RankedFieldsEnd(schema, leaf, rank, v, typ, k - 1, literal, n, depth);
      RankedFieldEnds(schema, leaf, rank, v, typ, k - 1, literal, n, depth);
    }
  }

  lemma {:induction false} RankedFieldEnds(schema: Schema, leaf: LeafCoercion, rank: map<FieldRef, nat>, v: Value,
      typ: Name, k: nat, literal: bool, n: nat, depth: nat)
    requires typ in schema && v.Object? && k < |schema[typ].fields|
    requires IsRank(schema, rank, false) && FieldsBelow(schema, rank, typ, v, k + 1, n) && depth > n
    ensures RunField(schema, leaf, v, typ, k, literal, depth) ==
            Ended(CoerceField(schema, leaf, rank, v, typ, k, literal, n))
    decreases n, 1, v, 0, Named(typ), k
  {
    hide IsRank, FieldsBelow, Below, CoerceValue, CoerceDefault, RunValue, RunDefault;
    var f := schema[typ].fields[k];
    var given := Given(v.entries, f.name, false);
    LastFieldBelow(schema, rank, typ, v, k + 1, n);
    if given.Some? {
      RankedRunEnds(schema, leaf, rank, given.value, f.typ, literal, n, depth);
    } else if !IsRequired(f) && f.default.Some? {
      RankedDefaultEnds(schema, leaf, rank, FieldRef(typ, k), depth - 1);
    }
  }

  /** Under a rank the run of every default ends, with the default that coercion gives. */
  lemma {:induction false} RankedDefaultEnds(schema: Schema, leaf: LeafCoercion, rank: map<FieldRef, nat>, r: FieldRef,
      depth: nat)
    requires IsField(schema, r) && FieldOf(schema, r).default.Some?
    requires IsRank(schema, rank, false) && (NamedType(FieldOf(schema, r).typ) in schema ==> r in rank)
    requires depth >= DepthFor(schema, FieldOf(schema, r).typ, DefaultBound(schema, rank, r))
    ensures RunDefault(schema, leaf, r, depth) == Ended(CoerceDefault(schema, leaf, rank, r))
    decreases DefaultBound(schema, rank, r), Weight(schema, FieldOf(schema, r).typ),
              FieldOf(schema, r).default.value.value, 2
  {
    hide IsRank, Below, CoerceValue, RunValue;
    var f := FieldOf(schema, r);
    var n := if NamedType(f.typ) in schema then rank[r] else 0;
    DefaultBelow(schema, rank, r);
    RankedRunEnds(schema, leaf, rank, f.default.value.value, f.typ, f.default.value.literal, n, depth);
  }

  // ---------------------------------------------------------------------------
  // Where every default can be coerced there is a rank
  // ---------------------------------------------------------------------------

  /** The run has ended with a value. */
  predicate EndsWell<T>(r: Run<T>) {
    r.Ended? && r.outcome.Ok?
  }

  predicate Coerces(schema: Schema, leaf: LeafCoercion, r: FieldRef, depth: nat) {
    HasDefault(schema, r) && EndsWell(RunDefault(schema, leaf, r, depth))
  }

  predicate DefaultEnds(schema: Schema, leaf: LeafCoercion, r: FieldRef, depth: nat) {
    HasDefault(schema, r) && RunDefault(schema, leaf, r, depth).Ended?
  }

  /** All that is asked for coerces, less deep. */
  ghost predicate AllCoerce(schema: Schema, leaf: LeafCoercion, asked: seq<FieldRef>, depth: nat) {
    forall r | r in asked :: depth > 0 && Coerces(schema, leaf, r, depth - 1)
  }

  lemma {:induction false} AskedCoerces(schema: Schema, leaf: LeafCoercion, v: Value, t: TypeRef, literal: bool,
      depth: nat)
    requires NamedType(t) in schema && EndsWell(RunValue(schema, leaf, v, t, literal, depth))
    ensures AllCoerce(schema, leaf, Asks(schema, NamedType(t), v, false), depth)
    decreases v, 1, t
  {
    hide RunItems, RunFields, AllCoerce, AsksOfItems, AsksOfFields;
    NothingAsked(schema, leaf, depth);
    match t
    case NonNull(inner) => AskedCoerces(schema, leaf, v, inner, literal, depth);
    case ListOf(item) =>
      if v.List? {
        AskedOfItemsCoerces(schema, leaf, v.items, item, literal, depth);
      } else if !IsMissing(v) {
        AskedCoerces(schema, leaf, v, item, literal, depth);
      }
    case Named(name) =>
      if v.Object? {
        AskedOfFieldsCoerces(schema, leaf, v, name, |schema[name].fields|, literal, depth);
      }
  }

  lemma {:induction false} NothingAsked(schema: Schema, leaf: LeafCoercion, depth: nat)
    ensures AllCoerce(schema, leaf, [], depth)
  {
  }

  lemma {:induction false} BothCoerce(schema: Schema, leaf: LeafCoercion, xs: seq<FieldRef>, ys: seq<FieldRef>,
      depth: nat)
    requires AllCoerce(schema, leaf, xs, depth) && AllCoerce(schema, leaf, ys, depth)
    ensures AllCoerce(schema, leaf, xs + ys, depth)
  {
    hide Coerces;
  }

  lemma {:induction false} AskedOfItemsCoerces(schema: Schema, leaf: LeafCoercion, items: seq<Value>, t: TypeRef,
      literal: bool, depth: nat)
    requires NamedType(t) in schema && EndsWell(RunItems(schema, leaf, items, t, literal, depth))
    ensures AllCoerce(schema, leaf, AsksOfItems(schema, NamedType(t), items, false), depth)
    decreases items, 0, t
  {
    hide RunValue, AllCoerce, Asks;
    NothingAsked(schema, leaf, depth);
    if items != [] {
      AskedCoerces(schema, leaf, items[0], t, literal, depth);
      AskedOfItemsCoerces(schema, leaf, items[1..], t, literal, depth);
      BothCoerce(schema, leaf, Asks(schema, NamedType(t), items[0], false),
          AsksOfItems(schema, NamedType(t), items[1..], false), depth);
    }
  }

  lemma {:induction false} AskedOfFieldsCoerces(schema: Schema, leaf: LeafCoercion, v: Value, typ: Name, k: nat,
      literal: bool, depth: nat)
    requires typ in schema && v.Object? && k <= |schema[typ].fields|
    requires EndsWell(RunFields(schema, leaf, v, typ, k, literal, depth))
    ensures AllCoerce(schema, leaf, AsksOfFields(schema, typ, v, k, false), depth)
    decreases v, 0, Named(typ), k
  {
    hide RunField, AllCoerce, AsksOfField;
    NothingAsked(schema, leaf, depth);
    if k > 0 {
      AskedOfFieldsCoerces(schema, leaf, v, typ, k - 1, literal, depth);
      AskedOfFieldCoerces(schema, leaf, v, typ, k - 1, literal, depth);
      BothCoerce(schema, leaf, AsksOfFields(schema, typ, v, k - 1, false), AsksOfField(schema, typ, v, k - 1, false),
          depth);
    }
  }

  lemma {:induction false} AskedOfFieldCoerces(schema: Schema, leaf: LeafCoercion, v: Value, typ: Name, k: nat,
      literal: bool, depth: nat)
    requires typ in schema && v.Object? && k < |schema[typ].fields|
    requires EndsWell(RunField(schema, leaf, v, typ, k, literal, depth))
    ensures AllCoerce(schema, leaf, AsksOfField(schema, typ, v, k, false), depth)
    decreases v, 0, Named(typ), k
  {
    hide RunValue, Asks;
    var f := schema[typ].fields[k];
    var given := Given(v.entries, f.name, false);
    if given.Some? && NamedType(f.typ) in schema {
      AskedCoerces(schema, leaf, given.value, f.typ, literal, depth);
    }
  }

  /** The least depth within which a default coerces. */
  ghost function LeastDepth(schema: Schema, leaf: LeafCoercion, r: FieldRef, depth: nat): (d: nat)
    requires Coerces(schema, leaf, r, depth)
    ensures Coerces(schema, leaf, r, d) && forall e: nat | e < d :: !Coerces(schema, leaf, r, e)
    decreases depth
  {
    if e: nat :| e < depth && Coerces(schema, leaf, r, e) then LeastDepth(schema, leaf, r, e) else depth
  }

  ghost function SomeDepth(schema: Schema, leaf: LeafCoercion, r: FieldRef): (d: nat)
    requires exists depth: nat :: Coerces(schema, leaf, r, depth)
    ensures Coerces(schema, leaf, r, d) && forall e: nat | e < d :: !Coerces(schema, leaf, r, e)
  {
    var depth: nat :| Coerces(schema, leaf, r, depth);
    LeastDepth(schema, leaf, r, depth)
  }

  /**
   If every default of input object type can be coerced, the depths at which they can are
   a rank. So where there is none, some default can never be coerced.
   */
  lemma {:induction false} CoercedIsRanked(schema: Schema, leaf: LeafCoercion) returns (rank: map<FieldRef, nat>)
    requires forall r | HasDefault(schema, r) :: exists depth: nat :: Coerces(schema, leaf, r, depth)
    ensures IsRank(schema, rank, false)
  {
    hide Coerces, HasDefault, AsksOfDefault;
    assert forall r | HasDefault(schema, r) :: r in AllFields(schema) by {
      DefaultsAreFields(schema);
    }
    rank := map r | r in AllFields(schema) && HasDefault(schema, r) :: SomeDepth(schema, leaf, r);
    forall r | HasDefault(schema, r)
      ensures r in rank && forall next | next in AsksOfDefault(schema, r, false) :: next in rank && rank[next] < rank[r]
    {
      DefaultAsksCoerce(schema, leaf, r, rank[r]);
      forall next | next in AsksOfDefault(schema, r, false) ensures next in rank && rank[next] < rank[r] {
        assert Coerces(schema, leaf, next, rank[r] - 1);
        CoercesHasDefault(schema, leaf, next, rank[r] - 1);
      }
    }
  }

  lemma {:induction false} DefaultsAreFields(schema: Schema)
    ensures forall r | HasDefault(schema, r) :: r in AllFields(schema)
  {
    forall r | HasDefault(schema, r) ensures r in AllFields(schema) {
      assert r == FieldRef(r.owner, r.index);
    }
  }

  lemma {:induction false} CoercesHasDefault(schema: Schema, leaf: LeafCoercion, r: FieldRef, depth: nat)
    requires Coerces(schema, leaf, r, depth)
    ensures HasDefault(schema, r)
  {
  }

  lemma {:induction false} DefaultAsksCoerce(schema: Schema, leaf: LeafCoercion, r: FieldRef, depth: nat)
    requires Coerces(schema, leaf, r, depth)
    ensures HasDefault(schema, r) && AllCoerce(schema, leaf, AsksOfDefault(schema, r, false), depth)
  {
    hide RunValue, AllCoerce, Asks;
    var f := FieldOf(schema, r);
    AskedCoerces(schema, leaf, f.default.value.value, f.typ, f.default.value.literal, depth);
  }

  /** A default on a cycle asks for the next one on it, so it never coerces. */
  lemma {:induction false} CycleNeverCoerces(schema: Schema, leaf: LeafCoercion, path: seq<FieldRef>, k: nat,
      depth: nat)
    requires path != [] && IsCycle(DroppedSchema(schema), path[0], path) && k < |path|
    ensures !Coerces(schema, leaf, path[k], depth)
    decreases depth
  {
    hide Coerces, AsksOfDefault, HasDefault, DroppedSchema, AllCoerce;
    if Coerces(schema, leaf, path[k], depth) {
      var next := if k + 1 < |path| then k + 1 else 0;
      assert Edge(DroppedSchema(schema), path[k], path[next]) by {
        assert next > 0 ==> path[next - 1] == path[k];
      }
      DefaultAsksCoerce(schema, leaf, path[k], depth);
      DroppedAsksOfDefault(schema, path[k]);
      AskedCoercesLess(schema, leaf, AsksOfDefault(schema, path[k], false), depth, path[next]);
      CycleNeverCoerces(schema, leaf, path, next, depth - 1);
    }
  }

  lemma {:induction false} AskedCoercesLess(schema: Schema, leaf: LeafCoercion, asked: seq<FieldRef>, depth: nat,
      r: FieldRef)
    requires AllCoerce(schema, leaf, asked, depth) && r in asked
    ensures depth > 0 && Coerces(schema, leaf, r, depth - 1)
  {
    hide Coerces;
  }

  /**
   Run on the schema without `Undefined` keys, the validator is right both ways: if it
   reports nothing the run of every default ends, and no field on a path that it reports
   ever coerces.
   */
  lemma {:induction false} ReportMeansNoCoercion(schema: Schema, leaf: LeafCoercion, errors: seq<CycleError>)
    requires AllCycles(DroppedSchema(schema), errors)
    requires errors == [] <==> exists rank :: IsRank(DroppedSchema(schema), rank, true)
    ensures errors == [] ==>
              forall r | HasDefault(schema, r) :: exists depth: nat :: DefaultEnds(schema, leaf, r, depth)
    ensures forall i, r, depth: nat | 0 <= i < |errors| && r in errors[i].path :: !Coerces(schema, leaf, r, depth)
    ensures forall i | 0 <= i < |errors| :: errors[i].path != [] && errors[i].path[0] == errors[i].field
  {
    SilentOnDropped(schema, errors);
    hide IsRank, Coerces, RunDefault, DroppedSchema, IsWalk, Edge, HasDefault, DefaultEnds;
    if errors == [] {
      var rank :| IsRank(schema, rank, false);
      forall r | HasDefault(schema, r) ensures exists depth: nat :: DefaultEnds(schema, leaf, r, depth) {
        var depth := RankedEnds(schema, leaf, rank, r);
      }
    }
    forall i, r, depth: nat | 0 <= i < |errors| && r in errors[i].path ensures !Coerces(schema, leaf, r, depth) {
      var path := errors[i].path;
      assert IsCycle(DroppedSchema(schema), errors[i].field, path);
      var k :| 0 <= k < |path| && path[k] == r;
      CycleNeverCoerces(schema, leaf, path, k, depth);
    }
  }

  lemma {:induction false} RankedEnds(schema: Schema, leaf: LeafCoercion, rank: map<FieldRef, nat>, r: FieldRef)
    returns (depth: nat)
    requires IsRank(schema, rank, false) && HasDefault(schema, r)
    ensures DefaultEnds(schema, leaf, r, depth)
  {
    RankedHasDefault(schema, rank, r);
    hide IsRank, RunDefault;
    depth := DepthFor(schema, FieldOf(schema, r).typ, DefaultBound(schema, rank, r));
    RankedDefaultEnds(schema, leaf, rank, r, depth);
  }

  lemma {:induction false} RankedHasDefault(schema: Schema, rank: map<FieldRef, nat>, r: FieldRef)
    requires IsRank(schema, rank, false) && HasDefault(schema, r)
    ensures IsField(schema, r) && FieldOf(schema, r).default.Some? && r in rank
  {
    hide AsksOfDefault;
  }

  // ---------------------------------------------------------------------------
  // A silent validator and a run without end
  // ---------------------------------------------------------------------------

  /** The run of the default with the key `Undefined` goes on at every depth, and so does that of an empty object. */
  lemma {:induction false} UndefinedKeyRunsForever(A: Name, a: Name, leaf: LeafCoercion, depth: nat, literal: bool)
    ensures var default := Default(Object([Entry(a, Undefined)]), false);
            var schema: Schema := map[A := InputObject([Field(a, Named(A), Some(default), None)], false)];
            && RunDefault(schema, leaf, FieldRef(A, 0), depth).GoesOn?
            && RunValue(schema, leaf, Object([]), Named(A), literal, depth).GoesOn?
    decreases depth
  {
    var v := Object([Entry(a, Undefined)]);
    var f := Field(a, Named(A), Some(Default(v, false)), None);
    var schema: Schema := map[A := InputObject([f], false)];
    if depth > 0 {
      UndefinedKeyRunsForever(A, a, leaf, depth - 1, literal);
    }
    LeftOutRuns(schema, leaf, A, f, v, false, depth);
    LeftOutRuns(schema, leaf, A, f, Object([]), literal, depth);
  }

  lemma {:induction false} LeftOutRuns(schema: Schema, leaf: LeafCoercion, A: Name, f: Field, v: Value, literal: bool,
      depth: nat)
    requires schema == map[A := InputObject([f], false)] && f.default.Some? && f.typ == Named(A)
    requires v == Object([]) || v == Object([Entry(f.name, Undefined)])
    requires depth > 0 ==> RunDefault(schema, leaf, FieldRef(A, 0), depth - 1).GoesOn?
    ensures RunValue(schema, leaf, v, Named(A), literal, depth).GoesOn?
  {
    assert Lookup(v.entries, f.name) == None || Lookup(v.entries, f.name) == Some(Undefined);
    assert Given(v.entries, f.name, false).None?;
    hide RunDefault;
    assert schema[A].fields[0] == f;
    assert RunFields(schema, leaf, v, A, 0, literal, depth) == Ended(Ok([]));
    assert RunField(schema, leaf, v, A, 0, literal, depth).GoesOn?;
    assert RunFields(schema, leaf, v, A, 1, literal, depth).GoesOn?;
  }
}
