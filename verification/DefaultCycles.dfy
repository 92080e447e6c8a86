/** `InputObjectDefaultValueCircularRefsValidator` */
module DefaultCycles {
  import opened Options
  import opened TypeRefs
  import opened InputObjects
  import Graphs

  /** A field by its type and its place among the type's fields. */
  datatype FieldRef = FieldRef(owner: Name, index: nat)

  predicate IsField(schema: Schema, r: FieldRef) {
    r.owner in schema && r.index < |schema[r.owner].fields|
  }

  function FieldOf(schema: Schema, r: FieldRef): Field
    requires IsField(schema, r)
  {
    schema[r.owner].fields[r.index]
  }

  function AllFields(schema: Schema): set<FieldRef> {
    set t, k | t in schema && 0 <= k < |schema[t].fields| :: FieldRef(t, k)
  }

  // ---------------------------------------------------------------------------
  // Which defaults a value asks for
  // ---------------------------------------------------------------------------

  /**
   The fields whose default the value asks for, in the order of the search: those of
   input object type that have a default and that an object in the value leaves out. A
   key with the value `Undefined` counts as given if `lenient`.
   */
  function Asks(schema: Schema, typ: Name, v: Value, lenient: bool): (r: seq<FieldRef>)
    requires typ in schema
    decreases v, 1, 0
  {
    match v
    case List(items) => AsksOfItems(schema, typ, items, lenient)
    case Object(entries) => AsksOfFields(schema, typ, v, |schema[typ].fields|, lenient)
    case _ => []
  }

  function AsksOfItems(schema: Schema, typ: Name, items: seq<Value>, lenient: bool): (r: seq<FieldRef>)
    requires typ in schema
    decreases items, 1, 0
  {
    if items == [] then [] else Asks(schema, typ, items[0], lenient) + AsksOfItems(schema, typ, items[1..], lenient)
  }

  /** The object's value for a field, unless it leaves the field out. */
  function Given(entries: seq<Entry>, name: Name, lenient: bool): (r: Option<Value>)
    ensures r.Some? ==> exists i :: 0 <= i < |entries| && entries[i].name == name && entries[i].value == r.value
  {
    var r := Lookup(entries, name);
    if r == Some(Undefined) && !lenient then None else r
  }

  /** The asks of an object for the first `k` fields of its type. */
  function AsksOfFields(schema: Schema, typ: Name, v: Value, k: nat, lenient: bool): (r: seq<FieldRef>)
    requires typ in schema && v.Object? && k <= |schema[typ].fields|
    decreases v, 0, k
  {
    if k == 0 then [] else AsksOfFields(schema, typ, v, k - 1, lenient) + AsksOfField(schema, typ, v, k - 1, lenient)
  }

  function AsksOfField(schema: Schema, typ: Name, v: Value, k: nat, lenient: bool): (r: seq<FieldRef>)
    requires typ in schema && v.Object? && k < |schema[typ].fields|
    decreases v, 0, k
  {
    var f := schema[typ].fields[k];
    var t := NamedType(f.typ);
    if t !in schema then []
    else
      var given := Given(v.entries, f.name, lenient);
      if given.Some? then Asks(schema, t, given.value, lenient)
      else if f.default.Some? then [FieldRef(typ, k)]
      else []
  }

  /** A field with a default of input object type. */
  predicate HasDefault(schema: Schema, r: FieldRef) {
    IsField(schema, r) && FieldOf(schema, r).default.Some? && NamedType(FieldOf(schema, r).typ) in schema
  }

  /** The defaults that a field's default asks for. */
  function AsksOfDefault(schema: Schema, r: FieldRef, lenient: bool): seq<FieldRef>
    requires HasDefault(schema, r)
  {
    var f := FieldOf(schema, r);
    Asks(schema, NamedType(f.typ), f.default.value.value, lenient)
  }

  /** Only fields with defaults are asked for. */
  lemma {:induction false} AsksHaveDefaults(schema: Schema, typ: Name, v: Value, lenient: bool)
    requires typ in schema
    ensures forall r | r in Asks(schema, typ, v, lenient) :: HasDefault(schema, r)
    decreases v, 1, 0
  {
    match v
    case List(items) => ItemsAskForDefaults(schema, typ, items, lenient);
    case Object(_) => FieldsAskForDefaults(schema, typ, v, |schema[typ].fields|, lenient);
    case _ =>
  }

  lemma {:induction false} ItemsAskForDefaults(schema: Schema, typ: Name, items: seq<Value>, lenient: bool)
    requires typ in schema
    ensures forall r | r in AsksOfItems(schema, typ, items, lenient) :: HasDefault(schema, r)
    decreases items, 1, 0
  {
    if items != [] {
      AsksHaveDefaults(schema, typ, items[0], lenient);
      ItemsAskForDefaults(schema, typ, items[1..], lenient);
    }
  }

  lemma {:induction false} FieldsAskForDefaults(schema: Schema, typ: Name, v: Value, k: nat, lenient: bool)
    requires typ in schema && v.Object? && k <= |schema[typ].fields|
    ensures forall r | r in AsksOfFields(schema, typ, v, k, lenient) :: HasDefault(schema, r)
    decreases v, 0, k
  {
    if k > 0 {
      FieldsAskForDefaults(schema, typ, v, k - 1, lenient);
      var f := schema[typ].fields[k - 1];
      var given := Given(v.entries, f.name, lenient);
      if NamedType(f.typ) in schema && given.Some? {
        AsksHaveDefaults(schema, NamedType(f.typ), given.value, lenient);
      }
    }
  }

  // ---------------------------------------------------------------------------
  // Cycles
  // ---------------------------------------------------------------------------

  datatype CycleError = CycleError(field: FieldRef, path: seq<FieldRef>)

  /** The default of one field asks for the default of another, as the search sees it. */
  predicate Edge(schema: Schema, r: FieldRef, next: FieldRef) {
    HasDefault(schema, r) && next in AsksOfDefault(schema, r, true)
  }

  predicate IsWalk(schema: Schema, path: seq<FieldRef>) {
    && (forall i | 0 <= i < |path| :: HasDefault(schema, path[i]))
    && (forall i | 0 < i < |path| :: Edge(schema, path[i - 1], path[i]))
  }

  /** Defaults that ask for each other in turn, the last for the first. */
  predicate IsCycle(schema: Schema, field: FieldRef, path: seq<FieldRef>) {
    && path != [] && IsWalk(schema, path)
    && path[0] == field && Edge(schema, path[|path| - 1], field)
  }

  predicate AllCycles(schema: Schema, errors: seq<CycleError>) {
    forall i | 0 <= i < |errors| :: IsCycle(schema, errors[i].field, errors[i].path)
  }

  /** Some reported cycle closes by asking for `next` from the default of `r`. */
  predicate Closes(errors: seq<CycleError>, r: FieldRef, next: FieldRef) {
    exists i :: 0 <= i < |errors| && ClosesAt(errors, i, r, next)
  }

  predicate ClosesAt(errors: seq<CycleError>, i: nat, r: FieldRef, next: FieldRef)
    requires i < |errors|
  {
    errors[i].field == next && errors[i].path != [] && errors[i].path[|errors[i].path| - 1] == r
  }

  /** Each of the fields closes a cycle when `top` asks for it, or is finished. */
  ghost predicate Settled(errors: seq<CycleError>, top: Option<FieldRef>, asked: seq<FieldRef>,
      finished: seq<FieldRef>) {
    forall r | r in asked :: (top.Some? && Closes(errors, top.value, r)) || r in finished
  }

  ghost predicate InOrder(schema: Schema, errors: seq<CycleError>, finished: seq<FieldRef>) {
    forall i | 0 <= i < |finished| ::
      HasDefault(schema, finished[i]) &&
      Settled(errors, Some(finished[i]), AsksOfDefault(schema, finished[i], true), finished[..i])
  }

  /** The state of the search between two fields, in one predicate. */
  ghost predicate Consistent(schema: Schema, visited: set<FieldRef>, path: seq<FieldRef>,
      index: map<FieldRef, Option<nat>>, errors: seq<CycleError>, finished: seq<FieldRef>)
  {
    && IsWalk(schema, path) && AllCycles(schema, errors) && InOrder(schema, errors, finished)
    && Colored(visited, path, finished)
    && Indexed(path, index)
  }

  /** The visited fields are those on the path and the finished ones. */
  ghost predicate Colored(visited: set<FieldRef>, path: seq<FieldRef>, finished: seq<FieldRef>) {
    && (forall r | r in visited :: r in path || r in finished)
    && (forall r | r in path :: r in visited)
    && (forall r | r in finished :: r in visited)
  }

  /** The index gives one more than the place of each field on the path, and nothing for any other. */
  ghost predicate Indexed(path: seq<FieldRef>, index: map<FieldRef, Option<nat>>) {
    && (forall i | 0 <= i < |path| :: path[i] in index && index[path[i]] == Some(i + 1))
    && (forall r | r in index && index[r].Some? :: 0 < index[r].value <= |path| && path[index[r].value - 1] == r)
  }

  ghost predicate Grows(visited: set<FieldRef>, errors: seq<CycleError>, finished: seq<FieldRef>,
      visited': set<FieldRef>, errors': seq<CycleError>, finished': seq<FieldRef>)
  {
    visited <= visited' && errors <= errors' && finished <= finished'
  }

  function Top(path: seq<FieldRef>): Option<FieldRef> {
    if path == [] then None else Some(path[|path| - 1])
  }

  /** What the top of the path may ask for. */
  ghost predicate MayAsk(schema: Schema, path: seq<FieldRef>, asked: seq<FieldRef>) {
    && (forall r | r in asked :: HasDefault(schema, r))
    && (path != [] ==> forall r | r in asked :: Edge(schema, path[|path| - 1], r))
  }

  lemma {:induction false} ClosesMore(errors: seq<CycleError>, more: seq<CycleError>, r: FieldRef, next: FieldRef)
    requires errors <= more && Closes(errors, r, next)
    ensures Closes(more, r, next)
  {
    var i :| 0 <= i < |errors| && ClosesAt(errors, i, r, next);
    assert ClosesAt(more, i, r, next);
  }

  lemma {:induction false} SettledMore(errors: seq<CycleError>, more: seq<CycleError>, top: Option<FieldRef>,
      asked: seq<FieldRef>, finished: seq<FieldRef>, longer: seq<FieldRef>)
    requires errors <= more && finished <= longer && Settled(errors, top, asked, finished)
    ensures Settled(more, top, asked, longer)
  {
    hide Closes;
    forall r | r in asked ensures (top.Some? && Closes(more, top.value, r)) || r in longer {
      if top.Some? && Closes(errors, top.value, r) {
        ClosesMore(errors, more, top.value, r);
      } else {
        assert r in finished;
      }
    }
  }

  lemma {:induction false} SettledBoth(errors: seq<CycleError>, top: Option<FieldRef>, xs: seq<FieldRef>,
      ys: seq<FieldRef>, finished: seq<FieldRef>)
    requires Settled(errors, top, xs, finished) && Settled(errors, top, ys, finished)
    ensures Settled(errors, top, xs + ys, finished)
  {
    hide Closes;
  }

  lemma {:induction false} InOrderMore(schema: Schema, errors: seq<CycleError>, more: seq<CycleError>,
      finished: seq<FieldRef>)
    requires errors <= more && InOrder(schema, errors, finished)
    ensures InOrder(schema, more, finished)
  {
    hide Settled, HasDefault, AsksOfDefault;
    forall i | 0 <= i < |finished|
      ensures HasDefault(schema, finished[i])
      ensures Settled(more, Some(finished[i]), AsksOfDefault(schema, finished[i], true), finished[..i])
    {
      SettledMore(errors, more, Some(finished[i]), AsksOfDefault(schema, finished[i], true), finished[..i],
          finished[..i]);
    }
  }

  /** A field that is on the path is asked for again: a cycle. */
  lemma {:induction false} AskCloses(schema: Schema, visited: set<FieldRef>, path: seq<FieldRef>,
      index: map<FieldRef, Option<nat>>, errors: seq<CycleError>, finished: seq<FieldRef>, r: FieldRef)
    requires Consistent(schema, visited, path, index, errors, finished) && MayAsk(schema, path, [r])
    requires r in index && index[r].Some?
    ensures 0 < index[r].value <= |path|
    ensures var more := errors + [CycleError(r, path[index[r].value - 1..])];
            && Consistent(schema, visited, path, index, more, finished)
            && Settled(more, Top(path), [r], finished)
  {
    hide HasDefault, Edge, InOrder;
    var i := index[r].value - 1;
    var cycle := path[i..];
    assert r in [r];
    forall k | 0 <= k < |cycle|
      ensures HasDefault(schema, cycle[k]) && (0 < k ==> Edge(schema, cycle[k - 1], cycle[k]))
    {
      assert cycle[k] == path[i + k];
      assert 0 < k ==> cycle[k - 1] == path[i + k - 1];
    }
    var e := CycleError(r, cycle);
    var more := errors + [e];
    assert IsCycle(schema, r, cycle);
    hide IsWalk, IsCycle;
    InOrderMore(schema, errors, more, finished);
    assert ClosesAt(more, |errors|, path[|path| - 1], r);
  }

  /** A field is put on the path. */
  lemma {:induction false} AskEnters(schema: Schema, visited: set<FieldRef>, path: seq<FieldRef>,
      index: map<FieldRef, Option<nat>>, errors: seq<CycleError>, finished: seq<FieldRef>, r: FieldRef)
    requires Consistent(schema, visited, path, index, errors, finished) && MayAsk(schema, path, [r])
    requires r !in visited
    ensures var longer := path + [r];
            && Consistent(schema, visited + {r}, longer, index[r := Some(|longer|)], errors, finished)
            && HasDefault(schema, r) && MayAsk(schema, longer, AsksOfDefault(schema, r, true))
  {
    hide IsWalk, InOrder, AllCycles, Indexed, Colored;
    WalkOn(schema, path, r);
    IndexedOn(path, index, r, visited, finished);
    ColoredOn(visited, path, finished, r);
  }

  lemma {:induction false} WalkOn(schema: Schema, path: seq<FieldRef>, r: FieldRef)
    requires IsWalk(schema, path) && MayAsk(schema, path, [r])
    ensures IsWalk(schema, path + [r]) && HasDefault(schema, r) &&
            MayAsk(schema, path + [r], AsksOfDefault(schema, r, true))
  {
    assert r in [r];
    var f := FieldOf(schema, r);
    AsksHaveDefaults(schema, NamedType(f.typ), f.default.value.value, true);
    hide HasDefault, AsksOfDefault;
  }

  lemma {:induction false} IndexedOn(path: seq<FieldRef>, index: map<FieldRef, Option<nat>>, r: FieldRef,
      visited: set<FieldRef>, finished: seq<FieldRef>)
    requires Indexed(path, index) && Colored(visited, path, finished) && r !in visited
    ensures Indexed(path + [r], index[r := Some(|path| + 1)])
  {
    var longer, index' := path + [r], index[r := Some(|path| + 1)];
    forall i | 0 <= i < |longer| ensures longer[i] in index' && index'[longer[i]] == Some(i + 1) {
      if i < |path| {
        assert path[i] in path;
        assert longer[i] == path[i] && path[i] != r;
      }
    }
    forall q | q in index' && index'[q].Some?
      ensures 0 < index'[q].value <= |longer| && longer[index'[q].value - 1] == q
    {
      if q != r {
        assert index'[q] == index[q];
      }
    }
  }

  lemma {:induction false} ColoredOn(visited: set<FieldRef>, path: seq<FieldRef>, finished: seq<FieldRef>, r: FieldRef)
    requires Colored(visited, path, finished)
    ensures Colored(visited + {r}, path + [r], finished)
  {
  }

  /** The field at the top of the path is done. */
  lemma {:induction false} AskLeaves(schema: Schema, visited: set<FieldRef>, path: seq<FieldRef>,
      index: map<FieldRef, Option<nat>>, errors: seq<CycleError>, finished: seq<FieldRef>)
    requires path != [] && Consistent(schema, visited, path, index, errors, finished)
    requires HasDefault(schema, path[|path| - 1])
    requires Settled(errors, Top(path), AsksOfDefault(schema, path[|path| - 1], true), finished)
    ensures var r := path[|path| - 1];
            Consistent(schema, visited, path[..|path| - 1], index[r := None], errors, finished + [r])
  {
    hide HasDefault, Edge, AllCycles, AsksOfDefault, Indexed, Colored, IsWalk;
    var r := path[|path| - 1];
    Finishes(schema, errors, finished, r);
    hide InOrder, Settled;
    IndexedOff(path, index);
    ColoredOff(visited, path, finished);
    WalkPrefix(schema, path, |path| - 1);
  }

  lemma {:induction false} IndexedOff(path: seq<FieldRef>, index: map<FieldRef, Option<nat>>)
    requires path != [] && Indexed(path, index)
    ensures Indexed(path[..|path| - 1], index[path[|path| - 1] := None])
  {
    var n := |path| - 1;
    var r, shorter, index' := path[n], path[..n], index[path[n] := None];
    assert index[r] == Some(n + 1);
    forall i | 0 <= i < n ensures shorter[i] in index' && index'[shorter[i]] == Some(i + 1) {
      assert shorter[i] == path[i] && index[path[i]] == Some(i + 1);
    }
    forall q | q in index' && index'[q].Some? ensures 0 < index'[q].value <= n && shorter[index'[q].value - 1] == q {
      assert q != r && index'[q] == index[q] && path[index[q].value - 1] == q;
    }
  }

  lemma {:induction false} ColoredOff(visited: set<FieldRef>, path: seq<FieldRef>, finished: seq<FieldRef>)
    requires path != [] && Colored(visited, path, finished)
    ensures Colored(visited, path[..|path| - 1], finished + [path[|path| - 1]])
  {
    assert path == path[..|path| - 1] + [path[|path| - 1]];
  }

  lemma {:induction false} WalkPrefix(schema: Schema, path: seq<FieldRef>, n: nat)
    requires n <= |path| && IsWalk(schema, path)
    ensures IsWalk(schema, path[..n])
  {
    hide HasDefault, Edge;
  }

  lemma {:induction false} Finishes(schema: Schema, errors: seq<CycleError>, finished: seq<FieldRef>, r: FieldRef)
    requires InOrder(schema, errors, finished) && HasDefault(schema, r)
    requires Settled(errors, Some(r), AsksOfDefault(schema, r, true), finished)
    ensures InOrder(schema, errors, finished + [r])
  {
    hide HasDefault, AsksOfDefault, Settled;
    var longer := finished + [r];
    forall i | 0 <= i < |longer|
      ensures HasDefault(schema, longer[i])
      ensures Settled(errors, Some(longer[i]), AsksOfDefault(schema, longer[i], true), longer[..i])
    {
      if i < |finished| {
        assert longer[i] == finished[i] && longer[..i] == finished[..i];
      } else {
        assert longer[..i] == finished;
      }
    }
  }

  lemma {:induction false} SettledNothing(errors: seq<CycleError>, top: Option<FieldRef>, finished: seq<FieldRef>)
    ensures Settled(errors, top, [], finished)
  {
  }

  lemma {:induction false} MayAskParts(schema: Schema, path: seq<FieldRef>, xs: seq<FieldRef>, ys: seq<FieldRef>)
    requires MayAsk(schema, path, xs + ys)
    ensures MayAsk(schema, path, xs) && MayAsk(schema, path, ys)
  {
    hide HasDefault, Edge;
    forall r | r in xs ensures r in xs + ys {
    }
    forall r | r in ys ensures r in xs + ys {
    }
  }

  lemma {:induction false} FewerLeft(schema: Schema, visited: set<FieldRef>, r: FieldRef)
    requires HasDefault(schema, r) && r !in visited
    ensures |AllFields(schema) - (visited + {r})| < |AllFields(schema) - visited|
  {
    assert r in AllFields(schema) - visited;
    assert AllFields(schema) - (visited + {r}) == AllFields(schema) - visited - {r};
  }

  // ---------------------------------------------------------------------------
  // The search
  // ---------------------------------------------------------------------------

  class Validator {
    const schema: Schema
    var visitedFields: set<FieldRef>
    var fieldPath: seq<FieldRef>
    var fieldPathIndex: map<FieldRef, Option<nat>>
    var errors: seq<CycleError>
    /** The fields whose search is over. */
    ghost var finished: seq<FieldRef>

    ghost predicate Valid()
      reads this
    {
      Consistent(schema, visitedFields, fieldPath, fieldPathIndex, errors, finished)
    }

    constructor (schema: Schema)
      ensures Valid() && this.schema == schema && fieldPath == [] && finished == []
    {
      this.schema := schema;
      visitedFields, fieldPath, fieldPathIndex, errors, finished := {}, [], map[], [], [];
    }

    /** `__call__`: an empty object asks for every default of the type. */
    method Check(typ: Name)
      requires Valid() && typ in schema && fieldPath == []
      modifies this
      ensures Valid() && fieldPath == [] && old(finished) <= finished
      ensures Settled(errors, None, Asks(schema, typ, Object([]), true), finished)
    {
      hide Consistent, Settled, Asks, HasDefault;
      AsksHaveDefaults(schema, typ, Object([]), true);
      DetectValueDefaultValueCycle(typ, Object([]));
    }

    /** `detect_value_default_value_cycle` and `detect_literal_default_value_cycle` */
    method DetectValueDefaultValueCycle(typ: Name, defaultValue: Value)
      requires Valid() && typ in schema && MayAsk(schema, fieldPath, Asks(schema, typ, defaultValue, true))
      modifies this
      ensures Valid() && fieldPath == old(fieldPath)
      ensures Grows(old(visitedFields), old(errors), old(finished), visitedFields, errors, finished)
      ensures Settled(errors, Top(fieldPath), Asks(schema, typ, defaultValue, true), finished)
      decreases |AllFields(schema) - visitedFields|, 1, defaultValue, 1, 0
    {
      hide Consistent, Settled, AsksOfItems, AsksOfFields, MayAsk;
      SettledNothing(errors, Top(fieldPath), finished);
      match defaultValue
      case List(items) => DetectItems(typ, items);
      case Object(_) => DetectFields(typ, defaultValue);
      case _ =>
    }

    method DetectItems(typ: Name, items: seq<Value>)
      requires Valid() && typ in schema && MayAsk(schema, fieldPath, AsksOfItems(schema, typ, items, true))
      modifies this
      ensures Valid() && fieldPath == old(fieldPath)
      ensures Grows(old(visitedFields), old(errors), old(finished), visitedFields, errors, finished)
      ensures Settled(errors, Top(fieldPath), AsksOfItems(schema, typ, items, true), finished)
      decreases |AllFields(schema) - visitedFields|, 1, items, 0, 0
    {
      hide Consistent, Settled, Asks, MayAsk, AllFields;
      SettledNothing(errors, Top(fieldPath), finished);
      for i := 0 to |items|
        invariant Valid() && fieldPath == old(fieldPath)
        invariant Grows(old(visitedFields), old(errors), old(finished), visitedFields, errors, finished)
        invariant Settled(errors, Top(fieldPath), AsksOfItems(schema, typ, items[..i], true), finished)
      {
        ghost var e, f := errors, finished;
        ItemsSnoc(schema, typ, items, i);
        MayAskParts(schema, fieldPath, AsksOfItems(schema, typ, items[..i], true) + Asks(schema, typ, items[i], true),
                    AsksOfItems(schema, typ, items[i + 1..], true));
        MayAskParts(schema, fieldPath, AsksOfItems(schema, typ, items[..i], true), Asks(schema, typ, items[i], true));
        Graphs.StillLeft(AllFields(schema), old(visitedFields), visitedFields);
        DetectValueDefaultValueCycle(typ, items[i]);
        SettledMore(e, errors, Top(fieldPath), AsksOfItems(schema, typ, items[..i], true), f, finished);
        SettledBoth(errors, Top(fieldPath), AsksOfItems(schema, typ, items[..i], true),
            Asks(schema, typ, items[i], true), finished);
      }
      assert items[..|items|] == items;
    }

    method DetectFields(typ: Name, defaultValue: Value)
      requires Valid() && typ in schema && defaultValue.Object?
      requires MayAsk(schema, fieldPath, AsksOfFields(schema, typ, defaultValue, |schema[typ].fields|, true))
      modifies this
      ensures Valid() && fieldPath == old(fieldPath)
      ensures Grows(old(visitedFields), old(errors), old(finished), visitedFields, errors, finished)
      ensures Settled(errors, Top(fieldPath), AsksOfFields(schema, typ, defaultValue, |schema[typ].fields|, true),
              finished)
      decreases |AllFields(schema) - visitedFields|, 1, defaultValue, 0, 1
    {
      hide Consistent, Settled, AsksOfField, MayAsk, AllFields;
      SettledNothing(errors, Top(fieldPath), finished);
      for k := 0 to |schema[typ].fields|
        invariant Valid() && fieldPath == old(fieldPath)
        invariant Grows(old(visitedFields), old(errors), old(finished), visitedFields, errors, finished)
        invariant Settled(errors, Top(fieldPath), AsksOfFields(schema, typ, defaultValue, k, true), finished)
      {
        ghost var e, f := errors, finished;
        ghost var before := AsksOfFields(schema, typ, defaultValue, k, true);
        ghost var here := AsksOfField(schema, typ, defaultValue, k, true);
        FieldsUpTo(schema, typ, defaultValue, k, fieldPath);
        Graphs.StillLeft(AllFields(schema), old(visitedFields), visitedFields);
        DetectField(typ, defaultValue, k);
        SettledMore(e, errors, Top(fieldPath), before, f, finished);
        SettledBoth(errors, Top(fieldPath), before, here, finished);
      }
    }

    /** One round of the loop over the fields of a type. */
    method DetectField(typ: Name, defaultValue: Value, k: nat)
      requires Valid() && typ in schema && defaultValue.Object? && k < |schema[typ].fields|
      requires MayAsk(schema, fieldPath, AsksOfField(schema, typ, defaultValue, k, true))
      modifies this
      ensures Valid() && fieldPath == old(fieldPath)
      ensures Grows(old(visitedFields), old(errors), old(finished), visitedFields, errors, finished)
      ensures Settled(errors, Top(fieldPath), AsksOfField(schema, typ, defaultValue, k, true), finished)
      decreases |AllFields(schema) - visitedFields|, 1, defaultValue, 0, 0
    {
      hide Consistent, Settled, Asks, MayAsk, AllFields;
      SettledNothing(errors, Top(fieldPath), finished);
      var field := schema[typ].fields[k];
      var namedFieldType := NamedType(field.typ);
      if namedFieldType !in schema {
        return;
      }
      var given := Lookup(defaultValue.entries, field.name);
      if given.Some? {
        DetectValueDefaultValueCycle(namedFieldType, given.value);
      } else if field.default.Some? {
        DetectFieldDefaultValueCycle(FieldRef(typ, k));
      }
    }

    /** `detect_field_default_value_cycle`, for a field that has a default. */
    method DetectFieldDefaultValueCycle(r: FieldRef)
      requires Valid() && MayAsk(schema, fieldPath, [r])
      modifies this
      ensures Valid() && fieldPath == old(fieldPath)
      ensures Grows(old(visitedFields), old(errors), old(finished), visitedFields, errors, finished)
      ensures Settled(errors, Top(fieldPath), [r], finished)
      decreases |AllFields(schema) - visitedFields|, 0
    {
      hide Settled, Asks, AllFields, Consistent, MayAsk, HasDefault;
      if r in fieldPathIndex && fieldPathIndex[r].Some? {
        AskCloses(schema, visitedFields, fieldPath, fieldPathIndex, errors, finished, r);
        errors := errors + [CycleError(r, fieldPath[fieldPathIndex[r].value - 1..])];
      } else if r !in visitedFields {
        AskEnters(schema, visitedFields, fieldPath, fieldPathIndex, errors, finished, r);
        DefaultOf(schema, r);
        FewerLeft(schema, visitedFields, r);
        visitedFields := visitedFields + {r};
        fieldPath := fieldPath + [r];
        fieldPathIndex := fieldPathIndex[r := Some(|fieldPath|)];
        var field := FieldOf(schema, r);
        DetectValueDefaultValueCycle(NamedType(field.typ), field.default.value.value);
        AskLeaves(schema, visitedFields, fieldPath, fieldPathIndex, errors, finished);
        fieldPath := fieldPath[..|fieldPath| - 1];
        assert fieldPath == old(fieldPath);
        fieldPathIndex := fieldPathIndex[r := None];
        finished := finished + [r];
        SettledByFinish(errors, Top(fieldPath), r, finished);
      } else {
        VisitedBefore(schema, visitedFields, fieldPath, fieldPathIndex, errors, finished, r);
        SettledByFinish(errors, Top(fieldPath), r, finished);
      }
    }
  }

  lemma {:induction false} SettledByFinish(errors: seq<CycleError>, top: Option<FieldRef>, r: FieldRef,
      finished: seq<FieldRef>)
    requires r in finished
    ensures Settled(errors, top, [r], finished)
  {
  }

  /** What was visited and is not on the path is finished. */
  lemma {:induction false} VisitedBefore(schema: Schema, visited: set<FieldRef>, path: seq<FieldRef>,
      index: map<FieldRef, Option<nat>>, errors: seq<CycleError>, finished: seq<FieldRef>, r: FieldRef)
    requires Consistent(schema, visited, path, index, errors, finished)
    requires r in visited && !(r in index && index[r].Some?)
    ensures r in finished
  {
  }

  lemma {:induction false} DefaultOf(schema: Schema, r: FieldRef)
    requires HasDefault(schema, r)
    ensures IsField(schema, r)
    ensures var f := FieldOf(schema, r);
            && f.default.Some? && NamedType(f.typ) in schema
            && AsksOfDefault(schema, r, true) == Asks(schema, NamedType(f.typ), f.default.value.value, true)
  {
  }

  lemma {:induction false} ItemsConcat(schema: Schema, typ: Name, xs: seq<Value>, ys: seq<Value>)
    requires typ in schema
    ensures AsksOfItems(schema, typ, xs + ys, true) ==
            AsksOfItems(schema, typ, xs, true) + AsksOfItems(schema, typ, ys, true)
  {
    hide Asks;
    if xs == [] {
      assert xs + ys == ys;
    } else {
      assert (xs + ys)[1..] == xs[1..] + ys;
      ItemsConcat(schema, typ, xs[1..], ys);
    }
  }

  lemma {:induction false} ItemsSnoc(schema: Schema, typ: Name, items: seq<Value>, i: nat)
    requires typ in schema && i < |items|
    ensures AsksOfItems(schema, typ, items[..i + 1], true) ==
            AsksOfItems(schema, typ, items[..i], true) + Asks(schema, typ, items[i], true)
    ensures AsksOfItems(schema, typ, items, true) ==
            AsksOfItems(schema, typ, items[..i], true) + Asks(schema, typ, items[i], true)
            + AsksOfItems(schema, typ, items[i + 1..], true)
  {
    hide Asks;
    var one := [items[i]];
    assert items[..i + 1] == items[..i] + one && one[1..] == [];
    ItemsConcat(schema, typ, items[..i], one);
    assert items == items[..i + 1] + items[i + 1..];
    ItemsConcat(schema, typ, items[..i + 1], items[i + 1..]);
  }

  lemma {:induction false} FieldsUpTo(schema: Schema, typ: Name, v: Value, k: nat, path: seq<FieldRef>)
    requires typ in schema && v.Object? && k < |schema[typ].fields|
    requires MayAsk(schema, path, AsksOfFields(schema, typ, v, |schema[typ].fields|, true))
    ensures MayAsk(schema, path, AsksOfField(schema, typ, v, k, true))
  {
    FieldsUpToN(schema, typ, v, k, |schema[typ].fields|, path);
  }

  lemma {:induction false} FieldsUpToN(schema: Schema, typ: Name, v: Value, k: nat, n: nat, path: seq<FieldRef>)
    requires typ in schema && v.Object? && k < n <= |schema[typ].fields|
    requires MayAsk(schema, path, AsksOfFields(schema, typ, v, n, true))
    ensures MayAsk(schema, path, AsksOfField(schema, typ, v, k, true))
  {
    hide MayAsk, AsksOfField;
    MayAskParts(schema, path, AsksOfFields(schema, typ, v, n - 1, true), AsksOfField(schema, typ, v, n - 1, true));
    if k < n - 1 {
      FieldsUpToN(schema, typ, v, k, n - 1, path);
    }
  }

  // ---------------------------------------------------------------------------
  // Which cycles are reported
  // ---------------------------------------------------------------------------

  /** An empty object asks for every default of its type. */
  lemma {:induction false} EmptyObjectAsks(schema: Schema, typ: Name, n: nat, k: nat)
    requires typ in schema && k < n <= |schema[typ].fields| && HasDefault(schema, FieldRef(typ, k))
    ensures FieldRef(typ, k) in AsksOfFields(schema, typ, Object([]), n, true)
  {
    if k < n - 1 {
      EmptyObjectAsks(schema, typ, n - 1, k);
    } else {
      var v: Value := Object([]);
      assert Lookup(v.entries, schema[typ].fields[k].name) == None;
      assert AsksOfField(schema, typ, v, k, true) == [FieldRef(typ, k)];
      hide AsksOfField;
      assert FieldRef(typ, k) in [FieldRef(typ, k)];
    }
  }

  /** Every field with a default has been searched, and what is reported are cycles. */
  ghost predicate Searched(schema: Schema, errors: seq<CycleError>, finished: seq<FieldRef>) {
    && AllCycles(schema, errors) && InOrder(schema, errors, finished)
    && forall r | HasDefault(schema, r) :: r in finished
  }

  lemma {:induction false} WalkGoesBack(schema: Schema, errors: seq<CycleError>, finished: seq<FieldRef>,
      path: seq<FieldRef>, last: FieldRef, i: nat)
    returns (j: nat)
    requires InOrder(schema, errors, finished) && IsWalk(schema, path) && path != [] &&
             Edge(schema, path[|path| - 1], last)
    requires forall k | 0 < k < |path| :: !Closes(errors, path[k - 1], path[k])
    requires !Closes(errors, path[|path| - 1], last)
    requires i < |finished| && finished[i] == path[0]
    ensures j < i && finished[j] == last
    decreases |path|
  {
    hide HasDefault, AsksOfDefault, Closes;
    assert Settled(errors, Some(finished[i]), AsksOfDefault(schema, finished[i], true), finished[..i]);
    var next := if |path| == 1 then last else path[1];
    assert |path| > 1 ==> Edge(schema, path[1 - 1], path[1]) && !Closes(errors, path[1 - 1], path[1]);
    assert next in finished[..i];
    j :| 0 <= j < i && finished[..i][j] == next;
    if |path| > 1 {
      var rest := path[1..];
      forall k | 0 < k < |rest| ensures Edge(schema, rest[k - 1], rest[k]) && !Closes(errors, rest[k - 1], rest[k]) {
        assert rest[k - 1] == path[k + 1 - 1] && rest[k] == path[k + 1];
      }
      j := WalkGoesBack(schema, errors, finished, rest, last, j);
    }
  }

  /** The walk takes an edge with which some reported cycle closes. */
  ghost predicate TakesReported(errors: seq<CycleError>, path: seq<FieldRef>) {
    path != [] &&
    ((exists k :: 0 < k < |path| && Closes(errors, path[k - 1], path[k])) || Closes(errors, path[|path| - 1], path[0]))
  }

  lemma {:induction false} NoLeastCycle(schema: Schema, errors: seq<CycleError>, finished: seq<FieldRef>,
      path: seq<FieldRef>, i: nat)
    requires InOrder(schema, errors, finished) && path != [] && IsCycle(schema, path[0], path) &&
             !TakesReported(errors, path)
    requires i < |finished| && finished[i] == path[0]
    ensures false
    decreases i
  {
    hide HasDefault, AsksOfDefault, Closes, Settled;
    var j := WalkGoesBack(schema, errors, finished, path, path[0], i);
    NoLeastCycle(schema, errors, finished, path, j);
  }

  /** Every cycle of defaults takes an edge with which some reported cycle closes. */
  lemma {:induction false} EveryCycleIsReported(schema: Schema, errors: seq<CycleError>, finished: seq<FieldRef>,
      path: seq<FieldRef>)
    requires Searched(schema, errors, finished) && path != [] && IsCycle(schema, path[0], path)
    ensures TakesReported(errors, path)
  {
    hide HasDefault, AsksOfDefault, Closes, Settled, InOrder, TakesReported;
    assert HasDefault(schema, path[0]);
    if !TakesReported(errors, path) {
      var i :| 0 <= i < |finished| && finished[i] == path[0];
      NoLeastCycle(schema, errors, finished, path, i);
    }
  }

  /** A number for every field with a default, greater than those of all the defaults it asks for. */
  ghost predicate IsRank(schema: Schema, rank: map<FieldRef, nat>, lenient: bool) {
    forall r | HasDefault(schema, r) ::
      r in rank && forall next | next in AsksOfDefault(schema, r, lenient) :: next in rank && rank[next] < rank[r]
  }

  /** Where nothing is reported, the order in which the fields finish is a rank. */
  lemma {:induction false} FinishOrderIsRank(schema: Schema, finished: seq<FieldRef>)
    returns (rank: map<FieldRef, nat>)
    requires Searched(schema, [], finished)
    ensures IsRank(schema, rank, true)
  {
    hide HasDefault, AsksOfDefault;
    rank := map r | r in finished :: First(finished, r);
    forall r | HasDefault(schema, r)
      ensures r in rank && forall next | next in AsksOfDefault(schema, r, true) :: next in rank && rank[next] < rank[r]
    {
      var i := First(finished, r);
      assert Settled([], Some(finished[i]), AsksOfDefault(schema, finished[i], true), finished[..i]);
      forall next | next in AsksOfDefault(schema, r, true) ensures next in rank && rank[next] < rank[r] {
        assert next in finished[..i];
        FirstInPrefix(finished, i, next);
      }
    }
  }

  function First(s: seq<FieldRef>, r: FieldRef): (i: nat)
    requires r in s
    ensures i < |s| && s[i] == r
    ensures forall k | 0 <= k < i :: s[k] != r
  {
    if s[0] == r then 0 else 1 + First(s[1..], r)
  }

  lemma {:induction false} FirstInPrefix(s: seq<FieldRef>, i: nat, r: FieldRef)
    requires i <= |s| && r in s[..i]
    ensures r in s && First(s, r) < i
  {
    var k :| 0 <= k < i && s[..i][k] == r;
    assert s[k] == r;
  }

  /** A walk that goes on to one more field ends below where it began. */
  lemma {:induction false} RankDrops(schema: Schema, rank: map<FieldRef, nat>, path: seq<FieldRef>, next: FieldRef)
    requires IsRank(schema, rank, true) && path != [] && IsWalk(schema, path) && Edge(schema, path[|path| - 1], next)
    ensures path[0] in rank && next in rank && rank[next] < rank[path[0]]
  {
    hide HasDefault, AsksOfDefault;
    RankFalls(schema, rank, path, |path| - 1);
    var r := path[|path| - 1];
    assert HasDefault(schema, r) && next in AsksOfDefault(schema, r, true);
  }

  /** A rank rules out cycles. */
  lemma {:induction false} RankedHasNoCycle(schema: Schema, rank: map<FieldRef, nat>, path: seq<FieldRef>)
    requires IsRank(schema, rank, true) && path != []
    ensures !IsCycle(schema, path[0], path)
  {
    hide IsRank, IsWalk, Edge;
    if IsCycle(schema, path[0], path) {
      RankDrops(schema, rank, path, path[0]);
    }
  }

  lemma {:induction false} RankFalls(schema: Schema, rank: map<FieldRef, nat>, path: seq<FieldRef>, k: nat)
    requires IsRank(schema, rank, true) && IsWalk(schema, path) && k < |path|
    ensures path[0] in rank && path[k] in rank && rank[path[k]] <= rank[path[0]]
  {
    hide HasDefault, AsksOfDefault;
    assert HasDefault(schema, path[0]);
    if k > 0 {
      RankFalls(schema, rank, path, k - 1);
      assert Edge(schema, path[k - 1], path[k]);
    }
  }

  /**
   The validator, called for every input object type in turn: it reports nothing exactly
   when the defaults can be ranked, which is exactly when no default asks for itself.
   */
  method ValidateDefaultCycles(schema: Schema, names: seq<Name>) returns (errors: seq<CycleError>)
    requires forall t :: t in names <==> t in schema
    ensures AllCycles(schema, errors)
    ensures errors == [] <==> exists rank :: IsRank(schema, rank, true)
    ensures errors == [] <==> forall path | path != [] :: !IsCycle(schema, path[0], path)
    ensures forall path | path != [] && IsCycle(schema, path[0], path) :: TakesReported(errors, path)
  {
    hide Consistent, Settled, AsksOfFields, AsksOfDefault, IsRank;
    var validator := new Validator(schema);
    for i := 0 to |names|
      invariant validator.Valid() && validator.schema == schema && fresh(validator) && validator.fieldPath == []
      invariant forall k, n | 0 <= k < i && HasDefault(schema, FieldRef(names[k], n)) ::
                  FieldRef(names[k], n) in validator.finished
    {
      validator.Check(names[i]);
      forall n | HasDefault(schema, FieldRef(names[i], n)) ensures FieldRef(names[i], n) in validator.finished {
        EmptyObjectAsks(schema, names[i], |schema[names[i]].fields|, n);
        AskedIsFinished(validator.errors, Asks(schema, names[i], Object([]), true), validator.finished,
            FieldRef(names[i], n));
      }
    }
    errors := validator.errors;
    ghost var finished := validator.finished;
    forall r | HasDefault(schema, r) ensures r in finished {
      assert r == FieldRef(r.owner, r.index);
      var k :| 0 <= k < |names| && names[k] == r.owner;
    }
    SearchedAll(schema, validator.visitedFields, validator.fieldPathIndex, errors, finished);
    ReportsIffUnranked(schema, errors, finished);
  }

  lemma {:induction false} AskedIsFinished(errors: seq<CycleError>, asked: seq<FieldRef>, finished: seq<FieldRef>,
      r: FieldRef)
    requires Settled(errors, None, asked, finished) && r in asked
    ensures r in finished
  {
  }

  lemma {:induction false} SearchedAll(schema: Schema, visited: set<FieldRef>, index: map<FieldRef, Option<nat>>,
      errors: seq<CycleError>, finished: seq<FieldRef>)
    requires Consistent(schema, visited, [], index, errors, finished)
    requires forall r | HasDefault(schema, r) :: r in finished
    ensures Searched(schema, errors, finished)
  {
  }

  lemma {:induction false} ReportsIffUnranked(schema: Schema, errors: seq<CycleError>, finished: seq<FieldRef>)
    requires Searched(schema, errors, finished)
    ensures AllCycles(schema, errors)
    ensures errors == [] <==> exists rank :: IsRank(schema, rank, true)
    ensures errors == [] <==> forall path | path != [] :: !IsCycle(schema, path[0], path)
    ensures forall path | path != [] && IsCycle(schema, path[0], path) :: TakesReported(errors, path)
  {
    hide IsRank, IsCycle, InOrder, HasDefault, TakesReported;
    forall path | path != [] && IsCycle(schema, path[0], path) ensures TakesReported(errors, path) {
      EveryCycleIsReported(schema, errors, finished, path);
    }
    if errors == [] {
      var rank := FinishOrderIsRank(schema, finished);
      forall path | path != [] ensures !IsCycle(schema, path[0], path) {
        RankedHasNoCycle(schema, rank, path);
      }
    } else {
      var path := errors[0].path;
      FirstCycle(schema, errors);
      forall rank ensures !IsRank(schema, rank, true) {
        if IsRank(schema, rank, true) {
          RankedHasNoCycle(schema, rank, path);
        }
      }
    }
  }

  lemma {:induction false} FirstCycle(schema: Schema, errors: seq<CycleError>)
    requires errors != [] && AllCycles(schema, errors)
    ensures var path := errors[0].path; path != [] && IsCycle(schema, path[0], path)
  {
    hide IsWalk, Edge;
  }
}
