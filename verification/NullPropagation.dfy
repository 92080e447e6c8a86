/**
 Completing values and propagating errors, for resolvers that answer at once: section
 6.4.4 of the GraphQL specification. What the resolvers answer is given as a tree.
 */
module NullPropagation {
  import opened Options

  /** Response names, which are only compared. */
  type Name(==, !new)

  datatype Key = Field(name: Name) | Index(index: nat)

  /** A position in the response, as the keys that lead to it. */
  type Position = seq<Key>

  datatype OutputType =
    | LeafType
    | CompositeType
    | ListType(item: OutputType)
    | NonNullType(inner: OutputType)

  /**
   What a resolver answers. A value says how each kind of type would complete it: the
   leaf it is coerced to, if it can be; its items, if it is iterable; and the fields to
   be executed on it, if its runtime type can be determined.
   */
  datatype Answer =
    | Exception(error: int)
    | Null
    | Value(leaf: Option<int>, isIterable: bool, items: seq<Answer>, hasType: bool, fields: seq<FieldAnswer>)

  /** A field to be executed, under its response name; fields that the type lacks have no type. */
  datatype FieldAnswer = FieldAnswer(name: Name, typ: Option<OutputType>, answer: Answer)

  /** Data of the response. */
  datatype Data =
    | NullData
    | LeafData(leaf: int)
    | ListData(items: seq<Data>)
    | ObjectData(entries: seq<Entry>)

  datatype Entry = Entry(name: Name, data: Data)

  /** An error that the executor raises by itself, or one that a resolver raised. */
  datatype Cause = NullForNonNull | NotIterable | NotCoercible | NoRuntimeType | FromResolver(error: int)

  /** An error, with the position at which it was located. */
  datatype Error = Error(cause: Cause, path: Option<Position>)

  /** `located_error`: an error that is already located stays where it is. */
  function Located(e: Error, path: Position): Error {
    if e.path.Some? then e else Error(e.cause, Some(path))
  }

  /** An error that is logged, with the position that is null because of it. */
  datatype Record = Record(position: Position, error: Error)

  /** What completion gives, or the error it raises, and what it has logged. */
  datatype Completion<+T> =
    | Done(value: T, log: seq<Record>)
    | Raised(error: Error, log: seq<Record>)

  function After<T>(log: seq<Record>, c: Completion<T>): Completion<T> {
    match c
    case Done(value, more) => Done(value, log + more)
    case Raised(error, more) => Raised(error, log + more)
  }

  /** `complete_value` */
  function CompleteValue(propagate: bool, t: OutputType, a: Answer, path: Position): Completion<Data>
    decreases a, 1, t
  {
    if a.Exception? then Raised(Error(FromResolver(a.error), None), [])
    else
      match t
      case NonNullType(inner) =>
        var c := CompleteValue(propagate, inner, a, path);
        if c.Done? && c.value.NullData? then Raised(Error(NullForNonNull, None), c.log) else c
      case ListType(item) =>
        if a.Null? then Done(NullData, [])
        else if !a.isIterable then Raised(Error(NotIterable, None), [])
        else
          var c := CompleteItems(propagate, item, a.items, path, 0);
          if c.Done? then Done(ListData(c.value), c.log) else Raised(c.error, c.log)
      case LeafType =>
        if a.Null? then Done(NullData, [])
        else if a.leaf.None? then Raised(Error(NotCoercible, None), [])
        else Done(LeafData(a.leaf.value), [])
      case CompositeType =>
        if a.Null? then Done(NullData, [])
        else if !a.hasType then Raised(Error(NoRuntimeType, None), [])
        else
          var c := CompleteFields(propagate, a.fields, path);
          if c.Done? then Done(ObjectData(c.value), c.log) else Raised(c.error, c.log)
  }

  /**
   A position that can be null on its own: a field or an item of a list. Its errors are
   raised further only where its type is non-null (`handle_field_error`).
   */
  function CompletePosition(propagate: bool, t: OutputType, a: Answer, path: Position): Completion<Data>
    decreases a, 2, t
  {
    var c := CompleteValue(propagate, t, a, path);
    if c.Done? then c
    else
      var e := Located(c.error, path);
      if propagate && t.NonNullType? then Raised(e, c.log) else Done(NullData, c.log + [Record(path, e)])
  }

  /** The items of a list, the first of which has the given index. */
  function CompleteItems(propagate: bool, t: OutputType, items: seq<Answer>, path: Position,
      index: nat): (c: Completion<seq<Data>>)
    ensures c.Done? ==> |c.value| == |items|
    decreases items, 0, t
  {
    if items == [] then Done([], [])
    else
      var first := CompletePosition(propagate, t, items[0], path + [Index(index)]);
      if first.Raised? then Raised(first.error, first.log)
      else
        var rest := After(first.log, CompleteItems(propagate, t, items[1..], path, index + 1));
        if rest.Raised? then rest else Done([first.value] + rest.value, rest.log)
  }

  /** `execute_field` */
  function CompleteField(propagate: bool, f: FieldAnswer, path: Position): Completion<Data>
    requires f.typ.Some?
    decreases f, 0
  {
    CompletePosition(propagate, f.typ.value, f.answer, path + [Field(f.name)])
  }

  /** `execute_fields` and `execute_fields_serially` */
  function CompleteFields(propagate: bool, fields: seq<FieldAnswer>, path: Position): Completion<seq<Entry>>
    decreases fields, 0
  {
    if fields == [] then Done([], [])
    else if fields[0].typ.None? then CompleteFields(propagate, fields[1..], path)
    else
      var first := CompleteField(propagate, fields[0], path);
      if first.Raised? then Raised(first.error, first.log)
      else
        var rest := After(first.log, CompleteFields(propagate, fields[1..], path));
        if rest.Raised? then rest else Done([Entry(fields[0].name, first.value)] + rest.value, rest.log)
  }

  datatype Response = Response(data: Option<seq<Entry>>, log: seq<Record>)

  /** `execute_operation`: an error that no position stops leaves no data. */
  function Execute(propagate: bool, fields: seq<FieldAnswer>): Response {
    var c := CompleteFields(propagate, fields, []);
    if c.Done? then Response(Some(c.value), c.log) else Response(None, c.log + [Record([], c.error)])
  }

  // ---------------------------------------------------------------------------
  // The response never holds null where it must not
  // ---------------------------------------------------------------------------

  ghost predicate Conforms(t: OutputType, d: Data, a: Answer)
    decreases a, 1, t
  {
    match t
    case NonNullType(inner) => !d.NullData? && Conforms(inner, d, a)
    case ListType(item) =>
      d.NullData? || (d.ListData? && a.Value? && |d.items| == |a.items|
                      && forall i | 0 <= i < |a.items| :: Conforms(item, d.items[i], a.items[i]))
    case LeafType => d.NullData? || d.LeafData?
    case CompositeType => d.NullData? || (d.ObjectData? && a.Value? && FieldsConform(a.fields, d.entries))
  }

  /** An entry for every field that has a type, of that type, in their order. */
  ghost predicate FieldsConform(fields: seq<FieldAnswer>, entries: seq<Entry>)
    decreases fields, 0
  {
    if fields == [] then entries == []
    else if fields[0].typ.None? then FieldsConform(fields[1..], entries)
    else
      entries != [] && FieldConforms(fields[0], entries[0]) && FieldsConform(fields[1..], entries[1..])
  }

  ghost predicate FieldConforms(f: FieldAnswer, e: Entry)
    decreases f, 0
  {
    e.name == f.name && (f.typ.Some? ==> Conforms(f.typ.value, e.data, f.answer))
  }

  lemma {:induction false} ValueConforms(t: OutputType, a: Answer, path: Position)
    ensures var c := CompleteValue(true, t, a, path); c.Done? ==> Conforms(t, c.value, a)
    decreases a, 1, t
  {
    hide CompleteItems, CompleteFields, FieldsConform;
    match t
    case NonNullType(inner) => ValueConforms(inner, a, path);
    case ListType(item) =>
      if a.Value? && a.isIterable {
        ItemsConform(item, a.items, path, 0);
      }
    case LeafType =>
    case CompositeType =>
      if a.Value? && a.hasType {
        AllFieldsConform(a.fields, path);
      }
  }

  lemma {:induction false} PositionConforms(t: OutputType, a: Answer, path: Position)
    ensures var c := CompletePosition(true, t, a, path); c.Done? ==> Conforms(t, c.value, a)
    decreases a, 2, t
  {
    ValueConforms(t, a, path);
    hide CompleteValue;
  }

  lemma {:induction false} ItemsConform(t: OutputType, items: seq<Answer>, path: Position, index: nat)
    ensures var c := CompleteItems(true, t, items, path, index);
            c.Done? ==> forall i | 0 <= i < |items| :: Conforms(t, c.value[i], items[i])
    decreases items, 0, t
  {
    hide CompletePosition, Conforms;
    if items != [] {
      PositionConforms(t, items[0], path + [Index(index)]);
      ItemsConform(t, items[1..], path, index + 1);
    }
  }

  lemma {:induction false} OneFieldConforms(f: FieldAnswer, path: Position)
    requires f.typ.Some?
    ensures var c := CompleteField(true, f, path); c.Done? ==> FieldConforms(f, Entry(f.name, c.value))
    decreases f, 0
  {
    hide CompletePosition, Conforms;
    PositionConforms(f.typ.value, f.answer, path + [Field(f.name)]);
  }

  lemma {:induction false} AllFieldsConform(fields: seq<FieldAnswer>, path: Position)
    ensures var c := CompleteFields(true, fields, path); c.Done? ==> FieldsConform(fields, c.value)
    decreases fields, 0
  {
    hide CompleteField, FieldConforms;
    if fields != [] {
      if fields[0].typ.Some? {
        OneFieldConforms(fields[0], path);
      }
      AllFieldsConform(fields[1..], path);
      var c := CompleteFields(true, fields, path);
      if c.Done? && fields[0].typ.Some? {
        assert c.value[1..] == CompleteFields(true, fields[1..], path).value;
      }
    }
  }

  // ---------------------------------------------------------------------------
  // Where errors are recorded
  // ---------------------------------------------------------------------------

  /** Everything logged is at the position or below it. */
  ghost predicate Within(log: seq<Record>, path: Position) {
    forall i | 0 <= i < |log| :: path <= log[i].position
  }

  ghost predicate Below(log: seq<Record>, path: Position) {
    forall i | 0 <= i < |log| :: path < log[i].position
  }

  lemma {:induction false} WithinChild(log: seq<Record>, path: Position, k: Key)
    requires Within(log, path + [k])
    ensures Below(log, path)
  {
    forall i | 0 <= i < |log| ensures path < log[i].position {
      assert path + [k] <= log[i].position;
    }
  }

  lemma {:induction false} ValueLogsBelow(propagate: bool, t: OutputType, a: Answer, path: Position)
    ensures Below(CompleteValue(propagate, t, a, path).log, path)
    decreases a, 1, t
  {
    hide CompleteItems, CompleteFields;
    match t
    case NonNullType(inner) => ValueLogsBelow(propagate, inner, a, path);
    case ListType(item) =>
      if a.Value? && a.isIterable {
        ItemsLogBelow(propagate, item, a.items, path, 0);
      }
    case LeafType =>
    case CompositeType =>
      if a.Value? && a.hasType {
        FieldsLogBelow(propagate, a.fields, path);
      }
  }

  lemma {:induction false} PositionLogsWithin(propagate: bool, t: OutputType, a: Answer, path: Position)
    ensures Within(CompletePosition(propagate, t, a, path).log, path)
    decreases a, 2, t
  {
    ValueLogsBelow(propagate, t, a, path);
    hide CompleteValue;
  }

  lemma {:induction false} ItemsLogBelow(propagate: bool, t: OutputType, items: seq<Answer>, path: Position, index: nat)
    ensures Below(CompleteItems(propagate, t, items, path, index).log, path)
    ensures forall i | 0 <= i < |CompleteItems(propagate, t, items, path, index).log| ::
              var p := CompleteItems(propagate, t, items, path, index).log[i].position;
              |p| > |path| && p[|path|].Index? && p[|path|].index >= index
    decreases items, 0, t
  {
    hide CompletePosition;
    if items != [] {
      PositionLogsWithin(propagate, t, items[0], path + [Index(index)]);
      WithinChild(CompletePosition(propagate, t, items[0], path + [Index(index)]).log, path, Index(index));
      AtKey(CompletePosition(propagate, t, items[0], path + [Index(index)]).log, path, Index(index));
      ItemsLogBelow(propagate, t, items[1..], path, index + 1);
    }
  }

  lemma {:induction false} AtKey(log: seq<Record>, path: Position, k: Key)
    requires Within(log, path + [k])
    ensures forall i | 0 <= i < |log| :: |log[i].position| > |path| && log[i].position[|path|] == k
  {
    forall i | 0 <= i < |log| ensures |log[i].position| > |path| && log[i].position[|path|] == k {
      assert path + [k] <= log[i].position;
      assert (path + [k])[|path|] == k;
    }
  }

  /** The response names of the fields that are executed. */
  function ResponseNames(fields: seq<FieldAnswer>): seq<Name> {
    if fields == [] then []
    else (if fields[0].typ.Some? then [fields[0].name] else []) + ResponseNames(fields[1..])
  }

  lemma {:induction false} FieldsLogBelow(propagate: bool, fields: seq<FieldAnswer>, path: Position)
    ensures Below(CompleteFields(propagate, fields, path).log, path)
    ensures forall i | 0 <= i < |CompleteFields(propagate, fields, path).log| ::
              var p := CompleteFields(propagate, fields, path).log[i].position;
              |p| > |path| && p[|path|].Field? && p[|path|].name in ResponseNames(fields)
    decreases fields, 0
  {
    hide CompleteField;
    if fields != [] {
      if fields[0].typ.Some? {
        FieldLogsWithin(propagate, fields[0], path);
        WithinChild(CompleteField(propagate, fields[0], path).log, path, Field(fields[0].name));
        AtKey(CompleteField(propagate, fields[0], path).log, path, Field(fields[0].name));
      }
      FieldsLogBelow(propagate, fields[1..], path);
    }
  }

  lemma {:induction false} FieldLogsWithin(propagate: bool, f: FieldAnswer, path: Position)
    requires f.typ.Some?
    ensures Within(CompleteField(propagate, f, path).log, path + [Field(f.name)])
    decreases f, 0
  {
    hide CompletePosition;
    PositionLogsWithin(propagate, f.typ.value, f.answer, path + [Field(f.name)]);
  }

  // ---------------------------------------------------------------------------
  // No recorded position is at or above a later one
  // ---------------------------------------------------------------------------

  /** The fields of every object have distinct response names, as the keys of a dictionary have. */
  ghost predicate DistinctNames(a: Answer)
    decreases a, 1
  {
    a.Value? ==> (forall i | 0 <= i < |a.items| :: DistinctNames(a.items[i])) && DistinctFields(a.fields)
  }

  ghost predicate DistinctFields(fields: seq<FieldAnswer>)
    decreases fields, 0
  {
    fields != [] ==>
      && DistinctInField(fields[0]) && DistinctFields(fields[1..])
      && (fields[0].typ.Some? ==> fields[0].name !in ResponseNames(fields[1..]))
  }

  ghost predicate DistinctInField(f: FieldAnswer)
    decreases f, 0
  {
    DistinctNames(f.answer)
  }

  /** An error is only recorded where no position above has been recorded before. */
  ghost predicate Ordered(log: seq<Record>) {
    forall i, j | 0 <= i < j < |log| :: !(log[i].position <= log[j].position)
  }

  lemma {:induction false} OrderedThen(log: seq<Record>, more: seq<Record>)
    requires Ordered(log) && Ordered(more)
    requires forall i, j | 0 <= i < |log| && 0 <= j < |more| :: !(log[i].position <= more[j].position)
    ensures Ordered(log + more)
  {
  }

  /** Positions that part below a common one. */
  lemma {:induction false} Parted(log: seq<Record>, more: seq<Record>, path: Position, k: Key)
    requires Within(log, path + [k]) && Below(more, path)
    requires forall j | 0 <= j < |more| :: |more[j].position| > |path| && more[j].position[|path|] != k
    ensures forall i, j | 0 <= i < |log| && 0 <= j < |more| :: !(log[i].position <= more[j].position)
  {
    AtKey(log, path, k);
    forall i, j | 0 <= i < |log| && 0 <= j < |more| ensures !(log[i].position <= more[j].position) {
      assert log[i].position[|path|] != more[j].position[|path|];
    }
  }

  lemma {:induction false} ValueLogsInOrder(propagate: bool, t: OutputType, a: Answer, path: Position)
    requires DistinctNames(a)
    ensures Ordered(CompleteValue(propagate, t, a, path).log)
    decreases a, 1, t
  {
    hide CompleteItems, CompleteFields;
    match t
    case NonNullType(inner) => ValueLogsInOrder(propagate, inner, a, path);
    case ListType(item) =>
      if a.Value? && a.isIterable {
        ItemsLogInOrder(propagate, item, a.items, path, 0);
      }
    case LeafType =>
    case CompositeType =>
      if a.Value? && a.hasType {
        FieldsLogInOrder(propagate, a.fields, path);
      }
  }

  lemma {:induction false} PositionLogsInOrder(propagate: bool, t: OutputType, a: Answer, path: Position)
    requires DistinctNames(a)
    ensures Ordered(CompletePosition(propagate, t, a, path).log)
    decreases a, 2, t
  {
    ValueLogsInOrder(propagate, t, a, path);
    ValueLogsBelow(propagate, t, a, path);
    hide CompleteValue, DistinctNames;
  }

  lemma {:induction false} ItemsLogInOrder(propagate: bool, t: OutputType, items: seq<Answer>, path: Position,
      index: nat)
    requires forall i | 0 <= i < |items| :: DistinctNames(items[i])
    ensures Ordered(CompleteItems(propagate, t, items, path, index).log)
    decreases items, 0, t
  {
    hide CompletePosition, DistinctNames, Ordered;
    LogsNothing();
    if items != [] {
      var first := CompletePosition(propagate, t, items[0], path + [Index(index)]);
      PositionLogsInOrder(propagate, t, items[0], path + [Index(index)]);
      PositionLogsWithin(propagate, t, items[0], path + [Index(index)]);
      ItemsLogInOrder(propagate, t, items[1..], path, index + 1);
      ItemsLogBelow(propagate, t, items[1..], path, index + 1);
      var rest := CompleteItems(propagate, t, items[1..], path, index + 1);
      Parted(first.log, rest.log, path, Index(index));
      OrderedThen(first.log, rest.log);
    }
  }

  lemma {:induction false} LogsNothing()
    ensures Ordered([])
  {
  }

  lemma {:induction false} FieldLogsInOrder(propagate: bool, f: FieldAnswer, path: Position)
    requires f.typ.Some? && DistinctInField(f)
    ensures Ordered(CompleteField(propagate, f, path).log)
    decreases f, 0
  {
    hide CompletePosition, DistinctNames, Ordered;
    PositionLogsInOrder(propagate, f.typ.value, f.answer, path + [Field(f.name)]);
  }

  lemma {:induction false} FieldsLogInOrder(propagate: bool, fields: seq<FieldAnswer>, path: Position)
    requires DistinctFields(fields)
    ensures Ordered(CompleteFields(propagate, fields, path).log)
    decreases fields, 0
  {
    hide CompleteField, DistinctInField, Ordered;
    LogsNothing();
    if fields != [] {
      FieldsLogInOrder(propagate, fields[1..], path);
      if fields[0].typ.Some? {
        var first := CompleteField(propagate, fields[0], path);
        var rest := CompleteFields(propagate, fields[1..], path);
        FieldLogsInOrder(propagate, fields[0], path);
        FieldLogsWithin(propagate, fields[0], path);
        FieldsLogBelow(propagate, fields[1..], path);
        Parted(first.log, rest.log, path, Field(fields[0].name));
        OrderedThen(first.log, rest.log);
      }
    }
  }

  // ---------------------------------------------------------------------------
  // What is null in the response
  // ---------------------------------------------------------------------------

  function EntryOf(entries: seq<Entry>, name: Name): Option<Data> {
    if entries == [] then None
    else if entries[0].name == name then Some(entries[0].data)
    else EntryOf(entries[1..], name)
  }

  function Child(d: Data, k: Key): Option<Data> {
    match k
    case Index(i) => if d.ListData? && i < |d.items| then Some(d.items[i]) else None
    case Field(name) => if d.ObjectData? then EntryOf(d.entries, name) else None
  }

  /** On the way along the keys, or at their end, there is null. */
  predicate NullAlong(d: Data, keys: Position)
    decreases |keys|
  {
    d.NullData? || (keys != [] && var child := Child(d, keys[0]); child.Some? && NullAlong(child.value, keys[1..]))
  }

  /** The data at the end of the keys. */
  function DataAt(d: Data, keys: Position): Option<Data>
    decreases |keys|
  {
    if keys == [] then Some(d)
    else
      var child := Child(d, keys[0]);
      if child.None? then None else DataAt(child.value, keys[1..])
  }

  /** Exactly at the end of the keys, or else on the way along them, there is null. */
  predicate IsNull(exact: bool, d: Data, keys: Position) {
    if exact then DataAt(d, keys) == Some(NullData) else NullAlong(d, keys)
  }

  /** Every recorded position, or one above it if not exact, is null in the data, which stands at `path`. */
  ghost predicate AllNulled(exact: bool, d: Data, log: seq<Record>, path: Position) {
    Within(log, path) && forall i | 0 <= i < |log| :: IsNull(exact, d, log[i].position[|path|..])
  }

  /** A child's nulls are nulls of the whole. */
  lemma {:induction false} ChildNulled(exact: bool, d: Data, log: seq<Record>, path: Position, k: Key)
    requires Child(d, k).Some? && AllNulled(exact, Child(d, k).value, log, path + [k])
    ensures AllNulled(exact, d, log, path)
  {
    AtKey(log, path, k);
    forall i | 0 <= i < |log| ensures path <= log[i].position && IsNull(exact, d, log[i].position[|path|..]) {
      var p := log[i].position;
      assert path + [k] <= p;
      assert p[|path|..][0] == k && p[|path|..][1..] == p[|path + [k]|..];
    }
  }

  lemma {:induction false} NulledThen(exact: bool, d: Data, log: seq<Record>, more: seq<Record>, path: Position)
    requires AllNulled(exact, d, log, path) && AllNulled(exact, d, more, path)
    ensures AllNulled(exact, d, log + more, path)
  {
    hide IsNull;
  }

  lemma {:induction false} ValueNulls(propagate: bool, t: OutputType, a: Answer, path: Position)
    requires DistinctNames(a)
    ensures var c := CompleteValue(propagate, t, a, path); c.Done? ==> AllNulled(!propagate, c.value, c.log, path)
    decreases a, 1, t
  {
    ValueLogsBelow(propagate, t, a, path);
    hide CompleteItems, CompleteFields;
    match t
    case NonNullType(inner) => ValueNulls(propagate, inner, a, path);
    case ListType(item) =>
      if a.Value? && a.isIterable {
        ItemsNull(propagate, item, a.items, path, 0, []);
      }
    case LeafType =>
    case CompositeType =>
      if a.Value? && a.hasType {
        FieldsNull(propagate, a.fields, path, []);
        PrependNothing(CompleteFields(propagate, a.fields, path));
      }
  }

  lemma {:induction false} PrependNothing<T>(c: Completion<seq<T>>)
    ensures c.Done? ==> [] + c.value == c.value
  {
  }

  /** Without propagation, what raises or is null has recorded nothing: all below has dealt with its own errors. */
  lemma {:induction false} RaisesQuietly(t: OutputType, a: Answer, path: Position)
    ensures var c := CompleteValue(false, t, a, path); c.Raised? || c.value.NullData? ==> c.log == []
    decreases t
  {
    hide CompleteItems, CompleteFields;
    match t
    case NonNullType(inner) => RaisesQuietly(inner, a, path);
    case ListType(item) =>
      if a.Value? && a.isIterable {
        AllItemsComplete(item, a.items, path, 0);
      }
    case LeafType =>
    case CompositeType =>
      if a.Value? && a.hasType {
        AllFieldsComplete(a.fields, path);
      }
  }

  lemma {:induction false} AllItemsComplete(t: OutputType, items: seq<Answer>, path: Position, index: nat)
    ensures CompleteItems(false, t, items, path, index).Done?
    decreases |items|
  {
    hide CompletePosition;
    if items != [] {
      NothingIsRaised(t, items[0], path + [Index(index)]);
      AllItemsComplete(t, items[1..], path, index + 1);
    }
  }

  lemma {:induction false} PositionNulls(propagate: bool, t: OutputType, a: Answer, path: Position)
    requires DistinctNames(a)
    ensures var c := CompletePosition(propagate, t, a, path); c.Done? ==> AllNulled(!propagate, c.value, c.log, path)
    decreases a, 2, t
  {
    ValueNulls(propagate, t, a, path);
    PositionLogsWithin(propagate, t, a, path);
    if !propagate {
      RaisesQuietly(t, a, path);
    }
    hide CompleteValue, DistinctNames;
  }

  lemma {:induction false} ItemsNull(propagate: bool, t: OutputType, items: seq<Answer>, path: Position, index: nat,
      before: seq<Data>)
    requires (forall i | 0 <= i < |items| :: DistinctNames(items[i])) && |before| == index
    ensures var c := CompleteItems(propagate, t, items, path, index);
            c.Done? ==> AllNulled(!propagate, ListData(before + c.value), c.log, path)
    decreases items, 0, t
  {
    hide CompletePosition, DistinctNames, AllNulled;
    NothingNulled(!propagate, ListData(before), path);
    assert before + [] == before;
    if items != [] {
      var first := CompletePosition(propagate, t, items[0], path + [Index(index)]);
      PositionNulls(propagate, t, items[0], path + [Index(index)]);
      var c := CompleteItems(propagate, t, items, path, index);
      if c.Done? {
        ItemsNull(propagate, t, items[1..], path, index + 1, before + [first.value]);
        var rest := CompleteItems(propagate, t, items[1..], path, index + 1);
        var d := ListData(before + c.value);
        assert before + [first.value] + rest.value == before + c.value;
        assert Child(d, Index(index)) == Some(first.value);
        ChildNulled(!propagate, d, first.log, path, Index(index));
        NulledThen(!propagate, d, first.log, rest.log, path);
      }
    }
  }

  lemma {:induction false} NothingNulled(exact: bool, d: Data, path: Position)
    ensures AllNulled(exact, d, [], path)
  {
  }

  lemma {:induction false} FieldNulls(propagate: bool, f: FieldAnswer, path: Position)
    requires f.typ.Some? && DistinctInField(f)
    ensures var c := CompleteField(propagate, f, path);
            c.Done? ==> AllNulled(!propagate, c.value, c.log, path + [Field(f.name)])
    decreases f, 0
  {
    hide CompletePosition, DistinctNames, AllNulled;
    PositionNulls(propagate, f.typ.value, f.answer, path + [Field(f.name)]);
  }

  lemma {:induction false} EntryAfter(before: seq<Entry>, e: Entry, rest: seq<Entry>)
    requires forall i | 0 <= i < |before| :: before[i].name != e.name
    ensures EntryOf(before + [e] + rest, e.name) == Some(e.data)
  {
    var all := before + [e] + rest;
    if before != [] {
      assert all[1..] == before[1..] + [e] + rest;
      EntryAfter(before[1..], e, rest);
    }
  }

  lemma {:induction false} FieldsNull(propagate: bool, fields: seq<FieldAnswer>, path: Position, before: seq<Entry>)
    requires DistinctFields(fields) && forall i | 0 <= i < |before| :: before[i].name !in ResponseNames(fields)
    ensures var c := CompleteFields(propagate, fields, path);
            c.Done? ==> AllNulled(!propagate, ObjectData(before + c.value), c.log, path)
    decreases fields, 0
  {
    hide CompleteField, DistinctInField, AllNulled;
    NothingNulled(!propagate, ObjectData(before), path);
    assert before + [] == before;
    if fields != [] {
      if fields[0].typ.None? {
        FieldsNull(propagate, fields[1..], path, before);
      } else {
        var name := fields[0].name;
        var first := CompleteField(propagate, fields[0], path);
        FieldNulls(propagate, fields[0], path);
        var c := CompleteFields(propagate, fields, path);
        assert name in ResponseNames(fields);
        if c.Done? {
          var e := Entry(name, first.value);
          FieldsNull(propagate, fields[1..], path, before + [e]);
          var rest := CompleteFields(propagate, fields[1..], path);
          var d := ObjectData(before + c.value);
          assert before + [e] + rest.value == before + c.value;
          EntryAfter(before, e, rest.value);
          ChildNulled(!propagate, d, first.log, path, Field(name));
          NulledThen(!propagate, d, first.log, rest.log, path);
        }
      }
    }
  }

  // ---------------------------------------------------------------------------
  // Why something is null
  // ---------------------------------------------------------------------------

  function FieldOf(fields: seq<FieldAnswer>, name: Name): Option<Answer> {
    if fields == [] then None
    else if fields[0].typ.Some? && fields[0].name == name then Some(fields[0].answer)
    else FieldOf(fields[1..], name)
  }

  /** What the resolvers answer at the end of the keys. */
  function AnswerAt(a: Answer, keys: Position): Option<Answer>
    decreases |keys|
  {
    if keys == [] then Some(a)
    else if !a.Value? then None
    else
      match keys[0]
      case Index(i) => if i < |a.items| then AnswerAt(a.items[i], keys[1..]) else None
      case Field(name) =>
        var child := FieldOf(a.fields, name);
        if child.None? then None else AnswerAt(child.value, keys[1..])
  }

  predicate IsRecorded(log: seq<Record>, p: Position) {
    exists i :: 0 <= i < |log| && log[i].position == p
  }

  /** Null at the end of the keys is what the resolvers answered there, or is recorded. */
  predicate Justified(d: Data, a: Answer, log: seq<Record>, path: Position, keys: Position) {
    DataAt(d, keys) == Some(NullData) ==> AnswerAt(a, keys) == Some(Null) || IsRecorded(log, path + keys)
  }

  lemma {:induction false} RecordedThen(log: seq<Record>, more: seq<Record>, p: Position)
    ensures IsRecorded(log, p) || IsRecorded(more, p) ==> IsRecorded(log + more, p)
  {
    if IsRecorded(log, p) {
      var i :| 0 <= i < |log| && log[i].position == p;
      assert (log + more)[i].position == p;
    }
    if IsRecorded(more, p) {
      var i :| 0 <= i < |more| && more[i].position == p;
      assert (log + more)[|log| + i].position == p;
    }
  }

  lemma {:induction false} ValueNullsAreJustified(propagate: bool, t: OutputType, a: Answer, path: Position,
      keys: Position)
    requires DistinctNames(a)
    ensures var c := CompleteValue(propagate, t, a, path); c.Done? ==> Justified(c.value, a, c.log, path, keys)
    decreases a, 1, t
  {
    hide CompleteItems, CompleteFields, IsRecorded;
    match t
    case NonNullType(inner) => ValueNullsAreJustified(propagate, inner, a, path, keys);
    case ListType(item) =>
      if a.Value? && a.isIterable && keys != [] && keys[0].Index? {
        ItemNullsAreJustified(propagate, item, a.items, path, 0, keys);
      }
    case LeafType =>
    case CompositeType =>
      if a.Value? && a.hasType && keys != [] && keys[0].Field? {
        FieldNullsAreJustified(propagate, a.fields, path, keys);
      }
  }

  lemma {:induction false} PositionNullsAreJustified(propagate: bool, t: OutputType, a: Answer, path: Position,
      keys: Position)
    requires DistinctNames(a)
    ensures var c := CompletePosition(propagate, t, a, path); c.Done? ==> Justified(c.value, a, c.log, path, keys)
    decreases a, 2, t
  {
    ValueNullsAreJustified(propagate, t, a, path, keys);
    hide CompleteValue, DistinctNames;
    var c := CompleteValue(propagate, t, a, path);
    if c.Raised? && keys == [] && !(propagate && t.NonNullType?) {
      var log := c.log + [Record(path, Located(c.error, path))];
      assert log[|c.log|].position == path == path + keys;
    }
  }

  lemma {:induction false} ItemNullsAreJustified(propagate: bool, t: OutputType, items: seq<Answer>, path: Position,
      index: nat, keys: Position)
    requires forall i | 0 <= i < |items| :: DistinctNames(items[i])
    requires keys != [] && keys[0].Index? && keys[0].index >= index
    ensures var c := CompleteItems(propagate, t, items, path, index);
            var i := keys[0].index - index;
            c.Done? && i < |items| ==>
              (DataAt(c.value[i], keys[1..]) == Some(NullData) ==>
                 AnswerAt(items[i], keys[1..]) == Some(Null) || IsRecorded(c.log, path + keys))
    decreases items, 0, t
  {
    hide CompletePosition, DistinctNames, DataAt, AnswerAt, IsRecorded;
    if items != [] {
      var c := CompleteItems(propagate, t, items, path, index);
      var first := CompletePosition(propagate, t, items[0], path + [Index(index)]);
      var rest := CompleteItems(propagate, t, items[1..], path, index + 1);
      if c.Done? {
        RecordedThen(first.log, rest.log, path + keys);
        if keys[0].index == index {
          PositionNullsAreJustified(propagate, t, items[0], path + [Index(index)], keys[1..]);
          assert path + [Index(index)] + keys[1..] == path + keys;
        } else {
          ItemNullsAreJustified(propagate, t, items[1..], path, index + 1, keys);
        }
      }
    }
  }

  lemma {:induction false} OneFieldNullsAreJustified(propagate: bool, f: FieldAnswer, path: Position, keys: Position)
    requires f.typ.Some? && DistinctInField(f)
    ensures var c := CompleteField(propagate, f, path);
            c.Done? ==> Justified(c.value, f.answer, c.log, path + [Field(f.name)], keys)
    decreases f, 0
  {
    hide CompletePosition, DistinctNames, Justified;
    PositionNullsAreJustified(propagate, f.typ.value, f.answer, path + [Field(f.name)], keys);
  }

  lemma {:induction false} FieldNullsAreJustified(propagate: bool, fields: seq<FieldAnswer>, path: Position,
      keys: Position)
    requires DistinctFields(fields) && keys != [] && keys[0].Field?
    ensures var c := CompleteFields(propagate, fields, path);
            c.Done? ==>
              var d, a := EntryOf(c.value, keys[0].name), FieldOf(fields, keys[0].name);
              && (d.Some? <==> a.Some?)
              && (d.Some? && DataAt(d.value, keys[1..]) == Some(NullData) ==>
                    AnswerAt(a.value, keys[1..]) == Some(Null) || IsRecorded(c.log, path + keys))
    decreases fields, 0
  {
    hide CompleteField, DistinctInField, DataAt, AnswerAt, IsRecorded;
    if fields != [] {
      var c := CompleteFields(propagate, fields, path);
      FieldNullsAreJustified(propagate, fields[1..], path, keys);
      if c.Done? && fields[0].typ.Some? {
        var first, rest := CompleteField(propagate, fields[0], path), CompleteFields(propagate, fields[1..], path);
        RecordedThen(first.log, rest.log, path + keys);
        assert c.value[1..] == rest.value;
        if fields[0].name == keys[0].name {
          OneFieldNullsAreJustified(propagate, fields[0], path, keys[1..]);
          assert path + [Field(fields[0].name)] + keys[1..] == path + keys;
        }
      }
    }
  }

  // ---------------------------------------------------------------------------
  // Where errors come from
  // ---------------------------------------------------------------------------

  /** The error says that it comes from the recorded position or, if errors propagate, from there or below. */
  ghost predicate ComesFrom(propagate: bool, r: Record) {
    r.error.path.Some? && if propagate then r.position <= r.error.path.value else r.position == r.error.path.value
  }

  ghost predicate AllComeFrom(propagate: bool, log: seq<Record>) {
    forall i | 0 <= i < |log| :: ComesFrom(propagate, log[i])
  }

  /** The error that leaves a position comes from there or from below. */
  ghost predicate LeavesFrom(e: Error, path: Position) {
    e.path.Some? && path <= e.path.value
  }

  lemma {:induction false} ComeFromThen(propagate: bool, log: seq<Record>, more: seq<Record>)
    requires AllComeFrom(propagate, log) && AllComeFrom(propagate, more)
    ensures AllComeFrom(propagate, log + more)
  {
    hide ComesFrom;
  }

  lemma {:induction false} ValueErrorsComeFrom(propagate: bool, t: OutputType, a: Answer, path: Position)
    ensures var c := CompleteValue(propagate, t, a, path);
            && AllComeFrom(propagate, c.log)
            && (c.Raised? ==> c.error.path.None? || (propagate && LeavesFrom(c.error, path)))
    decreases a, 1, t
  {
    hide CompleteItems, CompleteFields, ComesFrom;
    match t
    case NonNullType(inner) => ValueErrorsComeFrom(propagate, inner, a, path);
    case ListType(item) =>
      if a.Value? && a.isIterable {
        ItemErrorsComeFrom(propagate, item, a.items, path, 0);
      }
    case LeafType =>
    case CompositeType =>
      if a.Value? && a.hasType {
        FieldErrorsComeFrom(propagate, a.fields, path);
      }
  }

  lemma {:induction false} PositionErrorsComeFrom(propagate: bool, t: OutputType, a: Answer, path: Position)
    ensures var c := CompletePosition(propagate, t, a, path);
            && AllComeFrom(propagate, c.log)
            && (c.Raised? ==> propagate && LeavesFrom(c.error, path))
    decreases a, 2, t
  {
    ValueErrorsComeFrom(propagate, t, a, path);
    hide CompleteValue;
  }

  lemma {:induction false} ItemErrorsComeFrom(propagate: bool, t: OutputType, items: seq<Answer>, path: Position,
      index: nat)
    ensures var c := CompleteItems(propagate, t, items, path, index);
            && AllComeFrom(propagate, c.log)
            && (c.Raised? ==> propagate && LeavesFrom(c.error, path))
    decreases items, 0, t
  {
    hide CompletePosition, ComesFrom;
    if items != [] {
      PositionErrorsComeFrom(propagate, t, items[0], path + [Index(index)]);
      ItemErrorsComeFrom(propagate, t, items[1..], path, index + 1);
      ComeFromThen(propagate, CompletePosition(propagate, t, items[0], path + [Index(index)]).log,
          CompleteItems(propagate, t, items[1..], path, index + 1).log);
      assert path <= path + [Index(index)];
    }
  }

  lemma {:induction false} OneFieldErrorsComeFrom(propagate: bool, f: FieldAnswer, path: Position)
    requires f.typ.Some?
    ensures var c := CompleteField(propagate, f, path);
            && AllComeFrom(propagate, c.log)
            && (c.Raised? ==> propagate && LeavesFrom(c.error, path))
    decreases f, 0
  {
    hide CompletePosition, ComesFrom;
    PositionErrorsComeFrom(propagate, f.typ.value, f.answer, path + [Field(f.name)]);
    assert path <= path + [Field(f.name)];
  }

  lemma {:induction false} FieldErrorsComeFrom(propagate: bool, fields: seq<FieldAnswer>, path: Position)
    ensures var c := CompleteFields(propagate, fields, path);
            && AllComeFrom(propagate, c.log)
            && (c.Raised? ==> propagate && LeavesFrom(c.error, path))
    decreases fields, 0
  {
    hide CompleteField, ComesFrom;
    if fields != [] {
      FieldErrorsComeFrom(propagate, fields[1..], path);
      if fields[0].typ.Some? {
        OneFieldErrorsComeFrom(propagate, fields[0], path);
        ComeFromThen(propagate, CompleteField(propagate, fields[0], path).log,
            CompleteFields(propagate, fields[1..], path).log);
      }
    }
  }

  /** Every error of the response says where it comes from, and there is null on the way to there, or right there. */
  ghost predicate ErrorsAreNulled(exact: bool, d: Data, log: seq<Record>) {
    forall i | 0 <= i < |log| :: log[i].error.path.Some? && IsNull(exact, d, log[i].error.path.value)
  }

  lemma {:induction false} NullAbove(d: Data, keys: Position, longer: Position)
    requires NullAlong(d, keys) && keys <= longer
    ensures NullAlong(d, longer)
    decreases |keys|
  {
    if !d.NullData? {
      NullAbove(Child(d, keys[0]).value, keys[1..], longer[1..]);
    }
  }

  lemma {:induction false} NulledErrors(propagate: bool, d: Data, log: seq<Record>)
    requires AllNulled(!propagate, d, log, []) && AllComeFrom(propagate, log)
    ensures ErrorsAreNulled(!propagate, d, log)
  {
    forall i | 0 <= i < |log| ensures log[i].error.path.Some? && IsNull(!propagate, d, log[i].error.path.value) {
      assert ComesFrom(propagate, log[i]) && log[i].position[0..] == log[i].position;
      if propagate {
        NullAbove(d, log[i].position, log[i].error.path.value);
      }
    }
  }

  // ---------------------------------------------------------------------------
  // Responses
  // ---------------------------------------------------------------------------

  /** Without propagation no error is ever raised: every position stops its own. */
  lemma {:induction false} NothingIsRaised(t: OutputType, a: Answer, path: Position)
    ensures CompletePosition(false, t, a, path).Done?
  {
    hide CompleteValue;
  }

  lemma {:induction false} AllFieldsComplete(fields: seq<FieldAnswer>, path: Position)
    ensures CompleteFields(false, fields, path).Done?
    decreases |fields|
  {
    hide CompletePosition;
    if fields != [] {
      AllFieldsComplete(fields[1..], path);
      if fields[0].typ.Some? {
        NothingIsRaised(fields[0].typ.value, fields[0].answer, path + [Field(fields[0].name)]);
      }
    }
  }

  /**
   What a response promises with error propagation. It holds no null where its types
   have none; data is missing exactly when an error reaches the root, which is then the
   last one recorded; every recorded position or one above it is null; every null is
   answered or recorded; no recorded position is at or above a later one; and every error
   says where it comes from, which is at or below its recorded position, so that on the
   way to there the data is null.
   */
  lemma {:induction false} ResponseKeepsItsPromises(fields: seq<FieldAnswer>)
    requires DistinctFields(fields)
    ensures var r := Execute(true, fields);
            && (r.data.Some? ==> FieldsConform(fields, r.data.value))
            && (r.data.None? <==> IsRecorded(r.log, []))
            && (r.data.None? ==> r.log[|r.log| - 1].position == [])
            && (r.data.Some? ==> AllNulled(false, ObjectData(r.data.value), r.log, []))
            && (r.data.Some? ==> forall keys: Position | keys != [] && keys[0].Field? ::
                  var d, a := EntryOf(r.data.value, keys[0].name), FieldOf(fields, keys[0].name);
                  d.Some? && DataAt(d.value, keys[1..]) == Some(NullData) ==>
                    a.Some? && (AnswerAt(a.value, keys[1..]) == Some(Null) || IsRecorded(r.log, keys)))
            && Ordered(r.log)
            && AllComeFrom(true, r.log)
            && (r.data.Some? ==> ErrorsAreNulled(false, ObjectData(r.data.value), r.log))
  {
    hide CompleteField, DistinctFields, FieldsConform, AllNulled, DataAt, AnswerAt, Ordered, AllComeFrom,
        ErrorsAreNulled;
    var c := CompleteFields(true, fields, []);
    AllFieldsConform(fields, []);
    FieldsLogBelow(true, fields, []);
    FieldsLogInOrder(true, fields, []);
    FieldsNull(true, fields, [], []);
    PrependNothing(c);
    FieldErrorsComeFrom(true, fields, []);
    if c.Raised? {
      OrderedThenRoot(c.log, Record([], c.error));
      FromRoot(c.error);
      ComeFromThen(true, c.log, [Record([], c.error)]);
    } else {
      NulledErrors(true, ObjectData(c.value), c.log);
      forall keys: Position | keys != [] && keys[0].Field?
        ensures var d, a := EntryOf(c.value, keys[0].name), FieldOf(fields, keys[0].name);
                d.Some? && DataAt(d.value, keys[1..]) == Some(NullData) ==>
                  a.Some? && (AnswerAt(a.value, keys[1..]) == Some(Null) || IsRecorded(c.log, keys))
      {
        FieldNullsAreJustified(true, fields, [], keys);
        assert [] + keys == keys;
      }
    }
  }

  lemma {:induction false} OrderedThenRoot(log: seq<Record>, root: Record)
    requires Ordered(log) && Below(log, []) && root.position == []
    ensures Ordered(log + [root]) && IsRecorded(log + [root], [])
  {
    var all := log + [root];
    assert all[|log|].position == [];
    forall i | 0 <= i < |log| ensures !(log[i].position <= root.position) {
      assert [] < log[i].position;
    }
  }

  lemma {:induction false} FromRoot(e: Error)
    requires e.path.Some?
    ensures AllComeFrom(true, [Record([], e)])
  {
  }

  /**
   Without error propagation there is always data, every recorded position is itself null
   and is where its error says that it comes from, and none is at or above a later one.
   */
  lemma {:induction false} UnpropagatedResponse(fields: seq<FieldAnswer>)
    requires DistinctFields(fields)
    ensures var r := Execute(false, fields);
            && r.data.Some? && Ordered(r.log) && AllComeFrom(false, r.log)
            && (forall i | 0 <= i < |r.log| :: DataAt(ObjectData(r.data.value), r.log[i].position) == Some(NullData))
            && ErrorsAreNulled(true, ObjectData(r.data.value), r.log)
  {
    hide CompleteField, DistinctFields, Ordered, AllComeFrom, ErrorsAreNulled, DataAt;
    var c := CompleteFields(false, fields, []);
    AllFieldsComplete(fields, []);
    FieldsLogInOrder(false, fields, []);
    FieldsNull(false, fields, [], []);
    FieldErrorsComeFrom(false, fields, []);
    PrependNothing(c);
    NulledErrors(false, ObjectData(c.value), c.log);
    forall i | 0 <= i < |c.log| ensures DataAt(ObjectData(c.value), c.log[i].position) == Some(NullData) {
      assert IsNull(true, ObjectData(c.value), c.log[i].position[0..]) && c.log[i].position[0..] == c.log[i].position;
    }
  }
}
