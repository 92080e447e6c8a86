/**
 The executor's synchronous paths as objects: the collected errors with the positions
 they have nulled, and the completion methods that add to them.
 */
module Executor {
  import opened Options
  import opened NullPropagation

  /** A position as a linked list; `NoPath` stands for `None`, the position of the root. */
  datatype Path = NoPath | Path(prev: Path, key: Key)

  function AsList(path: Path): Position {
    if path.NoPath? then [] else AsList(path.prev) + [path.key]
  }

  lemma {:induction false} AsListIsInjective(p: Path, q: Path)
    ensures AsList(p) == AsList(q) <==> p == q
  {
    if p.Path? && q.Path? && AsList(p) == AsList(q) {
      assert AsList(p)[..|AsList(p)| - 1] == AsList(p.prev);
      assert AsList(q)[..|AsList(q)| - 1] == AsList(q.prev);
      assert AsList(p)[|AsList(p)| - 1] == p.key && AsList(q)[|AsList(q)| - 1] == q.key;
      AsListIsInjective(p.prev, q.prev);
    }
  }

  ghost function Positions(paths: set<Path>): set<Position> {
    set p | p in paths :: AsList(p)
  }

  /** The position or one above it is among the positions. */
  ghost predicate IsNulled(positions: set<Position>, p: Position) {
    exists q :: q in positions && q <= p
  }

  function ErrorsOf(log: seq<Record>): (r: seq<Error>)
    ensures |r| == |log| && forall i | 0 <= i < |log| :: r[i] == log[i].error
  {
    if log == [] then [] else [log[0].error] + ErrorsOf(log[1..])
  }

  function PositionsOf(log: seq<Record>): set<Position> {
    set i | 0 <= i < |log| :: log[i].position
  }

  class CollectedErrors {
    var errorPositions: set<Path>
    var errors: seq<Error>

    constructor ()
      ensures errorPositions == {} && errors == []
    {
      errorPositions, errors := {}, [];
    }

    /** `has_nulled_position` */
    method HasNulledPosition(startPath: Path) returns (r: bool)
      ensures r <==> IsNulled(Positions(errorPositions), AsList(startPath))
    {
      var path := startPath;
      while path.Path?
        invariant IsNulled(Positions(errorPositions), AsList(path)) <==>
                  IsNulled(Positions(errorPositions), AsList(startPath))
        decreases path
      {
        NulledStep(errorPositions, path);
        if path in errorPositions {
          return true;
        }
        path := path.prev;
      }
      NulledStep(errorPositions, NoPath);
      r := NoPath in errorPositions;
    }

    /** `add`: nothing is added where the position or one above it is null already. */
    method Add(error: Error, path: Path)
      modifies this
      ensures if old(IsNulled(Positions(errorPositions), AsList(path)))
              then errorPositions == old(errorPositions) && errors == old(errors)
              else errorPositions == old(errorPositions) + {path} && errors == old(errors) + [error]
    {
      var nulled := HasNulledPosition(path);
      if nulled {
        return;
      }
      errorPositions := errorPositions + {path};
      errors := errors + [error];
    }
  }

  lemma {:induction false} NulledStep(paths: set<Path>, path: Path)
    ensures path.NoPath? ==> (IsNulled(Positions(paths), AsList(path)) <==> path in paths)
    ensures path.Path? ==>
              (IsNulled(Positions(paths), AsList(path)) <==>
                  path in paths || IsNulled(Positions(paths), AsList(path.prev)))
  {
    var here := AsList(path);
    if path in paths {
      assert here in Positions(paths) && here <= here;
    }
    if IsNulled(Positions(paths), here) {
      var q :| q in Positions(paths) && q <= here;
      var p :| p in paths && AsList(p) == q;
      AsListIsInjective(p, path);
      assert path.Path? && |q| < |here| ==> q <= AsList(path.prev);
    }
    if path.Path? && IsNulled(Positions(paths), AsList(path.prev)) {
      var q :| q in Positions(paths) && q <= AsList(path.prev);
      assert q <= here;
    }
  }

  // ---------------------------------------------------------------------------
  // Positions that are clear of the recorded ones
  // ---------------------------------------------------------------------------

  /** No recorded position is at, above or below the given one. */
  ghost predicate IsClear(positions: set<Position>, p: Position) {
    forall q | q in positions :: !(q <= p) && !(p <= q)
  }

  /** Every recorded position is clear of the given one or below it, under one of the keys. */
  ghost predicate ClearButUnder(positions: set<Position>, p: Position, keys: set<Key>) {
    forall q | q in positions :: (!(q <= p) && !(p <= q)) || (p < q && q[|p|] in keys)
  }

  lemma {:induction false} ClearChild(positions: set<Position>, p: Position, keys: set<Key>, k: Key)
    requires ClearButUnder(positions, p, keys) && k !in keys
    ensures IsClear(positions, p + [k])
  {
    forall q | q in positions ensures !(q <= p + [k]) && !(p + [k] <= q) {
      PrefixOfChild(q, p, k);
    }
  }

  lemma {:induction false} PrefixOfChild(q: Position, p: Position, k: Key)
    ensures q <= p + [k] ==> q <= p || (p < q && q[|p|] == k)
    ensures p + [k] <= q ==> p < q && q[|p|] == k
  {
    if p + [k] <= q {
      assert q[|p|] == (p + [k])[|p|];
    }
  }

  /** What a child has recorded is under its key. */
  lemma {:induction false} ClearAfterChild(positions: set<Position>, p: Position, keys: set<Key>, k: Key,
      log: seq<Record>)
    requires ClearButUnder(positions, p, keys) && Within(log, p + [k])
    ensures ClearButUnder(positions + PositionsOf(log), p, keys + {k})
  {
    AtKey(log, p, k);
    WithinChild(log, p, k);
    forall q | q in PositionsOf(log) ensures p < q && q[|p|] == k {
      var i :| 0 <= i < |log| && log[i].position == q;
    }
  }

  /** After everything below it, a position can still be recorded. */
  lemma {:induction false} ClearAfterBelow(positions: set<Position>, p: Position, log: seq<Record>)
    requires IsClear(positions, p) && Below(log, p)
    ensures !IsNulled(positions + PositionsOf(log), p)
  {
    forall q | q in positions + PositionsOf(log) ensures !(q <= p) {
      if q in PositionsOf(log) {
        var i :| 0 <= i < |log| && log[i].position == q;
      }
    }
  }

  lemma {:induction false} ErrorsThen(log: seq<Record>, more: seq<Record>)
    ensures ErrorsOf(log + more) == ErrorsOf(log) + ErrorsOf(more)
    ensures PositionsOf(log + more) == PositionsOf(log) + PositionsOf(more)
  {
    var all := log + more;
    forall p ensures p in PositionsOf(all) <==> p in PositionsOf(log) + PositionsOf(more) {
      if p in PositionsOf(log) {
        var i :| 0 <= i < |log| && log[i].position == p;
        assert all[i].position == p;
      }
      if p in PositionsOf(more) {
        var i :| 0 <= i < |more| && more[i].position == p;
        assert all[|log| + i].position == p;
      }
    }
  }

  // ---------------------------------------------------------------------------
  // Completion
  // ---------------------------------------------------------------------------

  /** What a method returns, or the error that it raises. */
  datatype Outcome<+T> = Returned(value: T) | Failed(error: Error)

  ghost predicate Agrees<T>(r: Outcome<T>, c: Completion<T>) {
    match c
    case Done(value, _) => r == Returned(value)
    case Raised(error, _) => r == Failed(error)
  }

  /** What has been completed, before what is still to be. */
  function Onto<T>(values: seq<T>, log: seq<Record>, c: Completion<seq<T>>): Completion<seq<T>> {
    match c
    case Done(more, l) => Done(values + more, log + l)
    case Raised(error, l) => Raised(error, log + l)
  }

  lemma {:induction false} OntoOnto<T>(xs: seq<T>, a: seq<Record>, ys: seq<T>, b: seq<Record>, c: Completion<seq<T>>)
    ensures Onto(xs, a, Onto(ys, b, c)) == Onto(xs + ys, a + b, c)
  {
    assert a + (b + c.log) == a + b + c.log;
    if c.Done? {
      assert xs + (ys + c.value) == xs + ys + c.value;
    }
  }

  lemma {:induction false} OntoNothing<T>(c: Completion<seq<T>>)
    ensures Onto([], [], c) == c
  {
    assert [] + c.log == c.log;
    if c.Done? {
      assert [] + c.value == c.value;
    }
  }

  lemma {:induction false} OntoEnd<T>(values: seq<T>, log: seq<Record>)
    ensures Onto(values, log, Done([], [])) == Done(values, log)
  {
    assert values + [] == values && log + [] == log;
  }

  lemma {:induction false} ItemsStep(propagate: bool, t: OutputType, items: seq<Answer>, path: Position, index: nat)
    ensures items == [] ==> CompleteItems(propagate, t, items, path, index) == Done([], [])
    ensures items != [] ==>
              var first := CompletePosition(propagate, t, items[0], path + [Index(index)]);
              CompleteItems(propagate, t, items, path, index) ==
              if first.Raised? then Raised(first.error, first.log)
              else Onto([first.value], first.log, CompleteItems(propagate, t, items[1..], path, index + 1))
  {
    hide CompletePosition;
  }

  lemma {:induction false} FieldsStep(propagate: bool, fields: seq<FieldAnswer>, path: Position)
    ensures fields == [] ==> CompleteFields(propagate, fields, path) == Done([], [])
    ensures fields != [] && fields[0].typ.None? ==>
              CompleteFields(propagate, fields, path) == CompleteFields(propagate, fields[1..], path)
    ensures fields != [] && fields[0].typ.Some? ==>
              var first := CompleteField(propagate, fields[0], path);
              CompleteFields(propagate, fields, path) ==
              if first.Raised? then Raised(first.error, first.log)
              else Onto([Entry(fields[0].name, first.value)], first.log, CompleteFields(propagate, fields[1..], path))
  {
    hide CompleteField;
  }

  /** Everything in the log has been added, in its order: nothing was dropped. */
  ghost predicate Logged(positions: set<Position>, errors: seq<Error>, log: seq<Record>, positions': set<Position>,
      errors': seq<Error>) {
    positions' == positions + PositionsOf(log) && errors' == errors + ErrorsOf(log)
  }

  lemma {:induction false} LoggedThen(p: set<Position>, e: seq<Error>, log: seq<Record>, p': set<Position>,
      e': seq<Error>, more: seq<Record>, p'': set<Position>, e'': seq<Error>)
    requires Logged(p, e, log, p', e') && Logged(p', e', more, p'', e'')
    ensures Logged(p, e, log + more, p'', e'')
  {
    ErrorsThen(log, more);
    hide PositionsOf, ErrorsOf;
  }

  lemma {:induction false} LoggedPositions(p: set<Position>, e: seq<Error>, log: seq<Record>, p': set<Position>,
      e': seq<Error>)
    requires Logged(p, e, log, p', e')
    ensures p' == p + PositionsOf(log)
  {
  }

  /** The keys are response names of none of the fields. */
  ghost predicate AreApart(keys: set<Key>, fields: seq<FieldAnswer>) {
    forall k | k in keys :: k.Field? && k.name !in ResponseNames(fields)
  }

  lemma {:induction false} ApartStep(keys: set<Key>, fields: seq<FieldAnswer>)
    requires fields != [] && AreApart(keys, fields) && DistinctFields(fields)
    ensures DistinctInField(fields[0]) && DistinctFields(fields[1..]) && AreApart(keys, fields[1..])
    ensures fields[0].typ.Some? ==>
              Field(fields[0].name) !in keys && AreApart(keys + {Field(fields[0].name)}, fields[1..])
  {
  }

  lemma {:induction false} NoneApart(fields: seq<FieldAnswer>)
    ensures AreApart({}, fields)
  {
  }

  class Executor {
    const errorPropagation: bool
    const collectedErrors: CollectedErrors

    constructor (errorPropagation: bool)
      ensures this.errorPropagation == errorPropagation && fresh(collectedErrors)
      ensures collectedErrors.errorPositions == {} && collectedErrors.errors == []
    {
      this.errorPropagation := errorPropagation;
      collectedErrors := new CollectedErrors();
    }

    ghost function Nulled(): set<Position>
      reads collectedErrors
    {
      Positions(collectedErrors.errorPositions)
    }

    /** `handle_field_error` */
    method HandleFieldError(rawError: Error, returnType: OutputType, path: Path) returns (r: Outcome<Data>)
      requires !IsNulled(Nulled(), AsList(path))
      modifies collectedErrors
      ensures var e := Located(rawError, AsList(path));
              var log := if errorPropagation && returnType.NonNullType? then [] else [Record(AsList(path), e)];
              && Logged(old(Nulled()), old(collectedErrors.errors), log, Nulled(), collectedErrors.errors)
              && r == if log == [] then Failed(e) else Returned(NullData)
    {
      var error := Located(rawError, AsList(path));
      if errorPropagation && returnType.NonNullType? {
        return Failed(error);
      }
      ghost var before := collectedErrors.errorPositions;
      collectedErrors.Add(error, path);
      OneMore(before, path, error);
      r := Returned(NullData);
    }

    /** `complete_value` */
    method CompleteValueOf(t: OutputType, a: Answer, path: Path) returns (r: Outcome<Data>)
      requires DistinctNames(a) && IsClear(Nulled(), AsList(path))
      modifies collectedErrors
      ensures var c := CompleteValue(errorPropagation, t, a, AsList(path));
              && Agrees(r, c)
              && Logged(old(Nulled()), old(collectedErrors.errors), c.log, Nulled(), collectedErrors.errors)
      decreases a, 1, t
    {
      hide IsClear, CompleteItems, CompleteFields, PositionsOf, Positions;
      NothingLogged(Nulled(), collectedErrors.errors);
      if a.Exception? {
        return Failed(Error(FromResolver(a.error), None));
      }
      match t
      case NonNullType(inner) =>
        var completed := CompleteValueOf(inner, a, path);
        r := if completed == Returned(NullData) then Failed(Error(NullForNonNull, None)) else completed;
      case ListType(item) =>
        if a.Null? {
          return Returned(NullData);
        }
        if !a.isIterable {
          return Failed(Error(NotIterable, None));
        }
        var items := CompleteIterableValue(item, a.items, path);
        r := if items.Returned? then Returned(ListData(items.value)) else Failed(items.error);
      case LeafType =>
        r := if a.Null? then Returned(NullData)
             else if a.leaf.None? then Failed(Error(NotCoercible, None))
             else Returned(LeafData(a.leaf.value));
      case CompositeType =>
        if a.Null? {
          return Returned(NullData);
        }
        if !a.hasType {
          return Failed(Error(NoRuntimeType, None));
        }
        var entries := ExecuteFields(a.fields, path);
        r := if entries.Returned? then Returned(ObjectData(entries.value)) else Failed(entries.error);
    }

    /** `complete_list_item_value`, and the same steps in `execute_field`. */
    method CompletePositionOf(t: OutputType, a: Answer, path: Path) returns (r: Outcome<Data>)
      requires DistinctNames(a) && IsClear(Nulled(), AsList(path))
      modifies collectedErrors
      ensures var c := CompletePosition(errorPropagation, t, a, AsList(path));
              && Agrees(r, c)
              && Logged(old(Nulled()), old(collectedErrors.errors), c.log, Nulled(), collectedErrors.errors)
      decreases a, 2, t
    {
      hide CompleteValue, PositionsOf, Positions, DistinctNames, ErrorsOf, Logged;
      ghost var c := CompleteValue(errorPropagation, t, a, AsList(path));
      r := CompleteValueOf(t, a, path);
      if r.Failed? {
        ValueLogsBelow(errorPropagation, t, a, AsList(path));
        ClearAfterBelow(old(Nulled()), AsList(path), c.log);
        LoggedPositions(old(Nulled()), old(collectedErrors.errors), c.log, Nulled(), collectedErrors.errors);
        ghost var before, errors := Nulled(), collectedErrors.errors;
        ghost var e := Located(c.error, AsList(path));
        ghost var more := if errorPropagation && t.NonNullType? then [] else [Record(AsList(path), e)];
        r := HandleFieldError(r.error, t, path);
        LoggedThen(old(Nulled()), old(collectedErrors.errors), c.log, before, errors, more, Nulled(),
            collectedErrors.errors);
        assert c.log + [] == c.log;
      }
    }

    /** `complete_iterable_value` */
    method CompleteIterableValue(t: OutputType, items: seq<Answer>, path: Path) returns (r: Outcome<seq<Data>>)
      requires (forall i | 0 <= i < |items| :: DistinctNames(items[i])) && IsClear(Nulled(), AsList(path))
      modifies collectedErrors
      ensures var c := CompleteItems(errorPropagation, t, items, AsList(path), 0);
              && Agrees(r, c)
              && Logged(old(Nulled()), old(collectedErrors.errors), c.log, Nulled(), collectedErrors.errors)
      decreases items, 0, t
    {
      hide Logged, CompletePosition, CompleteItems, PositionsOf, Positions, DistinctNames, ErrorsOf, ClearButUnder,
          IsClear;
      ghost var p, log := AsList(path), [];
      ghost var all := CompleteItems(errorPropagation, t, items, p, 0);
      var completedResults: seq<Data> := [];
      assert items[0..] == items;
      OntoNothing(all);
      NothingLogged(Nulled(), collectedErrors.errors);
      ClearUnderNothing(Nulled(), p);
      for index := 0 to |items|
        invariant Logged(old(Nulled()), old(collectedErrors.errors), log, Nulled(), collectedErrors.errors)
        invariant ClearButUnder(Nulled(), p, Indices(index))
        invariant all == Onto(completedResults, log, CompleteItems(errorPropagation, t, items[index..], p, index))
      {
        ghost var first := CompletePosition(errorPropagation, t, items[index], p + [Index(index)]);
        assert items[index..][1..] == items[index + 1..];
        ItemsStep(errorPropagation, t, items[index..], p, index);
        ClearChild(Nulled(), p, Indices(index), Index(index));
        ghost var before, errors := Nulled(), collectedErrors.errors;
        var completed := CompletePositionOf(t, items[index], Path(path, Index(index)));
        PositionLogsWithin(errorPropagation, t, items[index], p + [Index(index)]);
        LoggedPositions(before, errors, first.log, Nulled(), collectedErrors.errors);
        ClearAfterChild(before, p, Indices(index), Index(index), first.log);
        NextIndex(index);
        LoggedThen(old(Nulled()), old(collectedErrors.errors), log, before, errors, first.log, Nulled(),
            collectedErrors.errors);
        if completed.Failed? {
          assert all == Raised(first.error, log + first.log);
          return Failed(completed.error);
        }
        OntoOnto(completedResults, log, [first.value], first.log,
                 CompleteItems(errorPropagation, t, items[index + 1..], p, index + 1));
        completedResults := completedResults + [completed.value];
        log := log + first.log;
      }
      ItemsStep(errorPropagation, t, items[|items|..], p, |items|);
      OntoEnd(completedResults, log);
      assert all == Done(completedResults, log);
      r := Returned(completedResults);
    }

    /** `execute_field`, for a field that the type has. */
    method ExecuteField(f: FieldAnswer, path: Path) returns (r: Outcome<Data>)
      requires f.typ.Some? && DistinctInField(f) && IsClear(Nulled(), AsList(path) + [Field(f.name)])
      modifies collectedErrors
      ensures var c := CompleteField(errorPropagation, f, AsList(path));
              && Agrees(r, c)
              && Logged(old(Nulled()), old(collectedErrors.errors), c.log, Nulled(), collectedErrors.errors)
      decreases f, 0
    {
      hide CompletePosition, PositionsOf, Positions, DistinctNames, ErrorsOf, IsClear;
      r := CompletePositionOf(f.typ.value, f.answer, Path(path, Field(f.name)));
    }

    /** `execute_fields` */
    method ExecuteFields(fields: seq<FieldAnswer>, path: Path) returns (r: Outcome<seq<Entry>>)
      requires DistinctFields(fields) && IsClear(Nulled(), AsList(path))
      modifies collectedErrors
      ensures var c := CompleteFields(errorPropagation, fields, AsList(path));
              && Agrees(r, c)
              && Logged(old(Nulled()), old(collectedErrors.errors), c.log, Nulled(), collectedErrors.errors)
      decreases fields, 0
    {
      hide Logged, CompleteField, CompleteFields, PositionsOf, Positions, DistinctInField, ErrorsOf, ClearButUnder,
          IsClear, AreApart, DistinctFields;
      ghost var p, log, keys: set<Key> := AsList(path), [], {};
      ghost var all := CompleteFields(errorPropagation, fields, p);
      NoneApart(fields);
      var results: seq<Entry> := [];
      assert fields[0..] == fields;
      OntoNothing(all);
      NothingLogged(Nulled(), collectedErrors.errors);
      ClearUnderNothing(Nulled(), p);
      for i := 0 to |fields|
        invariant DistinctFields(fields[i..]) && AreApart(keys, fields[i..])
        invariant Logged(old(Nulled()), old(collectedErrors.errors), log, Nulled(), collectedErrors.errors)
        invariant ClearButUnder(Nulled(), p, keys)
        invariant all == Onto(results, log, CompleteFields(errorPropagation, fields[i..], p))
      {
        var f := fields[i];
        assert fields[i..][1..] == fields[i + 1..] && fields[i..][0] == f;
        FieldsStep(errorPropagation, fields[i..], p);
        ApartStep(keys, fields[i..]);
        if f.typ.None? {
          continue;
        }
        ghost var first := CompleteField(errorPropagation, f, p);
        ClearChild(Nulled(), p, keys, Field(f.name));
        ghost var before, errors := Nulled(), collectedErrors.errors;
        var result := ExecuteField(f, path);
        FieldLogsWithin(errorPropagation, f, p);
        LoggedPositions(before, errors, first.log, Nulled(), collectedErrors.errors);
        ClearAfterChild(before, p, keys, Field(f.name), first.log);
        LoggedThen(old(Nulled()), old(collectedErrors.errors), log, before, errors, first.log, Nulled(),
            collectedErrors.errors);
        if result.Failed? {
          assert all == Raised(first.error, log + first.log);
          return Failed(result.error);
        }
        OntoOnto(results, log, [Entry(f.name, first.value)], first.log,
            CompleteFields(errorPropagation, fields[i + 1..], p));
        results := results + [Entry(f.name, result.value)];
        log := log + first.log;
        keys := keys + {Field(f.name)};
      }
      FieldsStep(errorPropagation, fields[|fields|..], p);
      OntoEnd(results, log);
      assert all == Done(results, log);
      r := Returned(results);
    }

    /** `execute_operation` */
    method ExecuteOperation(fields: seq<FieldAnswer>) returns (data: Option<seq<Entry>>)
      requires DistinctFields(fields) && collectedErrors.errorPositions == {} && collectedErrors.errors == []
      modifies collectedErrors
      ensures var r := Execute(errorPropagation, fields);
              data == r.data && collectedErrors.errors == ErrorsOf(r.log) && Nulled() == PositionsOf(r.log)
    {
      hide CompleteFields, DistinctFields, ErrorsOf, PositionsOf;
      assert Nulled() == {};
      ghost var c := CompleteFields(errorPropagation, fields, []);
      var result := ExecuteFields(fields, NoPath);
      if result.Returned? {
        return Some(result.value);
      }
      FieldsLogBelow(errorPropagation, fields, []);
      ClearAfterBelow({}, [], c.log);
      ErrorsThen(c.log, [Record([], c.error)]);
      OneMore(collectedErrors.errorPositions, NoPath, c.error);
      collectedErrors.Add(result.error, NoPath);
      data := None;
    }
  }

  lemma {:induction false} OneMore(before: set<Path>, path: Path, error: Error)
    ensures var r := Record(AsList(path), error);
            Positions(before + {path}) == Positions(before) + PositionsOf([r]) && ErrorsOf([r]) == [error]
  {
    var r := Record(AsList(path), error);
    assert [r][0].position == AsList(path);
    assert PositionsOf([r]) == {AsList(path)};
    assert path in before + {path};
  }

  lemma {:induction false} NothingLogged(positions: set<Position>, errors: seq<Error>)
    ensures Logged(positions, errors, [], positions, errors)
  {
  }

  lemma {:induction false} ClearUnderNothing(positions: set<Position>, p: Position)
    requires IsClear(positions, p)
    ensures ClearButUnder(positions, p, {}) && Indices(0) == {}
  {
  }

  function Indices(n: nat): (r: set<Key>)
    ensures Index(n) !in r
  {
    set i | 0 <= i < n :: Index(i)
  }

  lemma {:induction false} NextIndex(n: nat)
    ensures Indices(n) + {Index(n)} == Indices(n + 1)
  {
  }
}
