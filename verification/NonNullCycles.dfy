/** `InputObjectNonNullCircularRefsValidator` */
module NonNullCycles {
  import opened TypeRefs
  import opened InputObjects
  import Graphs

  /** A field of the path, with the type that it leads to. */
  datatype Step = Step(owner: Name, field: Name, target: Name)

  datatype CycleError = CycleError(typ: Name, path: seq<Step>)

  /** A field that can never be left out leads from one input object type to another. */
  predicate Leads(schema: Schema, f: Field) {
    f.typ.NonNull? && f.typ.inner.Named? && f.typ.inner.name in schema
  }

  function StepOf(owner: Name, f: Field): Step
    requires f.typ.NonNull? && f.typ.inner.Named?
  {
    Step(owner, f.name, f.typ.inner.name)
  }

  predicate IsStep(schema: Schema, s: Step) {
    s.owner in schema &&
    exists i :: 0 <= i < |schema[s.owner].fields| && LeadsBy(schema, s, i)
  }

  predicate LeadsBy(schema: Schema, s: Step, i: nat)
    requires s.owner in schema && i < |schema[s.owner].fields|
  {
    var f := schema[s.owner].fields[i];
    Leads(schema, f) && s == StepOf(s.owner, f)
  }

  predicate IsWalk(schema: Schema, path: seq<Step>) {
    && (forall i | 0 <= i < |path| :: IsStep(schema, path[i]))
    && (forall i | 0 < i < |path| :: path[i].owner == path[i - 1].target)
  }

  /** A walk that starts and ends at the type. */
  predicate IsCycle(schema: Schema, typ: Name, path: seq<Step>) {
    && path != [] && IsWalk(schema, path)
    && path[0].owner == typ && path[|path| - 1].target == typ
  }

  /** No type is left twice. */
  predicate IsSimple(path: seq<Step>) {
    forall i, j | 0 <= i < j < |path| :: path[i].owner != path[j].owner
  }

  function Closing(e: CycleError): Step
    requires e.path != []
  {
    e.path[|e.path| - 1]
  }

  /** The step with which some reported cycle closes. */
  predicate Closes(errors: seq<CycleError>, s: Step) {
    exists i :: 0 <= i < |errors| && errors[i].path != [] && s == Closing(errors[i])
  }

  predicate AllCycles(schema: Schema, errors: seq<CycleError>) {
    forall i | 0 <= i < |errors| :: IsCycle(schema, errors[i].typ, errors[i].path) && IsSimple(errors[i].path)
  }

  /** Every step out of the type closes a reported cycle or leads to one of the finished types. */
  ghost predicate Settled(schema: Schema, errors: seq<CycleError>, owner: Name, finished: seq<Name>) {
    forall s: Step | s.owner == owner && IsStep(schema, s) :: Closes(errors, s) || s.target in finished
  }

  /** The types in the order in which their search has finished. */
  ghost predicate InOrder(schema: Schema, errors: seq<CycleError>, finished: seq<Name>) {
    forall i | 0 <= i < |finished| :: Settled(schema, errors, finished[i], finished[..i])
  }

  /** Types are only ever marked and finished, and errors only added. */
  ghost predicate Grows(visited: set<Name>, errors: seq<CycleError>, finished: seq<Name>, visited': set<Name>,
      errors': seq<CycleError>, finished': seq<Name>)
  {
    visited <= visited' && errors <= errors' && finished <= finished'
  }

  lemma {:induction false} ClosesMore(errors: seq<CycleError>, more: seq<CycleError>, s: Step)
    requires errors <= more && Closes(errors, s)
    ensures Closes(more, s)
  {
    var i :| 0 <= i < |errors| && errors[i].path != [] && s == Closing(errors[i]);
    assert more[i] == errors[i];
  }

  lemma {:induction false} InOrderMore(schema: Schema, errors: seq<CycleError>, more: seq<CycleError>,
      finished: seq<Name>)
    requires errors <= more && InOrder(schema, errors, finished)
    ensures InOrder(schema, more, finished)
  {
    hide Closes, IsStep;
    forall i | 0 <= i < |finished| ensures Settled(schema, more, finished[i], finished[..i]) {
      assert Settled(schema, errors, finished[i], finished[..i]);
      forall s: Step | s.owner == finished[i] && IsStep(schema, s)
        ensures Closes(more, s) || s.target in finished[..i]
      {
        if Closes(errors, s) {
          ClosesMore(errors, more, s);
        }
      }
    }
  }

  /** The fields up to one of them each close a cycle or lead to a finished type. */
  ghost predicate FieldsSettled(schema: Schema, errors: seq<CycleError>, owner: Name, k: nat, finished: seq<Name>)
    requires owner in schema && k <= |schema[owner].fields|
  {
    forall i | 0 <= i < k && Leads(schema, schema[owner].fields[i]) ::
      var s := StepOf(owner, schema[owner].fields[i]); Closes(errors, s) || s.target in finished
  }

  lemma {:induction false} NoFieldsSettled(schema: Schema, errors: seq<CycleError>, owner: Name, finished: seq<Name>)
    requires owner in schema
    ensures FieldsSettled(schema, errors, owner, 0, finished)
  {
  }

  lemma {:induction false} FieldsSettledMore(schema: Schema, errors: seq<CycleError>, more: seq<CycleError>,
      owner: Name, k: nat, finished: seq<Name>, longer: seq<Name>)
    requires owner in schema && k < |schema[owner].fields| && errors <= more && finished <= longer
    requires FieldsSettled(schema, errors, owner, k, finished)
    requires var f := schema[owner].fields[k];
             Leads(schema, f) ==> Closes(more, StepOf(owner, f)) || f.typ.inner.name in longer
    ensures FieldsSettled(schema, more, owner, k + 1, longer)
  {
    hide Closes;
    forall i | 0 <= i < k && Leads(schema, schema[owner].fields[i])
      ensures var s := StepOf(owner, schema[owner].fields[i]); Closes(more, s) || s.target in longer
    {
      var s := StepOf(owner, schema[owner].fields[i]);
      if Closes(errors, s) {
        ClosesMore(errors, more, s);
      }
    }
  }

  lemma {:induction false} Finishes(schema: Schema, errors: seq<CycleError>, finished: seq<Name>, owner: Name)
    requires InOrder(schema, errors, finished) && owner in schema
    requires FieldsSettled(schema, errors, owner, |schema[owner].fields|, finished)
    ensures InOrder(schema, errors, finished + [owner])
  {
    hide Closes;
    var longer := finished + [owner];
    forall i | 0 <= i < |longer| ensures Settled(schema, errors, longer[i], longer[..i]) {
      if i < |finished| {
        assert longer[..i] == finished[..i];
        assert Settled(schema, errors, finished[i], finished[..i]);
      } else {
        assert longer[..i] == finished;
      }
    }
  }

  /** The path is a walk, and the index says where in it each of its types is left. */
  ghost predicate Indexed(schema: Schema, path: seq<Step>, index: map<Name, nat>) {
    && IsWalk(schema, path)
    && forall i | 0 <= i < |path| :: path[i].owner in index && index[path[i].owner] == i
  }

  /** The type is the one that the path leads to. */
  ghost predicate Arrives(path: seq<Step>, name: Name) {
    path == [] || path[|path| - 1].target == name
  }

  /** Every type of the index is left by a step of the path. */
  ghost predicate AllLeft(path: seq<Step>, index: map<Name, nat>) {
    forall t | t in index :: index[t] < |path| && path[index[t]].owner == t
  }

  /** The visited types are the finished ones and those on the path. */
  ghost predicate Colored(schema: Schema, visited: set<Name>, current: set<Name>, finished: seq<Name>) {
    && visited <= schema.Keys
    && (forall t | t in visited :: t in finished || t in current)
    && (forall t | t in finished :: t in visited)
    && (forall t | t in current :: t in visited && t !in finished)
  }

  lemma {:induction false} ColoredEnter(schema: Schema, visited: set<Name>, current: set<Name>, finished: seq<Name>,
      name: Name)
    requires Colored(schema, visited, current, finished) && name in schema && name !in current
    ensures name in visited ==> name in finished
    ensures name !in visited ==> Colored(schema, visited + {name}, current + {name}, finished)
  {
  }

  lemma {:induction false} ColoredLeave(schema: Schema, visited: set<Name>, current: set<Name>, finished: seq<Name>,
      name: Name)
    requires Colored(schema, visited, current, finished) && name in current
    ensures visited <= schema.Keys && name in visited
    ensures Colored(schema, visited, current - {name}, finished + [name])
  {
  }

  /** The path is taken one step on, from the type that was entered last. */
  lemma {:induction false} StepOn(schema: Schema, path: seq<Step>, index: map<Name, nat>, s: Step)
    requires Indexed(schema, path, index) && AllLeft(path, index - {s.owner})
    requires s.owner in index && index[s.owner] == |path| && IsStep(schema, s)
    requires Arrives(path, s.owner)
    ensures Indexed(schema, path + [s], index) && AllLeft(path + [s], index) && Arrives(path + [s], s.target)
  {
    hide IsStep;
    var longer := path + [s];
    forall t | t in index ensures index[t] < |longer| && longer[index[t]].owner == t {
      if t != s.owner {
        assert t in index - {s.owner} && (index - {s.owner})[t] == index[t];
      }
    }
  }

  /** A step to a type on the path closes a cycle. */
  lemma {:induction false} StepCloses(schema: Schema, path: seq<Step>, index: map<Name, nat>, s: Step)
    requires Indexed(schema, path, index) && AllLeft(path, index)
    requires path != [] && path[|path| - 1] == s && s.target in index
    ensures index[s.target] < |path|
    ensures var cycle := path[index[s.target]..];
            IsCycle(schema, s.target, cycle) && IsSimple(cycle) && cycle[|cycle| - 1] == s
  {
    hide IsStep;
    var i := index[s.target];
    var cycle := path[i..];
    forall k | 0 < k < |cycle| ensures cycle[k].owner == cycle[k - 1].target {
      assert cycle[k] == path[i + k] && cycle[k - 1] == path[i + k - 1];
    }
    forall k | 0 <= k < |cycle| ensures IsStep(schema, cycle[k]) && index[cycle[k].owner] == i + k {
      assert cycle[k] == path[i + k];
    }
  }

  lemma {:induction false} Reported(schema: Schema, errors: seq<CycleError>, e: CycleError, finished: seq<Name>)
    requires AllCycles(schema, errors) && InOrder(schema, errors, finished)
    requires IsCycle(schema, e.typ, e.path) && IsSimple(e.path)
    ensures var more := errors + [e];
            AllCycles(schema, more) && InOrder(schema, more, finished) && Closes(more, Closing(e))
  {
    hide InOrder, IsCycle, IsSimple;
    var more := errors + [e];
    InOrderMore(schema, errors, more, finished);
    assert more[|errors|].path == e.path;
    CycleHasSteps(schema, e);
    assert Closing(more[|errors|]) == Closing(e);
  }

  lemma {:induction false} FieldIsStep(schema: Schema, owner: Name, k: nat)
    requires owner in schema && k < |schema[owner].fields| && Leads(schema, schema[owner].fields[k])
    ensures IsStep(schema, StepOf(owner, schema[owner].fields[k]))
  {
    assert LeadsBy(schema, StepOf(owner, schema[owner].fields[k]), k);
  }

  lemma {:induction false} CycleHasSteps(schema: Schema, e: CycleError)
    requires IsCycle(schema, e.typ, e.path)
    ensures e.path != []
  {
  }

  lemma {:induction false} Enters(schema: Schema, path: seq<Step>, index: map<Name, nat>, name: Name)
    requires Indexed(schema, path, index) && AllLeft(path, index) && name !in index
    ensures Indexed(schema, path, index[name := |path|]) && AllLeft(path, index[name := |path|] - {name})
    ensures index[name := |path|] - {name} == index
    ensures index[name := |path|].Keys == index.Keys + {name} && index[name := |path|].Keys - {name} == index.Keys
  {
    hide IsWalk;
    assert index[name := |path|] - {name} == index;
  }

  /** The state of the search, in one predicate. */
  ghost predicate Consistent(schema: Schema, visited: set<Name>, path: seq<Step>, index: map<Name, nat>,
      errors: seq<CycleError>, finished: seq<Name>)
  {
    && Indexed(schema, path, index) && Colored(schema, visited, index.Keys, finished)
    && AllCycles(schema, errors) && InOrder(schema, errors, finished)
  }

  /** A type that has not been visited is entered. */
  lemma {:induction false} TypeEnters(schema: Schema, visited: set<Name>, path: seq<Step>, index: map<Name, nat>,
      index': map<Name, nat>, errors: seq<CycleError>, finished: seq<Name>, name: Name)
    requires Consistent(schema, visited, path, index, errors, finished) && AllLeft(path, index)
    requires name in schema && name !in index && name !in visited && index' == index[name := |path|]
    ensures Indexed(schema, path, index)
    ensures Consistent(schema, visited + {name}, path, index', errors, finished) && AllLeft(path, index' - {name})
    ensures |schema.Keys - (visited + {name})| < |schema.Keys - visited|
  {
    hide Indexed, AllLeft, Colored, AllCycles, InOrder;
    ColoredEnter(schema, visited, index.Keys, finished, name);
    Enters(schema, path, index, name);
    Graphs.FewerLeft(schema.Keys, visited, visited + {name}, name);
  }

  /** A type whose fields are settled is left and finished. */
  lemma {:induction false} TypeLeaves(schema: Schema, visited: set<Name>, path: seq<Step>, index: map<Name, nat>,
      index': map<Name, nat>, errors: seq<CycleError>, finished: seq<Name>, name: Name)
    requires Indexed(schema, path, index) && name !in index && index' == index[name := |path|]
    requires Consistent(schema, visited, path, index', errors, finished) && name in schema
    requires FieldsSettled(schema, errors, name, |schema[name].fields|, finished)
    ensures index' - {name} == index && Consistent(schema, visited, path, index, errors, finished + [name])
  {
    hide Indexed, Colored, AllCycles, InOrder, FieldsSettled;
    Finishes(schema, errors, finished, name);
    ColoredLeave(schema, visited, index'.Keys, finished, name);
    assert index' - {name} == index;
    assert index'.Keys - {name} == index.Keys;
  }

  /** What has been visited without being on the path is finished. */
  lemma {:induction false} VisitedIsFinished(schema: Schema, visited: set<Name>, path: seq<Step>,
      index: map<Name, nat>, errors: seq<CycleError>, finished: seq<Name>, name: Name)
    requires Consistent(schema, visited, path, index, errors, finished) && name in visited && name !in index
    ensures name in finished
  {
  }

  // ---------------------------------------------------------------------------
  // The search
  // ---------------------------------------------------------------------------

  class Validator {
    const schema: Schema
    var visitedTypes: set<Name>
    var fieldPath: seq<Step>
    var fieldPathIndexByTypeName: map<Name, nat>
    var errors: seq<CycleError>
    /** The types whose search is over. */
    ghost var finished: seq<Name>

    ghost predicate Valid()
      reads this
    {
      Consistent(schema, visitedTypes, fieldPath, fieldPathIndexByTypeName, errors, finished)
    }

    /** Between two types: every type on the path is left by one of its steps. */
    ghost predicate Ready()
      reads this
    {
      Valid() && AllLeft(fieldPath, fieldPathIndexByTypeName)
    }

    constructor (schema: Schema)
      ensures Ready() && this.schema == schema && fieldPath == [] && fieldPathIndexByTypeName == map[]
      ensures errors == [] && visitedTypes == {}
    {
      this.schema := schema;
      visitedTypes, fieldPath, fieldPathIndexByTypeName, errors, finished := {}, [], map[], [], [];
    }

    /** `__call__` */
    method Visit(name: Name)
      requires name in schema && Ready() && Arrives(fieldPath, name)
      requires name !in fieldPathIndexByTypeName
      modifies this
      ensures Ready() && name in finished
      ensures fieldPath == old(fieldPath) && fieldPathIndexByTypeName == old(fieldPathIndexByTypeName)
      ensures Grows(old(visitedTypes), old(errors), old(finished), visitedTypes, errors, finished)
      decreases |schema.Keys - visitedTypes|, 0
    {
      hide Consistent, Indexed, AllLeft, FieldsSettled, Arrives;
      ghost var i := fieldPathIndexByTypeName;
      if name in visitedTypes {
        VisitedIsFinished(schema, visitedTypes, fieldPath, i, errors, finished, name);
        return;
      }
      ghost var i' := i[name := |fieldPath|];
      TypeEnters(schema, visitedTypes, fieldPath, i, i', errors, finished, name);
      visitedTypes := visitedTypes + {name};
      fieldPathIndexByTypeName := fieldPathIndexByTypeName[name := |fieldPath|];
      VisitFields(name);
      TypeLeaves(schema, visitedTypes, fieldPath, i, i', errors, finished, name);
      finished := finished + [name];
      fieldPathIndexByTypeName := fieldPathIndexByTypeName - {name};
    }

    /** The loop over the fields of a type. */
    method VisitFields(name: Name)
      requires Valid() && name in schema
      requires name in fieldPathIndexByTypeName && fieldPathIndexByTypeName[name] == |fieldPath|
      requires AllLeft(fieldPath, fieldPathIndexByTypeName - {name})
      requires Arrives(fieldPath, name)
      modifies this
      ensures Valid() && fieldPath == old(fieldPath) && fieldPathIndexByTypeName == old(fieldPathIndexByTypeName)
      ensures Grows(old(visitedTypes), old(errors), old(finished), visitedTypes, errors, finished)
      ensures FieldsSettled(schema, errors, name, |schema[name].fields|, finished)
      decreases |schema.Keys - visitedTypes|, 2
    {
      hide Consistent, AllLeft, FieldsSettled, Arrives;
      NoFieldsSettled(schema, errors, name, finished);
      for k := 0 to |schema[name].fields|
        invariant Valid() && fieldPath == old(fieldPath) && fieldPathIndexByTypeName == old(fieldPathIndexByTypeName)
        invariant Grows(old(visitedTypes), old(errors), old(finished), visitedTypes, errors, finished)
        invariant FieldsSettled(schema, errors, name, k, finished)
      {
        Graphs.StillLeft(schema.Keys, old(visitedTypes), visitedTypes);
        ghost var e, f := errors, finished;
        VisitField(name, k);
        FieldsSettledMore(schema, e, errors, name, k, f, finished);
      }
    }

    /** One round of the loop over the fields of a type. */
    method VisitField(name: Name, k: nat)
      requires Valid() && name in schema && k < |schema[name].fields|
      requires name in fieldPathIndexByTypeName && fieldPathIndexByTypeName[name] == |fieldPath|
      requires AllLeft(fieldPath, fieldPathIndexByTypeName - {name})
      requires Arrives(fieldPath, name)
      modifies this
      ensures Valid() && fieldPath == old(fieldPath) && fieldPathIndexByTypeName == old(fieldPathIndexByTypeName)
      ensures Grows(old(visitedTypes), old(errors), old(finished), visitedTypes, errors, finished)
      ensures var f := schema[name].fields[k];
              Leads(schema, f) ==> Closes(errors, StepOf(name, f)) || f.typ.inner.name in finished
      decreases |schema.Keys - visitedTypes|, 1
    {
      hide InOrder, AllCycles, Indexed, AllLeft, Arrives, IsStep, IsCycle, IsSimple, Closes, Colored;
      var f := schema[name].fields[k];
      if Leads(schema, f) {
        var fieldType := f.typ.inner.name;
        var step := StepOf(name, f);
        FieldIsStep(schema, name, k);
        StepOn(schema, fieldPath, fieldPathIndexByTypeName, step);
        fieldPath := fieldPath + [step];
        if fieldType !in fieldPathIndexByTypeName {
          Visit(fieldType);
        } else {
          var cycleIndex := fieldPathIndexByTypeName[fieldType];
          StepCloses(schema, fieldPath, fieldPathIndexByTypeName, step);
          Reported(schema, errors, CycleError(fieldType, fieldPath[cycleIndex..]), finished);
          errors := errors + [CycleError(fieldType, fieldPath[cycleIndex..])];
        }
        fieldPath := fieldPath[..|fieldPath| - 1];
        assert fieldPath == old(fieldPath);
      }
    }
  }

  // ---------------------------------------------------------------------------
  // Which cycles are reported
  // ---------------------------------------------------------------------------

  /** Every type has been searched, and what is reported are cycles. */
  ghost predicate Searched(schema: Schema, errors: seq<CycleError>, finished: seq<Name>) {
    AllCycles(schema, errors) && InOrder(schema, errors, finished) && forall t | t in schema :: t in finished
  }

  /** A walk that avoids the closing steps only leads to types that finished before. */
  lemma {:induction false} WalkGoesBack(schema: Schema, errors: seq<CycleError>, finished: seq<Name>,
      path: seq<Step>, i: nat)
    returns (j: nat)
    requires InOrder(schema, errors, finished) && IsWalk(schema, path) && path != []
    requires forall k | 0 <= k < |path| :: !Closes(errors, path[k])
    requires i < |finished| && finished[i] == path[0].owner
    ensures j < i && finished[j] == path[|path| - 1].target
    decreases |path|
  {
    assert Settled(schema, errors, finished[i], finished[..i]);
    assert path[0].target in finished[..i];
    j :| 0 <= j < i && finished[..i][j] == path[0].target;
    if |path| > 1 {
      j := WalkGoesBack(schema, errors, finished, path[1..], j);
    }
  }

  /** Every cycle of non-null fields takes a step with which some reported cycle closes. */
  lemma {:induction false} EveryCycleIsReported(schema: Schema, errors: seq<CycleError>, finished: seq<Name>,
      typ: Name, path: seq<Step>)
    requires Searched(schema, errors, finished) && IsCycle(schema, typ, path)
    ensures exists k :: 0 <= k < |path| && Closes(errors, path[k])
  {
    assert IsStep(schema, path[0]);
    if forall k | 0 <= k < |path| :: !Closes(errors, path[k]) {
      NoLeastCycle(schema, errors, finished, typ, path, |finished|);
    }
  }

  lemma {:induction false} NoLeastCycle(schema: Schema, errors: seq<CycleError>, finished: seq<Name>, typ: Name,
      path: seq<Step>, n: nat)
    requires InOrder(schema, errors, finished) && IsCycle(schema, typ, path)
    requires forall k | 0 <= k < |path| :: !Closes(errors, path[k])
    requires n <= |finished| && typ in finished[..n]
    ensures false
    decreases n
  {
    var i :| 0 <= i < n && finished[..n][i] == typ;
    var j := WalkGoesBack(schema, errors, finished, path, i);
    assert finished[..i][j] == typ;
    NoLeastCycle(schema, errors, finished, typ, path, i);
  }

  /** Nothing is reported exactly when there is no cycle. */
  lemma {:induction false} ReportsIffCyclic(schema: Schema, errors: seq<CycleError>, finished: seq<Name>)
    requires Searched(schema, errors, finished)
    ensures errors == [] <==> forall typ, path :: !IsCycle(schema, typ, path)
  {
    if errors == [] {
      forall typ, path | IsCycle(schema, typ, path) ensures false {
        EveryCycleIsReported(schema, errors, finished, typ, path);
      }
    } else {
      assert IsCycle(schema, errors[0].typ, errors[0].path);
    }
  }

  /** The validator, called for every input object type in turn. */
  method ValidateNonNullCycles(schema: Schema, names: seq<Name>) returns (errors: seq<CycleError>)
    requires forall t :: t in names <==> t in schema
    ensures errors == [] <==> forall typ, path :: !IsCycle(schema, typ, path)
    ensures AllCycles(schema, errors)
    ensures forall typ, path :: IsCycle(schema, typ, path) ==> exists k :: 0 <= k < |path| && Closes(errors, path[k])
  {
    var validator := new Validator(schema);
    for i := 0 to |names|
      invariant validator.Ready() && validator.schema == schema && fresh(validator)
      invariant validator.fieldPath == [] && validator.fieldPathIndexByTypeName == map[]
      invariant forall k | 0 <= k < i :: names[k] in validator.finished
    {
      validator.Visit(names[i]);
    }
    errors := validator.errors;
    ghost var finished := validator.finished;
    ReportsIffCyclic(schema, errors, finished);
    forall typ, path | IsCycle(schema, typ, path) ensures exists k :: 0 <= k < |path| && Closes(errors, path[k]) {
      EveryCycleIsReported(schema, errors, finished, typ, path);
    }
  }
}
