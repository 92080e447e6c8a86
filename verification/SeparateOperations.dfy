/**
 `separate_operations`: one document for each operation, with exactly the fragments that
 it depends on, which execution cannot tell from the whole document.
 */
module SeparateOperations {
  import opened Options
  import opened Selections
  import opened CollectFields
  import opened CollectFieldsProperties
  import opened FieldCollector
  import opened Graphs

  datatype Definition =
    | Operation(name: Option<Name>, selections: seq<Selection>)
    | FragmentDefinition(key: Name, fragment: Fragment)

  type Document = seq<Definition>

  /** The names of a fragment and of the fragments that it spreads. */
  type DepGraph = Graph<Name>

  /** `collect_dependencies`: every fragment spread, included or not, at any depth. */
  function Dependencies(selections: seq<Selection>): seq<Name>
    decreases selections, 0
  {
    if selections == [] then [] else DependenciesOf(selections[0]) + Dependencies(selections[1..])
  }

  function DependenciesOf(s: Selection): seq<Name>
    decreases s, 1
  {
    match s
    case Field(_, _, _, _, _, selections) => Dependencies(selections)
    case InlineFragment(_, _, _, _, body) => Dependencies(body)
    case Spread(name, _, _, _) => [name]
  }

  // ---------------------------------------------------------------------------
  // Transitive dependencies
  // ---------------------------------------------------------------------------

  /** `collect_transitive_dependencies`: what is new depends on the name, and leads nowhere new. */
  method CollectTransitiveDependencies(collected: set<Name>, graph: DepGraph, from: Name) returns (r: set<Name>)
    ensures collected + {from} <= r
    ensures forall n | n in r && n !in collected :: LeadsTo(graph, from, n)
    ensures IsClosed(graph, r - collected, r)
    decreases |graph.Keys - collected|
  {
    hide LeadsTo;
    r := collected;
    if from !in collected {
      r := r + {from};
      LeadsToItself(graph, from);
      if from in graph {
        var deps := graph[from];
        for i := 0 to |deps|
          invariant collected + {from} <= r
          invariant forall n | n in r && n !in collected :: LeadsTo(graph, from, n)
          invariant IsClosed(graph, r - collected - {from}, r)
          invariant forall k | 0 <= k < i :: deps[k] in r
        {
          SubsetSize(graph.Keys - r, graph.Keys - collected);
          ghost var before := r;
          r := CollectTransitiveDependencies(r, graph, deps[i]);
          forall n | n in r && n !in collected ensures LeadsTo(graph, from, n) {
            if n !in before {
              StepAndOn(graph, from, i, n);
            }
          }
          ClosedTogether(graph, before - collected - {from}, before, r - before, r, r - collected - {from});
        }
      }
    }
  }

  /** The name is, or is led to from, one of the first `k` roots. */
  ghost predicate DependsOnSome(graph: DepGraph, roots: seq<Name>, k: nat, n: Name) {
    exists i :: 0 <= i < k && i < |roots| && LeadsTo(graph, roots[i], n)
  }

  /** All that the roots depend on, in one or more steps. */
  method TransitiveDependencies(graph: DepGraph, roots: seq<Name>) returns (r: set<Name>)
    ensures forall n :: n in r <==> DependsOnSome(graph, roots, |roots|, n)
    ensures IsClosed(graph, r, r)
  {
    hide LeadsTo, IsClosed, DependsOnSome;
    NothingIsClosed(graph);
    r := {};
    for i := 0 to |roots|
      invariant forall n | n in r :: DependsOnSome(graph, roots, i, n)
      invariant forall k | 0 <= k < i :: roots[k] in r
      invariant IsClosed(graph, r, r)
    {
      ghost var before := r;
      r := CollectTransitiveDependencies(r, graph, roots[i]);
      forall n | n in r ensures DependsOnSome(graph, roots, i + 1, n) {
        OneMoreRoot(graph, roots, i, n);
      }
      ClosedTogether(graph, before, before, r - before, r, r);
    }
    forall n | DependsOnSome(graph, roots, |roots|, n) ensures n in r {
      RootsStay(graph, r, roots, n);
    }
  }

  lemma {:induction false} OneMoreRoot(graph: DepGraph, roots: seq<Name>, i: nat, n: Name)
    requires i < |roots|
    ensures DependsOnSome(graph, roots, i, n) || LeadsTo(graph, roots[i], n) ==> DependsOnSome(graph, roots, i + 1, n)
  {
    hide LeadsTo;
  }

  lemma {:induction false} RootsStay(graph: DepGraph, names: set<Name>, roots: seq<Name>, n: Name)
    requires IsClosed(graph, names, names) && (forall k | 0 <= k < |roots| :: roots[k] in names)
    requires DependsOnSome(graph, roots, |roots|, n)
    ensures n in names
  {
    var k :| 0 <= k < |roots| && LeadsTo(graph, roots[k], n);
    hide IsClosed;
    StaysInside(graph, names, roots[k], n);
  }

  // ---------------------------------------------------------------------------
  // Separation
  // ---------------------------------------------------------------------------

  /** The dependency graph of a document; of fragments with one name, the last counts. */
  function GraphOf(doc: Document): DepGraph {
    if doc == [] then map[]
    else
      var last := doc[|doc| - 1];
      var before := GraphOf(doc[..|doc| - 1]);
      if last.FragmentDefinition? then before[last.key := Dependencies(last.fragment.body)] else before
  }

  /** The fragments of a document by name, as execution looks them up. */
  function FragmentsOf(doc: Document): map<Name, Fragment> {
    if doc == [] then map[]
    else
      var last := doc[|doc| - 1];
      var before := FragmentsOf(doc[..|doc| - 1]);
      if last.FragmentDefinition? then before[last.key := last.fragment] else before
  }

  /** The operation at a place, and the fragments with the given names, in document order. */
  function Keep(doc: Document, place: nat, names: set<Name>): Document {
    if doc == [] then []
    else
      var n := |doc| - 1;
      var kept := n == place || (doc[n].FragmentDefinition? && doc[n].key in names);
      Keep(doc[..n], place, names) + if kept then [doc[n]] else []
  }

  /** The fragment is one that the selection set depends on. */
  ghost predicate IsNeeded(graph: DepGraph, selections: seq<Selection>, n: Name) {
    DependsOnSome(graph, Dependencies(selections), |Dependencies(selections)|, n)
  }

  /** The document for an operation: it and all the fragments it needs, in their order. */
  ghost predicate IsSeparated(doc: Document, place: nat, separated: Document, names: set<Name>) {
    && place < |doc| && doc[place].Operation?
    && separated == Keep(doc, place, names)
    && forall n :: n in names <==> IsNeeded(GraphOf(doc), doc[place].selections, n)
  }

  /** The last operation with a name up to a place. */
  ghost predicate IsLastNamed(doc: Document, upTo: nat, place: nat, name: Option<Name>) {
    && place < upTo <= |doc| && doc[place].Operation? && doc[place].name == name
    && forall k | place < k < upTo && doc[k].Operation? :: doc[k].name != name
  }

  /** `separate_operations`; no name stands for the empty string. */
  method Separate(doc: Document) returns (r: map<Option<Name>, Document>)
    ensures forall name | name in r :: exists place: nat, names ::
              IsLastNamed(doc, |doc|, place, name) && IsSeparated(doc, place, r[name], names)
    ensures forall k | 0 <= k < |doc| && doc[k].Operation? :: doc[k].name in r
  {
    hide DependsOnSome, GraphOf, Keep, IsClosed;
    var graph: DepGraph := map[];
    GraphOfNothing(doc);
    for i := 0 to |doc|
      invariant graph == GraphOf(doc[..i])
    {
      GraphSnoc(doc, i);
      if doc[i].FragmentDefinition? {
        graph := graph[doc[i].key := Dependencies(doc[i].fragment.body)];
      }
    }
    assert doc[..|doc|] == doc;
    r := map[];
    for i := 0 to |doc|
      invariant forall name | name in r :: exists place: nat, names ::
                  IsLastNamed(doc, i, place, name) && IsSeparated(doc, place, r[name], names)
      invariant forall k | 0 <= k < i && doc[k].Operation? :: doc[k].name in r
    {
      ghost var before := r;
      if doc[i].Operation? {
        var dependencies := TransitiveDependencies(graph, Dependencies(doc[i].selections));
        r := r[doc[i].name := Keep(doc, i, dependencies)];
        assert IsLastNamed(doc, i + 1, i, doc[i].name);
        assert IsSeparated(doc, i, r[doc[i].name], dependencies);
      }
      forall name | name in r && (doc[i].Operation? ==> name != doc[i].name)
        ensures exists place: nat, names ::
                  IsLastNamed(doc, i + 1, place, name) && IsSeparated(doc, place, r[name], names)
      {
        var place: nat, names :| IsLastNamed(doc, i, place, name) && IsSeparated(doc, place, before[name], names);
        assert IsLastNamed(doc, i + 1, place, name);
      }
    }
  }

  lemma {:induction false} GraphOfNothing(doc: Document)
    ensures GraphOf(doc[..0]) == map[]
  {
  }

  lemma {:induction false} GraphSnoc(doc: Document, i: nat)
    requires i < |doc|
    ensures GraphOf(doc[..i + 1]) ==
            if doc[i].FragmentDefinition? then GraphOf(doc[..i])[doc[i].key := Dependencies(doc[i].fragment.body)]
            else GraphOf(doc[..i])
  {
    assert doc[..i + 1][..i] == doc[..i];
    hide Dependencies;
  }

  // ---------------------------------------------------------------------------
  // Execution cannot tell a separated document from the whole one
  // ---------------------------------------------------------------------------

  /** The fragments are the same as far as the names go, and spread only fragments of these names. */
  ghost predicate AgreeOn(ctx: Context, ctx': Context, names: set<Name>) {
    && ctx' == ctx.(fragments := ctx'.fragments)
    && forall n | n in names ::
         && (n in ctx.fragments <==> n in ctx'.fragments)
         && (n in ctx.fragments ==>
               ctx.fragments[n] == ctx'.fragments[n] && AllIn(Dependencies(ctx.fragments[n].body), names))
  }

  predicate AllIn(xs: seq<Name>, names: set<Name>) {
    forall i | 0 <= i < |xs| :: xs[i] in names
  }

  lemma {:induction false} AllInParts(xs: seq<Name>, ys: seq<Name>, names: set<Name>)
    requires AllIn(xs + ys, names)
    ensures AllIn(xs, names) && AllIn(ys, names)
  {
    forall i | 0 <= i < |xs| ensures xs[i] in names {
      assert (xs + ys)[i] == xs[i];
    }
    forall i | 0 <= i < |ys| ensures ys[i] in names {
      assert (xs + ys)[|xs| + i] == ys[i];
    }
  }

  lemma {:induction false} DependenciesStep(selections: seq<Selection>, names: set<Name>)
    requires selections != [] && AllIn(Dependencies(selections), names)
    ensures AllIn(DependenciesOf(selections[0]), names) && AllIn(Dependencies(selections[1..]), names)
  {
    AllInParts(DependenciesOf(selections[0]), Dependencies(selections[1..]), names);
  }

  /** Collecting gives the same with either set of fragments. */
  lemma {:induction false} CollectsSame(ctx: Context, ctx': Context, names: set<Name>, selections: seq<Selection>,
      usage: Option<DeferUsage>, visited: Visits)
    requires AgreeOn(ctx, ctx', names) && AllIn(Dependencies(selections), names)
    ensures Collect(ctx, selections, usage, visited) == Collect(ctx', selections, usage, visited)
    decreases VisitsLeft(ctx, visited), selections, 0
  {
    CollectNothing(ctx, usage, visited);
    CollectNothing(ctx', usage, visited);
    if selections != [] {
      DependenciesStep(selections, names);
      CollectStep(ctx, selections, usage, visited);
      CollectStep(ctx', selections, usage, visited);
      hide Collect, CollectOne, VisitsLeft, AgreeOn, Dependencies, AllIn;
      CollectsSameOne(ctx, ctx', names, selections[0], usage, visited);
      CollectsSame(ctx, ctx', names, selections[1..], usage, CollectOne(ctx, selections[0], usage, visited).visited);
    }
  }

  lemma {:induction false} CollectsSameOne(ctx: Context, ctx': Context, names: set<Name>, s: Selection,
      usage: Option<DeferUsage>, visited: Visits)
    requires AgreeOn(ctx, ctx', names) && AllIn(DependenciesOf(s), names)
    ensures CollectOne(ctx, s, usage, visited) == CollectOne(ctx', s, usage, visited)
    decreases VisitsLeft(ctx, visited), s, 1
  {
    SameTests(ctx, ctx', names, s, usage, visited);
    IdleStep(ctx, s, usage, visited);
    IdleStep(ctx', s, usage, visited);
    NothingForbidden(ctx, s, usage, visited);
    NothingForbidden(ctx', s, usage, visited);
    hide Collect, CollectOne, VisitsLeft, IsIncluded, Matches, NewUsage, ForbiddenOf, AgreeOn, Expands, AllIn,
         Dependencies, DependenciesOf, UsageUnder, Under;
    if s.InlineFragment? && IsIncluded(ctx, s) && Matches(ctx, s.condition) {
      InlineStep(ctx, s, usage, visited);
      InlineStep(ctx', s, usage, visited);
      CollectsSame(ctx, ctx', names, s.body, UsageUnder(NewUsage(ctx, s.defer, usage), usage), visited);
    } else if s.Spread? && Expands(ctx, s, usage, visited) {
      ExpandStep(ctx, s, usage, visited);
      ExpandStep(ctx', s, usage, visited);
      var newUsage := NewUsage(ctx, s.defer, usage);
      CollectsSame(ctx, ctx', names, ctx.fragments[s.fragment].body, UsageUnder(newUsage, usage),
          visited[s.fragment := newUsage.Some?]);
    }
  }

  lemma {:induction false} SameTests(ctx: Context, ctx': Context, names: set<Name>, s: Selection,
      usage: Option<DeferUsage>, visited: Visits)
    requires AgreeOn(ctx, ctx', names) && AllIn(DependenciesOf(s), names)
    ensures IsIncluded(ctx, s) == IsIncluded(ctx', s) && ForbiddenOf(ctx, s) == ForbiddenOf(ctx', s)
    ensures !s.Field? ==> NewUsage(ctx, s.defer, usage) == NewUsage(ctx', s.defer, usage)
    ensures s.InlineFragment? ==>
              Matches(ctx, s.condition) == Matches(ctx', s.condition) && AllIn(Dependencies(s.body), names)
    ensures s.Spread? ==> Expands(ctx, s, usage, visited) == Expands(ctx', s, usage, visited)
    ensures s.Spread? && Expands(ctx, s, usage, visited) ==>
              ctx.fragments[s.fragment] == ctx'.fragments[s.fragment] &&
              AllIn(Dependencies(ctx.fragments[s.fragment].body), names)
  {
    if s.Spread? {
      assert DependenciesOf(s)[0] in names;
    }
  }

  lemma {:induction false} FieldSpreads(s: Selection, usage: Option<DeferUsage>, names: set<Name>)
    requires AllIn(DependenciesOf(s), names)
    ensures FieldsSpread([], names) && (s.Field? ==> FieldsSpread([FieldDetails(s, usage)], names))
  {
    hide Dependencies;
  }

  /** The fields that are collected spread fragments of these names only, so their subfields are the same too. */
  ghost predicate FieldsSpread(fields: seq<FieldDetails>, names: set<Name>) {
    forall i | 0 <= i < |fields| :: fields[i].node.Field? && AllIn(Dependencies(fields[i].node.selections), names)
  }

  lemma {:induction false} CollectedSpread(ctx: Context, ctx': Context, names: set<Name>,
      selections: seq<Selection>, usage: Option<DeferUsage>, visited: Visits)
    requires AgreeOn(ctx, ctx', names) && AllIn(Dependencies(selections), names)
    ensures FieldsSpread(Collect(ctx, selections, usage, visited).fields, names)
    decreases VisitsLeft(ctx, visited), selections, 0
  {
    CollectNothing(ctx, usage, visited);
    if selections != [] {
      DependenciesStep(selections, names);
      CollectStep(ctx, selections, usage, visited);
      hide Collect, CollectOne, VisitsLeft, AgreeOn, Dependencies, AllIn;
      CollectedSpreadOne(ctx, ctx', names, selections[0], usage, visited);
      CollectedSpread(ctx, ctx', names, selections[1..], usage, CollectOne(ctx, selections[0], usage, visited).visited);
    }
  }

  lemma {:induction false} CollectedSpreadOne(ctx: Context, ctx': Context, names: set<Name>, s: Selection,
      usage: Option<DeferUsage>, visited: Visits)
    requires AgreeOn(ctx, ctx', names) && AllIn(DependenciesOf(s), names)
    ensures FieldsSpread(CollectOne(ctx, s, usage, visited).fields, names)
    decreases VisitsLeft(ctx, visited), s, 1
  {
    SameTests(ctx, ctx', names, s, usage, visited);
    IdleStep(ctx, s, usage, visited);
    FieldSpreads(s, usage, names);
    hide Collect, CollectOne, VisitsLeft, IsIncluded, Matches, NewUsage, AgreeOn, Expands, AllIn, Dependencies,
         DependenciesOf, UsageUnder, FieldsSpread;
    if s.InlineFragment? && IsIncluded(ctx, s) && Matches(ctx, s.condition) {
      InlineStep(ctx, s, usage, visited);
      CollectedSpread(ctx, ctx', names, s.body, UsageUnder(NewUsage(ctx, s.defer, usage), usage), visited);
    } else if s.Spread? && Expands(ctx, s, usage, visited) {
      ExpandStep(ctx, s, usage, visited);
      var newUsage := NewUsage(ctx, s.defer, usage);
      CollectedSpread(ctx, ctx', names, ctx.fragments[s.fragment].body, UsageUnder(newUsage, usage),
                      visited[s.fragment := newUsage.Some?]);
    }
  }

  lemma {:induction false} SubfieldsSame(ctx: Context, ctx': Context, names: set<Name>, details: seq<FieldDetails>,
      visited: Visits)
    requires AgreeOn(ctx, ctx', names) && FieldsSpread(details, names)
    ensures CollectSub(ctx, details, visited) == CollectSub(ctx', details, visited)
    ensures FieldsSpread(CollectSub(ctx, details, visited).fields, names)
    decreases |details|
  {
    hide Collect, AgreeOn, AllIn, Dependencies;
    if details != [] {
      var node := details[0].node;
      var none := Collection([], visited, [], [], []);
      CollectsSame(ctx, ctx', names, node.selections, details[0].usage, visited);
      CollectedSpread(ctx, ctx', names, node.selections, details[0].usage, visited);
      var first := if node.selections != [] then Collect(ctx, node.selections, details[0].usage, visited) else none;
      SubfieldsSame(ctx, ctx', names, details[1..], first.visited);
    }
  }

  lemma {:induction false} GraphOfFragments(doc: Document)
    ensures GraphOf(doc).Keys == FragmentsOf(doc).Keys
    ensures forall n | n in FragmentsOf(doc) :: GraphOf(doc)[n] == Dependencies(FragmentsOf(doc)[n].body)
  {
    if doc != [] {
      GraphOfFragments(doc[..|doc| - 1]);
    }
  }

  /** The separated document has the fragments of the given names, and no other. */
  lemma {:induction false} KeptFragments(doc: Document, place: nat, names: set<Name>)
    requires place < |doc| ==> doc[place].Operation?
    ensures FragmentsOf(Keep(doc, place, names)) == (map n | n in FragmentsOf(doc) && n in names :: FragmentsOf(doc)[n])
  {
    if doc != [] {
      var n := |doc| - 1;
      var front := Keep(doc[..n], place, names);
      KeptFragments(doc[..n], place, names);
      assert (front + [doc[n]])[..|front|] == front && front + [] == front;
    }
  }

  /**
   With the fragments of the separated document, collecting the operation's fields, and
   at every level below the subfields of what was collected, gives what it gives with all
   the fragments; only the names the operation depends on matter.
   */
  lemma {:induction false} SeparationKeepsMeaning(doc: Document, place: nat, separated: Document, names: set<Name>,
      ctx: Context)
    requires IsSeparated(doc, place, separated, names) && ctx.fragments == FragmentsOf(doc)
    ensures var ctx' := ctx.(fragments := FragmentsOf(separated));
            && (forall usage, visited ::
                  var r := Collect(ctx, doc[place].selections, usage, visited);
                  r == Collect(ctx', doc[place].selections, usage, visited) && FieldsSpread(r.fields, names))
            && (forall details, visited | FieldsSpread(details, names) ::
                  var r := CollectSub(ctx, details, visited);
                  r == CollectSub(ctx', details, visited) && FieldsSpread(r.fields, names))
  {
    var ctx' := ctx.(fragments := FragmentsOf(separated));
    var selections := doc[place].selections;
    NeededAgree(doc, place, separated, names, ctx);
    hide AgreeOn, IsSeparated, FragmentsOf, Collect, CollectSub, FieldsSpread, AllIn, Dependencies;
    forall usage, visited
      ensures Collect(ctx, selections, usage, visited) == Collect(ctx', selections, usage, visited)
      ensures FieldsSpread(Collect(ctx, selections, usage, visited).fields, names)
    {
      CollectsSame(ctx, ctx', names, selections, usage, visited);
      CollectedSpread(ctx, ctx', names, selections, usage, visited);
    }
    forall details, visited | FieldsSpread(details, names)
      ensures CollectSub(ctx, details, visited) == CollectSub(ctx', details, visited)
      ensures FieldsSpread(CollectSub(ctx, details, visited).fields, names)
    {
      SubfieldsSame(ctx, ctx', names, details, visited);
    }
  }

  lemma {:induction false} NeededAgree(doc: Document, place: nat, separated: Document, names: set<Name>, ctx: Context)
    requires IsSeparated(doc, place, separated, names) && ctx.fragments == FragmentsOf(doc)
    ensures AgreeOn(ctx, ctx.(fragments := FragmentsOf(separated)), names) &&
            AllIn(Dependencies(doc[place].selections), names)
  {
    var roots := Dependencies(doc[place].selections);
    KeptFragments(doc, place, names);
    GraphOfFragments(doc);
    hide FragmentsOf, GraphOf, Dependencies, Keep;
    forall k | 0 <= k < |roots| ensures roots[k] in names {
      LeadsToItself(GraphOf(doc), roots[k]);
    }
    forall n | n in names && n in ctx.fragments ensures AllIn(Dependencies(ctx.fragments[n].body), names) {
      var next := Dependencies(ctx.fragments[n].body);
      forall k | 0 <= k < |next| ensures next[k] in names {
        NeededOn(GraphOf(doc), roots, n, k);
      }
    }
  }

  /** What a needed fragment spreads is needed. */
  lemma {:induction false} NeededOn(graph: DepGraph, roots: seq<Name>, n: Name, k: nat)
    requires DependsOnSome(graph, roots, |roots|, n) && n in graph && k < |graph[n]|
    ensures DependsOnSome(graph, roots, |roots|, graph[n][k])
  {
    var i :| 0 <= i < |roots| && LeadsTo(graph, roots[i], n);
    hide LeadsTo;
    OnAndStep(graph, roots[i], n, k);
  }

}
