/**
 What field collection collects: exactly what can be reached, each fragment expanded at
 most twice, every defer usage after its parent, and groups in order of first occurrence.
 */
module CollectFieldsProperties {
  import opened Options
  import opened Selections
  import opened CollectFields

  // ---------------------------------------------------------------------------
  // Reachability
  // ---------------------------------------------------------------------------

  /** The field can be reached from the selection set through at most `depth` fragments. */
  ghost predicate Reaches(ctx: Context, selections: seq<Selection>, f: Selection, depth: nat)
    decreases depth, 1
  {
    exists i :: 0 <= i < |selections| && ReachesBy(ctx, selections[i], f, depth)
  }

  /** Through included selections, and fragments whose condition matches. */
  ghost predicate ReachesBy(ctx: Context, s: Selection, f: Selection, depth: nat)
    decreases depth, 0
  {
    && IsIncluded(ctx, s)
    && match s
       case Field(_, _, _, _, _, _) => s == f
       case InlineFragment(condition, _, _, _, body) =>
         Matches(ctx, condition) && depth > 0 && Reaches(ctx, body, f, depth - 1)
       case Spread(name, _, _, _) =>
         Applies(ctx, s) && depth > 0 && Reaches(ctx, ctx.fragments[name].body, f, depth - 1)
  }

  ghost predicate IsReachable(ctx: Context, selections: seq<Selection>, f: Selection) {
    exists depth: nat :: Reaches(ctx, selections, f, depth)
  }

  function Nodes(fields: seq<FieldDetails>): set<Selection> {
    set i | 0 <= i < |fields| :: fields[i].node
  }

  lemma {:induction false} NodesConcat(xs: seq<FieldDetails>, ys: seq<FieldDetails>)
    ensures Nodes(xs + ys) == Nodes(xs) + Nodes(ys)
  {
    forall n ensures n in Nodes(xs + ys) <==> n in Nodes(xs) || n in Nodes(ys) {
      if n in Nodes(xs) {
        var i :| 0 <= i < |xs| && xs[i].node == n;
        assert (xs + ys)[i].node == n;
      }
      if n in Nodes(ys) {
        var i :| 0 <= i < |ys| && ys[i].node == n;
        assert (xs + ys)[|xs| + i].node == n;
      }
    }
  }

  lemma {:induction false} CollectStep(ctx: Context, selections: seq<Selection>, usage: Option<DeferUsage>,
      visited: Visits)
    requires selections != []
    ensures var first := CollectOne(ctx, selections[0], usage, visited);
            && VisitsLeft(ctx, first.visited) <= VisitsLeft(ctx, visited)
            && Collect(ctx, selections, usage, visited) ==
               Then(first, Collect(ctx, selections[1..], usage, first.visited))
  {
    hide CollectOne, Then, VisitsLeft;
    GrownLeavesFewer(ctx, visited, CollectOne(ctx, selections[0], usage, visited).visited);
  }

  /** Where a spread brings its fragment in. */
  predicate Expands(ctx: Context, s: Selection, usage: Option<DeferUsage>, visited: Visits) {
    Applies(ctx, s) && !Skips(visited, s.fragment, NewUsage(ctx, s.defer, usage).Some?)
  }

  function UsageUnder(newUsage: Option<DeferUsage>, usage: Option<DeferUsage>): Option<DeferUsage> {
    if newUsage.Some? then newUsage else usage
  }

  lemma {:induction false} ExpandStep(ctx: Context, s: Selection, usage: Option<DeferUsage>, visited: Visits)
    requires Expands(ctx, s, usage, visited)
    ensures var newUsage := NewUsage(ctx, s.defer, usage);
            var visited' := visited[s.fragment := newUsage.Some?];
            var r := Collect(ctx, ctx.fragments[s.fragment].body, UsageUnder(newUsage, usage), visited');
            && VisitsLeft(ctx, visited') < VisitsLeft(ctx, visited)
            && CollectOne(ctx, s, usage, visited) ==
               Under(newUsage, r.(expanded := [Expansion(s.fragment, UsageUnder(newUsage, usage))] + r.expanded))
  {
    hide VisitsLeft, Collect;
    VisitUsesOne(ctx, visited, s.fragment, NewUsage(ctx, s.defer, usage).Some?);
  }

  lemma {:induction false} InlineStep(ctx: Context, s: Selection, usage: Option<DeferUsage>, visited: Visits)
    requires s.InlineFragment? && IsIncluded(ctx, s) && Matches(ctx, s.condition)
    ensures var newUsage := NewUsage(ctx, s.defer, usage);
            CollectOne(ctx, s, usage, visited) ==
            Under(newUsage, Collect(ctx, s.body, UsageUnder(newUsage, usage), visited))
  {
    hide Collect;
  }

  /** Selections that add nothing. */
  lemma {:induction false} IdleStep(ctx: Context, s: Selection, usage: Option<DeferUsage>, visited: Visits)
    ensures var idle := || !IsIncluded(ctx, s)
                        || (s.InlineFragment? && !Matches(ctx, s.condition))
                        || (s.Spread? && !Expands(ctx, s, usage, visited));
            var r := CollectOne(ctx, s, usage, visited);
            && (idle ==> r.fields == [] && r.visited == visited && r.usages == [] && r.expanded == [])
            && (!idle && s.Field? ==> r == Collection([FieldDetails(s, usage)], visited, [], [], []))
  {
    hide Collect;
  }

  // ---------------------------------------------------------------------------
  // Only what can be reached is collected
  // ---------------------------------------------------------------------------

  lemma {:induction false} CollectedIsReached(ctx: Context, selections: seq<Selection>, usage: Option<DeferUsage>,
      visited: Visits, f: Selection)
    returns (depth: nat)
    requires f in Nodes(Collect(ctx, selections, usage, visited).fields)
    ensures Reaches(ctx, selections, f, depth)
    decreases VisitsLeft(ctx, visited), selections, 0
  {
    CollectNothing(ctx, usage, visited);
    var first := CollectOne(ctx, selections[0], usage, visited);
    CollectStep(ctx, selections, usage, visited);
    hide Collect, CollectOne, VisitsLeft, Nodes, ReachesBy;
    var rest := Collect(ctx, selections[1..], usage, first.visited);
    NodesConcat(first.fields, rest.fields);
    if f in Nodes(first.fields) {
      depth := CollectedByOne(ctx, selections[0], usage, visited, f);
    } else {
      depth := CollectedIsReached(ctx, selections[1..], usage, first.visited, f);
      var i :| 0 <= i < |selections[1..]| && ReachesBy(ctx, selections[1..][i], f, depth);
      assert ReachesBy(ctx, selections[i + 1], f, depth);
    }
  }

  lemma {:induction false} CollectNothing(ctx: Context, usage: Option<DeferUsage>, visited: Visits)
    ensures Collect(ctx, [], usage, visited) == Collection([], visited, [], [], [])
    ensures Nodes([]) == {}
  {
  }

  lemma {:induction false} CollectedByOne(ctx: Context, s: Selection, usage: Option<DeferUsage>, visited: Visits,
      f: Selection)
    returns (depth: nat)
    requires f in Nodes(CollectOne(ctx, s, usage, visited).fields)
    ensures ReachesBy(ctx, s, f, depth)
    decreases VisitsLeft(ctx, visited), s, 1
  {
    IdleStep(ctx, s, usage, visited);
    hide Collect, CollectOne, VisitsLeft, IsIncluded, Matches, NewUsage, Skips;
    depth := 0;
    match s
    case Field(_, _, _, _, _, _) =>
    case InlineFragment(_, _, _, defer, body) =>
      InlineStep(ctx, s, usage, visited);
      depth := CollectedIsReached(ctx, body, UsageUnder(NewUsage(ctx, defer, usage), usage), visited, f);
      depth := depth + 1;
    case Spread(name, _, _, defer) =>
      ExpandStep(ctx, s, usage, visited);
      var newUsage := NewUsage(ctx, defer, usage);
      depth := CollectedIsReached(ctx, ctx.fragments[name].body, UsageUnder(newUsage, usage),
          visited[name := newUsage.Some?], f);
      depth := depth + 1;
  }

  // ---------------------------------------------------------------------------
  // All that can be reached is collected
  // ---------------------------------------------------------------------------

  /** Everything that the selections lead to directly is among the fields or the visited fragments. */
  ghost predicate Closed(ctx: Context, selections: seq<Selection>, names: set<Name>, fields: set<Selection>)
    decreases selections, 0
  {
    forall i | 0 <= i < |selections| :: ClosedOne(ctx, selections[i], names, fields)
  }

  ghost predicate ClosedOne(ctx: Context, s: Selection, names: set<Name>, fields: set<Selection>)
    decreases s, 1
  {
    IsIncluded(ctx, s) ==>
      match s
      case Field(_, _, _, _, _, _) => s in fields
      case InlineFragment(condition, _, _, _, body) => Matches(ctx, condition) ==> Closed(ctx, body, names, fields)
      case Spread(name, _, _, _) => Applies(ctx, s) ==> name in names
  }

  ghost predicate AllClosed(ctx: Context, among: set<Name>, names: set<Name>, fields: set<Selection>) {
    forall n | n in among :: n in ctx.fragments && Closed(ctx, ctx.fragments[n].body, names, fields)
  }

  lemma {:induction false} ClosedMore(ctx: Context, selections: seq<Selection>, names: set<Name>,
      fields: set<Selection>, names': set<Name>, fields': set<Selection>)
    requires Closed(ctx, selections, names, fields) && names <= names' && fields <= fields'
    ensures Closed(ctx, selections, names', fields')
    decreases selections, 0
  {
    forall i | 0 <= i < |selections| ensures ClosedOne(ctx, selections[i], names', fields') {
      ClosedOneMore(ctx, selections[i], names, fields, names', fields');
    }
  }

  lemma {:induction false} ClosedOneMore(ctx: Context, s: Selection, names: set<Name>, fields: set<Selection>,
      names': set<Name>, fields': set<Selection>)
    requires ClosedOne(ctx, s, names, fields) && names <= names' && fields <= fields'
    ensures ClosedOne(ctx, s, names', fields')
    decreases s, 1
  {
    if s.InlineFragment? && IsIncluded(ctx, s) && Matches(ctx, s.condition) {
      ClosedMore(ctx, s.body, names, fields, names', fields');
    }
  }

  lemma {:induction false} AllClosedMore(ctx: Context, among: set<Name>, names: set<Name>, fields: set<Selection>,
      names': set<Name>, fields': set<Selection>)
    requires AllClosed(ctx, among, names, fields) && names <= names' && fields <= fields'
    ensures AllClosed(ctx, among, names', fields')
  {
    hide Closed;
    forall n | n in among ensures Closed(ctx, ctx.fragments[n].body, names', fields') {
      ClosedMore(ctx, ctx.fragments[n].body, names, fields, names', fields');
    }
  }

  /** What collecting gives closes the selections and every fragment visited on the way. */
  lemma {:induction false} CollectCloses(ctx: Context, selections: seq<Selection>, usage: Option<DeferUsage>,
      visited: Visits)
    ensures var r := Collect(ctx, selections, usage, visited);
            && Closed(ctx, selections, r.visited.Keys, Nodes(r.fields))
            && AllClosed(ctx, r.visited.Keys - visited.Keys, r.visited.Keys, Nodes(r.fields))
    decreases VisitsLeft(ctx, visited), selections, 0
  {
    CollectNothing(ctx, usage, visited);
    if selections == [] {
      return;
    }
    CollectStep(ctx, selections, usage, visited);
    hide Collect, CollectOne, VisitsLeft, Nodes, Closed, ClosedOne, AllClosed, Grown;
    var first := CollectOne(ctx, selections[0], usage, visited);
    var rest := Collect(ctx, selections[1..], usage, first.visited);
    var names, fields := rest.visited.Keys, Nodes(Then(first, rest).fields);
    OneCloses(ctx, selections[0], usage, visited);
    CollectCloses(ctx, selections[1..], usage, first.visited);
    KeysGrow(visited, first.visited);
    KeysGrow(first.visited, rest.visited);
    NodesConcat(first.fields, rest.fields);
    ClosedOneMore(ctx, selections[0], first.visited.Keys, Nodes(first.fields), names, fields);
    ClosedMore(ctx, selections[1..], names, Nodes(rest.fields), names, fields);
    ClosedCons(ctx, selections, names, fields);
    AllClosedMore(ctx, first.visited.Keys - visited.Keys, first.visited.Keys, Nodes(first.fields), names, fields);
    AllClosedMore(ctx, names - first.visited.Keys, names, Nodes(rest.fields), names, fields);
    AllClosedBoth(ctx, first.visited.Keys - visited.Keys, names - first.visited.Keys, names - visited.Keys, names,
        fields);
  }

  lemma {:induction false} KeysGrow(visited: Visits, visited': Visits)
    requires Grown(visited, visited')
    ensures visited.Keys <= visited'.Keys && Undeferred(visited) <= Undeferred(visited')
  {
  }

  lemma {:induction false} ClosedCons(ctx: Context, selections: seq<Selection>, names: set<Name>,
      fields: set<Selection>)
    requires selections != [] && ClosedOne(ctx, selections[0], names, fields) &&
             Closed(ctx, selections[1..], names, fields)
    ensures Closed(ctx, selections, names, fields)
  {
    hide ClosedOne;
    forall i | 0 <= i < |selections| ensures ClosedOne(ctx, selections[i], names, fields) {
      assert i > 0 ==> selections[i] == selections[1..][i - 1];
    }
  }

  lemma {:induction false} AllClosedBoth(ctx: Context, a: set<Name>, b: set<Name>, c: set<Name>, names: set<Name>,
      fields: set<Selection>)
    requires AllClosed(ctx, a, names, fields) && AllClosed(ctx, b, names, fields) && c <= a + b
    ensures AllClosed(ctx, c, names, fields)
  {
    hide Closed;
  }

  lemma {:induction false} OneCloses(ctx: Context, s: Selection, usage: Option<DeferUsage>, visited: Visits)
    ensures var r := CollectOne(ctx, s, usage, visited);
            && ClosedOne(ctx, s, r.visited.Keys, Nodes(r.fields))
            && AllClosed(ctx, r.visited.Keys - visited.Keys, r.visited.Keys, Nodes(r.fields))
    decreases VisitsLeft(ctx, visited), s, 1
  {
    IdleStep(ctx, s, usage, visited);
    hide Collect, CollectOne, VisitsLeft, IsIncluded, Matches, NewUsage, Closed;
    var r := CollectOne(ctx, s, usage, visited);
    if s.InlineFragment? && IsIncluded(ctx, s) && Matches(ctx, s.condition) {
      InlineStep(ctx, s, usage, visited);
      CollectCloses(ctx, s.body, UsageUnder(NewUsage(ctx, s.defer, usage), usage), visited);
    } else if s.Spread? && Expands(ctx, s, usage, visited) {
      ExpandStep(ctx, s, usage, visited);
      var newUsage := NewUsage(ctx, s.defer, usage);
      var visited' := visited[s.fragment := newUsage.Some?];
      CollectCloses(ctx, ctx.fragments[s.fragment].body, UsageUnder(newUsage, usage), visited');
      ExpandedIsClosed(ctx, s.fragment, visited, visited', r.visited, Nodes(r.fields));
    } else if s.Field? && IsIncluded(ctx, s) {
      assert r.fields[0].node == s;
    }
  }

  lemma {:induction false} ExpandedIsClosed(ctx: Context, name: Name, visited: Visits, visited': Visits,
      all: Visits, fields: set<Selection>)
    requires name in ctx.fragments && visited'.Keys == visited.Keys + {name} && Grown(visited', all)
    requires Closed(ctx, ctx.fragments[name].body, all.Keys, fields)
    requires AllClosed(ctx, all.Keys - visited'.Keys, all.Keys, fields)
    ensures AllClosed(ctx, all.Keys - visited.Keys, all.Keys, fields) && name in all.Keys
  {
    hide Closed;
  }

  lemma {:induction false} ClosedHoldsReached(ctx: Context, selections: seq<Selection>, names: set<Name>,
      fields: set<Selection>, f: Selection, depth: nat)
    requires Closed(ctx, selections, names, fields) && AllClosed(ctx, names, names, fields) &&
             Reaches(ctx, selections, f, depth)
    ensures f in fields
    decreases depth, 1
  {
    var i :| 0 <= i < |selections| && ReachesBy(ctx, selections[i], f, depth);
    ClosedOneHoldsReached(ctx, selections[i], names, fields, f, depth);
  }

  lemma {:induction false} ClosedOneHoldsReached(ctx: Context, s: Selection, names: set<Name>,
      fields: set<Selection>, f: Selection, depth: nat)
    requires ClosedOne(ctx, s, names, fields) && AllClosed(ctx, names, names, fields) && ReachesBy(ctx, s, f, depth)
    ensures f in fields
    decreases depth, 0
  {
    hide Closed, Reaches, IsIncluded, Matches;
    match s
    case Field(_, _, _, _, _, _) =>
    case InlineFragment(_, _, _, _, body) => ClosedHoldsReached(ctx, body, names, fields, f, depth - 1);
    case Spread(name, _, _, _) => ClosedHoldsReached(ctx, ctx.fragments[name].body, names, fields, f, depth - 1);
  }

  /** Exactly the reachable fields are collected, whatever is deferred and however the fragments spread each other. */
  lemma {:induction false} CollectsExactly(ctx: Context, selections: seq<Selection>, usage: Option<DeferUsage>,
      f: Selection)
    ensures f in Nodes(Collect(ctx, selections, usage, map[]).fields) <==> IsReachable(ctx, selections, f)
  {
    hide Collect, Closed, Nodes, Reaches;
    var r := Collect(ctx, selections, usage, map[]);
    CollectCloses(ctx, selections, usage, map[]);
    assert r.visited.Keys - {} == r.visited.Keys;
    if IsReachable(ctx, selections, f) {
      var depth: nat :| Reaches(ctx, selections, f, depth);
      ClosedHoldsReached(ctx, selections, r.visited.Keys, Nodes(r.fields), f, depth);
    }
    if f in Nodes(r.fields) {
      var depth := CollectedIsReached(ctx, selections, usage, map[], f);
    }
  }

  // ---------------------------------------------------------------------------
  // Defer usages
  // ---------------------------------------------------------------------------

  /** The usage is the incoming one or one of the list. */
  predicate IsListed(u: Option<DeferUsage>, usage: Option<DeferUsage>, usages: seq<DeferUsage>) {
    u == usage || (u.Some? && u.value in usages)
  }

  /** The parent of every usage is the incoming one or comes before it. */
  predicate ParentsFirst(usage: Option<DeferUsage>, usages: seq<DeferUsage>) {
    forall i | 0 <= i < |usages| :: IsListed(usages[i].parent, usage, usages[..i])
  }

  predicate AllListed(fields: seq<FieldDetails>, usage: Option<DeferUsage>, usages: seq<DeferUsage>) {
    forall i | 0 <= i < |fields| :: IsListed(fields[i].usage, usage, usages)
  }

  lemma {:induction false} ParentsFirstConcat(usage: Option<DeferUsage>, xs: seq<DeferUsage>, ys: seq<DeferUsage>)
    requires ParentsFirst(usage, xs) && ParentsFirst(usage, ys)
    ensures ParentsFirst(usage, xs + ys)
  {
    var all := xs + ys;
    forall i | 0 <= i < |all| ensures IsListed(all[i].parent, usage, all[..i]) {
      if i < |xs| {
        assert all[..i] == xs[..i];
      } else {
        assert all[..i] == xs + ys[..i - |xs|];
      }
    }
  }

  lemma {:induction false} ListedConcat(usage: Option<DeferUsage>, xs: seq<DeferUsage>, ys: seq<DeferUsage>,
      fs: seq<FieldDetails>, gs: seq<FieldDetails>)
    requires AllListed(fs, usage, xs) && AllListed(gs, usage, ys)
    ensures AllListed(fs + gs, usage, xs + ys)
  {
  }

  /** A new usage in front lists what was listed under it. */
  lemma {:induction false} ListedUnder(u: DeferUsage, usage: Option<DeferUsage>, usages: seq<DeferUsage>,
      fields: seq<FieldDetails>)
    requires u.parent == usage && ParentsFirst(Some(u), usages) && AllListed(fields, Some(u), usages)
    ensures ParentsFirst(usage, [u] + usages) && AllListed(fields, usage, [u] + usages)
  {
    var all := [u] + usages;
    forall i | 0 <= i < |all| ensures IsListed(all[i].parent, usage, all[..i]) {
      if i > 0 {
        assert all[..i] == [u] + usages[..i - 1];
        assert IsListed(usages[i - 1].parent, Some(u), usages[..i - 1]);
      }
    }
  }

  /** New defer usages are listed parent before child, and every field's usage is incoming or listed. */
  lemma {:induction false} UsagesAreListed(ctx: Context, selections: seq<Selection>, usage: Option<DeferUsage>,
      visited: Visits)
    ensures var r := Collect(ctx, selections, usage, visited);
            ParentsFirst(usage, r.usages) && AllListed(r.fields, usage, r.usages)
    decreases VisitsLeft(ctx, visited), selections, 0
  {
    CollectNothing(ctx, usage, visited);
    if selections == [] {
      return;
    }
    CollectStep(ctx, selections, usage, visited);
    hide Collect, CollectOne, VisitsLeft, ParentsFirst, AllListed;
    var first := CollectOne(ctx, selections[0], usage, visited);
    var rest := Collect(ctx, selections[1..], usage, first.visited);
    UsagesOfOneAreListed(ctx, selections[0], usage, visited);
    UsagesAreListed(ctx, selections[1..], usage, first.visited);
    ParentsFirstConcat(usage, first.usages, rest.usages);
    ListedConcat(usage, first.usages, rest.usages, first.fields, rest.fields);
  }

  lemma {:induction false} UsagesOfOneAreListed(ctx: Context, s: Selection, usage: Option<DeferUsage>, visited: Visits)
    ensures var r := CollectOne(ctx, s, usage, visited);
            ParentsFirst(usage, r.usages) && AllListed(r.fields, usage, r.usages)
    decreases VisitsLeft(ctx, visited), s, 1
  {
    IdleStep(ctx, s, usage, visited);
    hide Collect, CollectOne, VisitsLeft, IsIncluded, Matches, ParentsFirst, AllListed, Skips;
    NothingListed(s, usage);
    if s.InlineFragment? && IsIncluded(ctx, s) && Matches(ctx, s.condition) {
      InlineStep(ctx, s, usage, visited);
      var newUsage := NewUsage(ctx, s.defer, usage);
      UsagesAreListed(ctx, s.body, UsageUnder(newUsage, usage), visited);
      var r := Collect(ctx, s.body, UsageUnder(newUsage, usage), visited);
      if newUsage.Some? {
        ListedUnder(newUsage.value, usage, r.usages, r.fields);
      }
    } else if s.Spread? && Expands(ctx, s, usage, visited) {
      ExpandStep(ctx, s, usage, visited);
      var newUsage := NewUsage(ctx, s.defer, usage);
      var visited' := visited[s.fragment := newUsage.Some?];
      var body := ctx.fragments[s.fragment].body;
      UsagesAreListed(ctx, body, UsageUnder(newUsage, usage), visited');
      var r := Collect(ctx, body, UsageUnder(newUsage, usage), visited');
      if newUsage.Some? {
        ListedUnder(newUsage.value, usage, r.usages, r.fields);
      }
    }
  }

  lemma {:induction false} NothingListed(s: Selection, usage: Option<DeferUsage>)
    ensures ParentsFirst(usage, []) && AllListed([], usage, []) && AllListed([FieldDetails(s, usage)], usage, [])
  {
  }

  // ---------------------------------------------------------------------------
  // How often a fragment is expanded
  // ---------------------------------------------------------------------------

  /** 0 before any visit, 1 after deferred visits only, 2 after one that is not deferred. */
  function VisitState(visited: Visits, name: Name): nat {
    if name !in visited then 0 else if visited[name] then 1 else 2
  }

  function TimesExpanded(expanded: seq<Expansion>, name: Name): nat {
    if expanded == [] then 0 else (if expanded[0].name == name then 1 else 0) + TimesExpanded(expanded[1..], name)
  }

  lemma {:induction false} TimesConcat(xs: seq<Expansion>, ys: seq<Expansion>, name: Name)
    ensures TimesExpanded(xs + ys, name) == TimesExpanded(xs, name) + TimesExpanded(ys, name)
  {
    if xs == [] {
      assert xs + ys == ys;
    } else {
      TimesConcat(xs[1..], ys, name);
      assert (xs + ys)[1..] == xs[1..] + ys;
    }
  }

  lemma {:induction false} TimesOneMore(e: Expansion, expanded: seq<Expansion>, name: Name)
    ensures TimesExpanded([e] + expanded, name) == (if e.name == name then 1 else 0) + TimesExpanded(expanded, name)
  {
    assert ([e] + expanded)[1..] == expanded;
  }

  /** Every expansion of a fragment takes its visit state up. */
  lemma {:induction false} ExpansionsAreCounted(ctx: Context, selections: seq<Selection>, usage: Option<DeferUsage>,
      visited: Visits, name: Name)
    ensures var r := Collect(ctx, selections, usage, visited);
            && VisitState(visited, name) + TimesExpanded(r.expanded, name) <= VisitState(r.visited, name)
            && (VisitState(visited, name) < VisitState(r.visited, name) ==> TimesExpanded(r.expanded, name) > 0)
    decreases VisitsLeft(ctx, visited), selections, 0
  {
    CollectNothing(ctx, usage, visited);
    if selections == [] {
      return;
    }
    CollectStep(ctx, selections, usage, visited);
    hide Collect, CollectOne, VisitsLeft, VisitState, TimesExpanded;
    var first := CollectOne(ctx, selections[0], usage, visited);
    ExpansionsOfOneAreCounted(ctx, selections[0], usage, visited, name);
    ExpansionsAreCounted(ctx, selections[1..], usage, first.visited, name);
    TimesConcat(first.expanded, Collect(ctx, selections[1..], usage, first.visited).expanded, name);
  }

  lemma {:induction false} ExpansionsOfOneAreCounted(ctx: Context, s: Selection, usage: Option<DeferUsage>,
      visited: Visits, name: Name)
    ensures var r := CollectOne(ctx, s, usage, visited);
            && VisitState(visited, name) + TimesExpanded(r.expanded, name) <= VisitState(r.visited, name)
            && (VisitState(visited, name) < VisitState(r.visited, name) ==> TimesExpanded(r.expanded, name) > 0)
    decreases VisitsLeft(ctx, visited), s, 1
  {
    IdleStep(ctx, s, usage, visited);
    hide Collect, CollectOne, VisitsLeft, IsIncluded, Matches, NewUsage;
    if s.InlineFragment? && IsIncluded(ctx, s) && Matches(ctx, s.condition) {
      InlineStep(ctx, s, usage, visited);
      ExpansionsAreCounted(ctx, s.body, UsageUnder(NewUsage(ctx, s.defer, usage), usage), visited, name);
    } else if s.Spread? && Expands(ctx, s, usage, visited) {
      ExpandStep(ctx, s, usage, visited);
      var newUsage := NewUsage(ctx, s.defer, usage);
      var visited' := visited[s.fragment := newUsage.Some?];
      var r := Collect(ctx, ctx.fragments[s.fragment].body, UsageUnder(newUsage, usage), visited');
      ExpansionsAreCounted(ctx, ctx.fragments[s.fragment].body, UsageUnder(newUsage, usage), visited', name);
      TimesOneMore(Expansion(s.fragment, UsageUnder(newUsage, usage)), r.expanded, name);
      assert VisitState(visited, name) + (if s.fragment == name then 1 else 0) <= VisitState(visited', name);
      assert name != s.fragment ==> VisitState(visited, name) == VisitState(visited', name);
    }
  }

  /** No fragment is expanded more than twice, and the expanded fragments are the visited ones. */
  lemma {:induction false} ExpandsAtMostTwice(ctx: Context, selections: seq<Selection>, usage: Option<DeferUsage>,
      name: Name)
    ensures var r := Collect(ctx, selections, usage, map[]);
            TimesExpanded(r.expanded, name) <= 2 && (TimesExpanded(r.expanded, name) > 0 <==> name in r.visited)
  {
    hide Collect;
    ExpansionsAreCounted(ctx, selections, usage, map[], name);
  }

  /** Nothing among the selections is deferred. */
  ghost predicate NothingDeferred(ctx: Context, selections: seq<Selection>)
    decreases selections, 0
  {
    forall i | 0 <= i < |selections| :: NotDeferred(ctx, selections[i])
  }

  ghost predicate NotDeferred(ctx: Context, s: Selection)
    decreases s, 1
  {
    match s
    case Field(_, _, _, _, _, _) => true
    case InlineFragment(_, _, _, defer, body) => NewUsage(ctx, defer, None).None? && NothingDeferred(ctx, body)
    case Spread(_, _, _, defer) => NewUsage(ctx, defer, None).None?
  }

  ghost predicate NoFragmentDefers(ctx: Context) {
    forall n | n in ctx.fragments :: NothingDeferred(ctx, ctx.fragments[n].body)
  }

  ghost predicate AllUnder(fields: seq<FieldDetails>, usage: Option<DeferUsage>) {
    forall i | 0 <= i < |fields| :: fields[i].usage == usage
  }

  /** Where nothing is deferred there are no new usages, and every fragment is expanded once at most. */
  lemma {:induction false} UndeferredExpandsOnce(ctx: Context, selections: seq<Selection>,
      usage: Option<DeferUsage>, visited: Visits, name: Name)
    requires NothingDeferred(ctx, selections) && NoFragmentDefers(ctx)
    ensures var r := Collect(ctx, selections, usage, visited);
            && r.usages == [] && AllUnder(r.fields, usage)
            && TimesExpanded(r.expanded, name) <=
               (if name in Undeferred(r.visited) && name !in Undeferred(visited) then 1 else 0)
    decreases VisitsLeft(ctx, visited), selections, 0
  {
    CollectNothing(ctx, usage, visited);
    if selections == [] {
      return;
    }
    CollectStep(ctx, selections, usage, visited);
    hide Collect, CollectOne, VisitsLeft, NotDeferred, NoFragmentDefers, Undeferred, TimesExpanded;
    var first := CollectOne(ctx, selections[0], usage, visited);
    var rest := Collect(ctx, selections[1..], usage, first.visited);
    assert NotDeferred(ctx, selections[0]);
    forall i | 0 <= i < |selections[1..]| ensures NotDeferred(ctx, selections[1..][i]) {
      assert selections[1..][i] == selections[i + 1];
    }
    UndeferredOneExpandsOnce(ctx, selections[0], usage, visited, name);
    UndeferredExpandsOnce(ctx, selections[1..], usage, first.visited, name);
    TimesConcat(first.expanded, rest.expanded, name);
  }

  lemma {:induction false} UndeferredOneExpandsOnce(ctx: Context, s: Selection, usage: Option<DeferUsage>,
      visited: Visits, name: Name)
    requires NotDeferred(ctx, s) && NoFragmentDefers(ctx)
    ensures var r := CollectOne(ctx, s, usage, visited);
            && r.usages == [] && AllUnder(r.fields, usage)
            && TimesExpanded(r.expanded, name) <=
               (if name in Undeferred(r.visited) && name !in Undeferred(visited) then 1 else 0)
    decreases VisitsLeft(ctx, visited), s, 1
  {
    IdleStep(ctx, s, usage, visited);
    NoUsage(ctx, s, usage);
    hide Collect, CollectOne, VisitsLeft, IsIncluded, Matches, NothingDeferred, Undeferred, Grown, NewUsage, AllUnder,
        Skips;
    NoneUnder(s, usage);
    if s.InlineFragment? && IsIncluded(ctx, s) && Matches(ctx, s.condition) {
      InlineStep(ctx, s, usage, visited);
      UndeferredExpandsOnce(ctx, s.body, usage, visited, name);
    } else if s.Spread? && Expands(ctx, s, usage, visited) {
      ExpandStep(ctx, s, usage, visited);
      var visited' := visited[s.fragment := false];
      var body := ctx.fragments[s.fragment].body;
      var r := Collect(ctx, body, usage, visited');
      UndeferredExpandsOnce(ctx, body, usage, visited', name);
      OneMoreExpansion(visited, r.visited, Expansion(s.fragment, usage), r.expanded, name);
    }
  }

  lemma {:induction false} NoUsage(ctx: Context, s: Selection, usage: Option<DeferUsage>)
    requires NotDeferred(ctx, s)
    ensures !s.Field? ==> NewUsage(ctx, s.defer, usage).None?
    ensures s.InlineFragment? ==> NothingDeferred(ctx, s.body)
  {
    hide NothingDeferred;
  }

  lemma {:induction false} NoneUnder(s: Selection, usage: Option<DeferUsage>)
    ensures AllUnder([], usage) && AllUnder([FieldDetails(s, usage)], usage)
  {
  }

  lemma {:induction false} OneMoreExpansion(visited: Visits, all: Visits, e: Expansion, expanded: seq<Expansion>,
      name: Name)
    requires !Skips(visited, e.name, false) && Grown(visited[e.name := false], all)
    requires TimesExpanded(expanded, name) <=
             (if name in Undeferred(all) && name !in Undeferred(visited[e.name := false]) then 1 else 0)
    ensures TimesExpanded([e] + expanded, name) <=
            (if name in Undeferred(all) && name !in Undeferred(visited) then 1 else 0)
  {
    TimesOneMore(e, expanded, name);
    assert e.name in Undeferred(visited[e.name := false]);
  }
}
