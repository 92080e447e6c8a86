/**
 Which fields keep the incoming usage: those that are reached without passing through
 anything deferred, exactly unless a deferred part, met before, has spread their fragment.
 */
module UndeferredFields {
  import opened Options
  import opened Selections
  import opened CollectFields
  import opened CollectFieldsProperties
  import Graphs

  predicate IsDeferred(ctx: Context, s: Selection)
    requires !s.Field?
  {
    NewUsage(ctx, s.defer, None).Some?
  }

  lemma {:induction false} DeferredMeans(ctx: Context, s: Selection, usage: Option<DeferUsage>)
    requires !s.Field?
    ensures NewUsage(ctx, s.defer, usage).Some? <==> IsDeferred(ctx, s)
    ensures IsDeferred(ctx, s) ==> NewUsage(ctx, s.defer, usage).value.parent == usage
  {
  }

  // ---------------------------------------------------------------------------
  // What is reached without defer
  // ---------------------------------------------------------------------------

  /** The field or spread is reached from the selections without passing through anything deferred. */
  ghost predicate ReachesHere(ctx: Context, selections: seq<Selection>, x: Selection, depth: nat)
    decreases depth, 1
  {
    exists i :: 0 <= i < |selections| && ReachesHereBy(ctx, selections[i], x, depth)
  }

  ghost predicate ReachesHereBy(ctx: Context, s: Selection, x: Selection, depth: nat)
    decreases depth, 0
  {
    && IsIncluded(ctx, s)
    && match s
       case Field(_, _, _, _, _, _) => s == x
       case InlineFragment(condition, _, _, _, body) =>
         Matches(ctx, condition) && !IsDeferred(ctx, s) && depth > 0 && ReachesHere(ctx, body, x, depth - 1)
       case Spread(name, _, _, _) =>
         Applies(ctx, s) && !IsDeferred(ctx, s) &&
         (s == x || (depth > 0 && ReachesHere(ctx, ctx.fragments[name].body, x, depth - 1)))
  }

  ghost predicate IsFieldHere(ctx: Context, selections: seq<Selection>, f: Selection) {
    f.Field? && exists depth: nat :: ReachesHere(ctx, selections, f, depth)
  }

  ghost predicate IsSpreadHere(ctx: Context, selections: seq<Selection>, name: Name) {
    exists x: Selection, depth: nat :: x.Spread? && x.fragment == name && ReachesHere(ctx, selections, x, depth)
  }

  /** The fields that stand in the selections themselves, not deferred. */
  function Own(ctx: Context, selections: seq<Selection>): set<Selection>
    decreases selections, 0
  {
    if selections == [] then {} else OwnOfOne(ctx, selections[0]) + Own(ctx, selections[1..])
  }

  function OwnOfOne(ctx: Context, s: Selection): set<Selection>
    decreases s, 1
  {
    if !IsIncluded(ctx, s) then {}
    else
      match s
      case Field(_, _, _, _, _, _) => {s}
      case InlineFragment(condition, _, _, _, body) =>
        if Matches(ctx, condition) && !IsDeferred(ctx, s) then Own(ctx, body) else {}
      case Spread(_, _, _, _) => {}
  }

  // ---------------------------------------------------------------------------
  // The fragments spread without defer, in the order of a plain search
  // ---------------------------------------------------------------------------

  function Left(ctx: Context, seen: set<Name>): nat {
    |ctx.fragments.Keys - seen|
  }

  lemma {:induction false} SeenLeavesFewer(ctx: Context, seen: set<Name>, seen': set<Name>)
    requires seen <= seen'
    ensures Left(ctx, seen') <= Left(ctx, seen)
  {
    Graphs.SubsetSize(ctx.fragments.Keys - seen', ctx.fragments.Keys - seen);
  }

  lemma {:induction false} EnteringUsesOne(ctx: Context, seen: set<Name>, name: Name)
    requires name in ctx.fragments && name !in seen
    ensures Left(ctx, seen + {name}) < Left(ctx, seen)
  {
    Graphs.FewerLeft(ctx.fragments.Keys, seen, seen + {name}, name);
  }

  /** The fragments seen after a search of the selections that leaves out whatever is deferred. */
  function Entered(ctx: Context, selections: seq<Selection>, seen: set<Name>): (r: set<Name>)
    ensures seen <= r
    decreases Left(ctx, seen), selections, 0
  {
    if selections == [] then seen
    else
      var first := EnteredByOne(ctx, selections[0], seen);
      SeenLeavesFewer(ctx, seen, first);
      Entered(ctx, selections[1..], first)
  }

  function EnteredByOne(ctx: Context, s: Selection, seen: set<Name>): (r: set<Name>)
    ensures seen <= r
    decreases Left(ctx, seen), s, 1
  {
    if !IsIncluded(ctx, s) then seen
    else
      match s
      case Field(_, _, _, _, _, _) => seen
      case InlineFragment(condition, _, _, _, body) =>
        if Matches(ctx, condition) && !IsDeferred(ctx, s) then Entered(ctx, body, seen) else seen
      case Spread(name, _, _, _) =>
        if !Applies(ctx, s) || IsDeferred(ctx, s) || name in seen then seen
        else
          EnteringUsesOne(ctx, seen, name);
          Entered(ctx, ctx.fragments[name].body, seen + {name})
  }

  // ---------------------------------------------------------------------------
  // The condition
  // ---------------------------------------------------------------------------

  /** The selections lead to a spread of the fragment without defer, through fragments that are not to be avoided. */
  ghost predicate Leads(ctx: Context, selections: seq<Selection>, avoid: set<Name>, name: Name, depth: nat)
    decreases depth, 1
  {
    exists i :: 0 <= i < |selections| && LeadsBy(ctx, selections[i], avoid, name, depth)
  }

  ghost predicate LeadsBy(ctx: Context, s: Selection, avoid: set<Name>, name: Name, depth: nat)
    decreases depth, 0
  {
    && IsIncluded(ctx, s)
    && match s
       case Field(_, _, _, _, _, _) => false
       case InlineFragment(condition, _, _, _, body) =>
         Matches(ctx, condition) && depth > 0 && Leads(ctx, body, avoid, name, depth - 1)
       case Spread(n, _, _, _) =>
         Applies(ctx, s) && n !in avoid &&
         ((!IsDeferred(ctx, s) && n == name)
          || (depth > 0 && Leads(ctx, ctx.fragments[n].body, avoid, name, depth - 1)))
  }

  ghost predicate LeadsTo(ctx: Context, selections: seq<Selection>, avoid: set<Name>, name: Name) {
    exists depth: nat :: Leads(ctx, selections, avoid, name, depth)
  }

  /** What is deferred here leads to none of the fragments, except through fragments seen before. */
  ghost predicate TakesNone(ctx: Context, selections: seq<Selection>, seen: set<Name>, all: set<Name>) {
    forall n | n in all :: !LeadsTo(ctx, selections, seen, n)
  }

  /** Along the plain search, nothing that is deferred takes one of the fragments before it is seen. */
  ghost predicate IsClear(ctx: Context, selections: seq<Selection>, seen: set<Name>, all: set<Name>)
    decreases Left(ctx, seen), selections, 0
  {
    selections == [] ||
    (var first := EnteredByOne(ctx, selections[0], seen);
     SeenLeavesFewer(ctx, seen, first);
     IsClearOne(ctx, selections[0], seen, all) && IsClear(ctx, selections[1..], first, all))
  }

  ghost predicate IsClearOne(ctx: Context, s: Selection, seen: set<Name>, all: set<Name>)
    decreases Left(ctx, seen), s, 1
  {
    IsIncluded(ctx, s) ==>
      match s
      case Field(_, _, _, _, _, _) => true
      case InlineFragment(condition, _, _, _, body) =>
        Matches(ctx, condition) ==>
          if IsDeferred(ctx, s) then TakesNone(ctx, body, seen, all) else IsClear(ctx, body, seen, all)
      case Spread(name, _, _, _) =>
        Applies(ctx, s) && name !in seen ==>
          var body := ctx.fragments[name].body;
          EnteringUsesOne(ctx, seen, name);
          if IsDeferred(ctx, s) then TakesNone(ctx, body, seen, all) else IsClear(ctx, body, seen + {name}, all)
  }

  // ---------------------------------------------------------------------------
  // Every spread has been visited as it is
  // ---------------------------------------------------------------------------

  ghost predicate Visited(ctx: Context, selections: seq<Selection>, visited: Visits)
    decreases selections, 0
  {
    forall i | 0 <= i < |selections| :: VisitedOne(ctx, selections[i], visited)
  }

  ghost predicate VisitedOne(ctx: Context, s: Selection, visited: Visits)
    decreases s, 1
  {
    IsIncluded(ctx, s) ==>
      match s
      case Field(_, _, _, _, _, _) => true
      case InlineFragment(condition, _, _, _, body) => Matches(ctx, condition) ==> Visited(ctx, body, visited)
      case Spread(name, _, _, _) =>
        Applies(ctx, s) ==> name in visited.Keys && (!IsDeferred(ctx, s) ==> name in Undeferred(visited))
  }

  ghost predicate AllVisited(ctx: Context, among: set<Name>, visited: Visits) {
    forall n | n in among :: n in ctx.fragments && Visited(ctx, ctx.fragments[n].body, visited)
  }

  lemma {:induction false} VisitedMore(ctx: Context, selections: seq<Selection>, visited: Visits, visited': Visits)
    requires Visited(ctx, selections, visited) && Grown(visited, visited')
    ensures Visited(ctx, selections, visited')
    decreases selections, 0
  {
    forall i | 0 <= i < |selections| ensures VisitedOne(ctx, selections[i], visited') {
      VisitedOneMore(ctx, selections[i], visited, visited');
    }
  }

  lemma {:induction false} VisitedOneMore(ctx: Context, s: Selection, visited: Visits, visited': Visits)
    requires VisitedOne(ctx, s, visited) && Grown(visited, visited')
    ensures VisitedOne(ctx, s, visited')
    decreases s, 1
  {
    hide Undeferred;
    KeysGrow(visited, visited');
    hide Grown;
    if s.InlineFragment? && IsIncluded(ctx, s) && Matches(ctx, s.condition) {
      VisitedMore(ctx, s.body, visited, visited');
    }
  }

  lemma {:induction false} AllVisitedMore(ctx: Context, among: set<Name>, visited: Visits, visited': Visits)
    requires AllVisited(ctx, among, visited) && Grown(visited, visited')
    ensures AllVisited(ctx, among, visited')
  {
    hide Visited, Grown;
    forall n | n in among ensures Visited(ctx, ctx.fragments[n].body, visited') {
      VisitedMore(ctx, ctx.fragments[n].body, visited, visited');
    }
  }

  /** Collecting visits every spread of the selections and of the fragments newly visited. */
  lemma {:induction false} CollectVisits(ctx: Context, selections: seq<Selection>, usage: Option<DeferUsage>,
      visited: Visits)
    ensures var r := Collect(ctx, selections, usage, visited);
            && Visited(ctx, selections, r.visited)
            && AllVisited(ctx, r.visited.Keys - visited.Keys, r.visited)
    decreases VisitsLeft(ctx, visited), selections, 0
  {
    CollectNothing(ctx, usage, visited);
    if selections == [] {
      return;
    }
    CollectStep(ctx, selections, usage, visited);
    hide Collect, CollectOne, VisitsLeft, Visited, VisitedOne, AllVisited, Grown;
    var first := CollectOne(ctx, selections[0], usage, visited);
    var rest := Collect(ctx, selections[1..], usage, first.visited);
    OneVisits(ctx, selections[0], usage, visited);
    CollectVisits(ctx, selections[1..], usage, first.visited);
    VisitedOneMore(ctx, selections[0], first.visited, rest.visited);
    VisitedCons(ctx, selections, rest.visited);
    AllVisitedMore(ctx, first.visited.Keys - visited.Keys, first.visited, rest.visited);
    AllVisitedBoth(ctx, visited.Keys, first.visited, rest.visited);
  }

  lemma {:induction false} VisitedCons(ctx: Context, selections: seq<Selection>, visited: Visits)
    requires selections != [] && VisitedOne(ctx, selections[0], visited) && Visited(ctx, selections[1..], visited)
    ensures Visited(ctx, selections, visited)
  {
    hide VisitedOne;
    forall i | 0 <= i < |selections| ensures VisitedOne(ctx, selections[i], visited) {
      assert i > 0 ==> selections[i] == selections[1..][i - 1];
    }
  }

  lemma {:induction false} AllVisitedBoth(ctx: Context, before: set<Name>, middle: Visits, after: Visits)
    requires AllVisited(ctx, middle.Keys - before, after) && AllVisited(ctx, after.Keys - middle.Keys, after)
    ensures AllVisited(ctx, after.Keys - before, after)
  {
    hide Visited;
  }

  lemma {:induction false} OneVisits(ctx: Context, s: Selection, usage: Option<DeferUsage>, visited: Visits)
    ensures var r := CollectOne(ctx, s, usage, visited);
            && VisitedOne(ctx, s, r.visited)
            && AllVisited(ctx, r.visited.Keys - visited.Keys, r.visited)
    decreases VisitsLeft(ctx, visited), s, 1
  {
    IdleStep(ctx, s, usage, visited);
    if !s.Field? {
      DeferredMeans(ctx, s, usage);
    }
    hide Collect, CollectOne, VisitsLeft, IsIncluded, Matches, NewUsage, Visited, IsDeferred, Grown, Undeferred,
        Skips, AllVisited;
    NoneVisited(ctx, visited);
    if s.InlineFragment? && IsIncluded(ctx, s) && Matches(ctx, s.condition) {
      InlineStep(ctx, s, usage, visited);
      CollectVisits(ctx, s.body, UsageUnder(NewUsage(ctx, s.defer, usage), usage), visited);
    } else if s.Spread? && Expands(ctx, s, usage, visited) {
      ExpandStep(ctx, s, usage, visited);
      var newUsage := NewUsage(ctx, s.defer, usage);
      var visited' := visited[s.fragment := newUsage.Some?];
      var inner := Collect(ctx, ctx.fragments[s.fragment].body, UsageUnder(newUsage, usage), visited');
      CollectVisits(ctx, ctx.fragments[s.fragment].body, UsageUnder(newUsage, usage), visited');
      ExpandedIsVisited(ctx, s.fragment, visited, newUsage.Some?, inner.visited);
    } else if s.Spread? && Applies(ctx, s) {
      SkippedIsVisited(visited, s.fragment, NewUsage(ctx, s.defer, usage).Some?);
    }
  }

  lemma {:induction false} NoneVisited(ctx: Context, visited: Visits)
    ensures AllVisited(ctx, visited.Keys - visited.Keys, visited)
  {
  }

  lemma {:induction false} ExpandedIsVisited(ctx: Context, name: Name, visited: Visits, deferred: bool, all: Visits)
    requires name in ctx.fragments && !Skips(visited, name, deferred)
    requires Grown(visited[name := deferred], all) && Visited(ctx, ctx.fragments[name].body, all)
    requires AllVisited(ctx, all.Keys - visited[name := deferred].Keys, all)
    ensures AllVisited(ctx, all.Keys - visited.Keys, all)
    ensures name in all.Keys && (!deferred ==> name in Undeferred(all))
  {
    UndeferredAfter(visited, name, deferred);
    KeysGrow(visited[name := deferred], all);
    hide Visited, Undeferred, Grown;
  }

  lemma {:induction false} SkippedIsVisited(visited: Visits, name: Name, deferred: bool)
    requires Skips(visited, name, deferred)
    ensures name in visited.Keys && (!deferred ==> name in Undeferred(visited))
  {
  }

  // ---------------------------------------------------------------------------
  // What collecting visits without defer
  // ---------------------------------------------------------------------------

  /** A fragment newly visited without defer is led to, through fragments not visited so before. */
  lemma {:induction false} NewlyUndeferred(ctx: Context, selections: seq<Selection>, usage: Option<DeferUsage>,
      visited: Visits, avoid: set<Name>, name: Name)
    returns (depth: nat)
    requires avoid <= Undeferred(visited) && name !in Undeferred(visited)
    requires name in Undeferred(Collect(ctx, selections, usage, visited).visited)
    ensures Leads(ctx, selections, avoid, name, depth)
    decreases VisitsLeft(ctx, visited), selections, 0
  {
    CollectNothing(ctx, usage, visited);
    var first := CollectOne(ctx, selections[0], usage, visited);
    CollectStep(ctx, selections, usage, visited);
    KeysGrow(visited, first.visited);
    hide Collect, CollectOne, VisitsLeft, LeadsBy, Undeferred;
    if name in Undeferred(first.visited) {
      depth := NewlyUndeferredByOne(ctx, selections[0], usage, visited, avoid, name);
    } else {
      depth := NewlyUndeferred(ctx, selections[1..], usage, first.visited, avoid, name);
      var i :| 0 <= i < |selections[1..]| && LeadsBy(ctx, selections[1..][i], avoid, name, depth);
      assert LeadsBy(ctx, selections[i + 1], avoid, name, depth);
    }
  }

  lemma {:induction false} NewlyUndeferredByOne(ctx: Context, s: Selection, usage: Option<DeferUsage>,
      visited: Visits, avoid: set<Name>, name: Name)
    returns (depth: nat)
    requires avoid <= Undeferred(visited) && name !in Undeferred(visited)
    requires name in Undeferred(CollectOne(ctx, s, usage, visited).visited)
    ensures LeadsBy(ctx, s, avoid, name, depth)
    decreases VisitsLeft(ctx, visited), s, 1
  {
    IdleStep(ctx, s, usage, visited);
    if !s.Field? {
      DeferredMeans(ctx, s, usage);
    }
    hide Collect, CollectOne, VisitsLeft, IsIncluded, Matches, NewUsage, Skips, Leads, IsDeferred;
    depth := 0;
    match s
    case Field(_, _, _, _, _, _) =>
    case InlineFragment(_, _, _, defer, body) =>
      InlineStep(ctx, s, usage, visited);
      depth := NewlyUndeferred(ctx, body, UsageUnder(NewUsage(ctx, defer, usage), usage), visited, avoid, name);
      depth := depth + 1;
    case Spread(n, _, _, defer) =>
      ExpandStep(ctx, s, usage, visited);
      var newUsage := NewUsage(ctx, defer, usage);
      var visited' := visited[n := newUsage.Some?];
      VisitGrows(visited, n, newUsage.Some?);
      KeysGrow(visited, visited');
      UndeferredAfter(visited, n, newUsage.Some?);
      hide Undeferred;
      if name !in Undeferred(visited') {
        depth := NewlyUndeferred(ctx, ctx.fragments[n].body, UsageUnder(newUsage, usage), visited', avoid, name);
        depth := depth + 1;
      }
  }

  lemma {:induction false} UndeferredAfter(visited: Visits, name: Name, deferred: bool)
    requires !Skips(visited, name, deferred)
    ensures Undeferred(visited[name := deferred]) == Undeferred(visited) + if deferred then {} else {name}
    ensures visited[name := deferred].Keys == visited.Keys + {name}
  {
  }

  /** Where everything but what is avoided has been visited, what is led to has been visited without defer. */
  lemma {:induction false} LedToIsUndeferred(ctx: Context, selections: seq<Selection>, avoid: set<Name>, name: Name,
      depth: nat, visited: Visits)
    requires Visited(ctx, selections, visited) && AllVisited(ctx, visited.Keys - avoid, visited)
    requires Leads(ctx, selections, avoid, name, depth)
    ensures name in Undeferred(visited) && name !in avoid
    decreases depth, 1
  {
    hide Undeferred;
    var i :| 0 <= i < |selections| && LeadsBy(ctx, selections[i], avoid, name, depth);
    LedToByIsUndeferred(ctx, selections[i], avoid, name, depth, visited);
  }

  lemma {:induction false} LedToByIsUndeferred(ctx: Context, s: Selection, avoid: set<Name>, name: Name, depth: nat,
      visited: Visits)
    requires VisitedOne(ctx, s, visited) && AllVisited(ctx, visited.Keys - avoid, visited)
    requires LeadsBy(ctx, s, avoid, name, depth)
    ensures name in Undeferred(visited) && name !in avoid
    decreases depth, 0
  {
    hide Undeferred, Visited, Leads, IsIncluded, Matches, IsDeferred;
    match s
    case Field(_, _, _, _, _, _) =>
    case InlineFragment(_, _, _, _, body) => LedToIsUndeferred(ctx, body, avoid, name, depth - 1, visited);
    case Spread(n, _, _, _) =>
      if IsDeferred(ctx, s) || n != name {
        assert n in visited.Keys - avoid;
        LedToIsUndeferred(ctx, ctx.fragments[n].body, avoid, name, depth - 1, visited);
      }
  }

  // ---------------------------------------------------------------------------
  // What is expanded under the incoming usage
  // ---------------------------------------------------------------------------

  /** The usage is one for something deferred under the other. */
  predicate IsInside(u: Option<DeferUsage>, usage: Option<DeferUsage>)
    decreases u
  {
    u.Some? && (u.value.parent == usage || IsInside(u.value.parent, usage))
  }

  function Levels(u: Option<DeferUsage>): nat {
    if u.None? then 0 else 1 + Levels(u.value.parent)
  }

  lemma {:induction false} InsideDiffers(u: Option<DeferUsage>, usage: Option<DeferUsage>)
    requires IsInside(u, usage)
    ensures Levels(u) > Levels(usage) && u != usage
    decreases u
  {
    if u.value.parent != usage {
      InsideDiffers(u.value.parent, usage);
    }
  }

  /** Nothing in the collection has the usage. */
  ghost predicate IsAway(r: Collection, usage: Option<DeferUsage>) {
    && (forall i | 0 <= i < |r.fields| :: IsInside(r.fields[i].usage, usage))
    && (forall i | 0 <= i < |r.expanded| :: IsInside(r.expanded[i].usage, usage))
  }

  lemma {:induction false} AwayThen(first: Collection, rest: Collection, usage: Option<DeferUsage>)
    requires IsAway(first, usage) && IsAway(rest, usage)
    ensures IsAway(Then(first, rest), usage)
  {
    hide IsInside;
  }

  /** Within something deferred nothing is collected under the usage outside. */
  lemma {:induction false} CollectsAway(ctx: Context, selections: seq<Selection>, u: Option<DeferUsage>,
      visited: Visits, usage: Option<DeferUsage>)
    requires IsInside(u, usage)
    ensures IsAway(Collect(ctx, selections, u, visited), usage)
    decreases VisitsLeft(ctx, visited), selections, 0
  {
    CollectNothing(ctx, u, visited);
    if selections == [] {
      return;
    }
    CollectStep(ctx, selections, u, visited);
    hide Collect, CollectOne, VisitsLeft, IsInside, IsAway;
    var first := CollectOne(ctx, selections[0], u, visited);
    CollectsOneAway(ctx, selections[0], u, visited, usage);
    CollectsAway(ctx, selections[1..], u, first.visited, usage);
    AwayThen(first, Collect(ctx, selections[1..], u, first.visited), usage);
  }

  lemma {:induction false} CollectsOneAway(ctx: Context, s: Selection, u: Option<DeferUsage>, visited: Visits,
      usage: Option<DeferUsage>)
    requires IsInside(u, usage)
    ensures IsAway(CollectOne(ctx, s, u, visited), usage)
    decreases VisitsLeft(ctx, visited), s, 1
  {
    IdleStep(ctx, s, u, visited);
    if !s.Field? {
      InsideUnder(ctx, s, u, usage);
    }
    hide Collect, CollectOne, VisitsLeft, IsIncluded, Matches, NewUsage, IsInside, Skips, IsAway, Under, UsageUnder;
    if s.InlineFragment? && IsIncluded(ctx, s) && Matches(ctx, s.condition) {
      InlineStep(ctx, s, u, visited);
      var newUsage := NewUsage(ctx, s.defer, u);
      CollectsAway(ctx, s.body, UsageUnder(newUsage, u), visited, usage);
      AwayUnder(newUsage, Collect(ctx, s.body, UsageUnder(newUsage, u), visited), usage);
    } else if s.Spread? && Expands(ctx, s, u, visited) {
      ExpandStep(ctx, s, u, visited);
      var newUsage := NewUsage(ctx, s.defer, u);
      var visited' := visited[s.fragment := newUsage.Some?];
      CollectsAway(ctx, ctx.fragments[s.fragment].body, UsageUnder(newUsage, u), visited', usage);
      var inner := Collect(ctx, ctx.fragments[s.fragment].body, UsageUnder(newUsage, u), visited');
      AwayExpanded(Expansion(s.fragment, UsageUnder(newUsage, u)), inner, usage);
      AwayUnder(newUsage, inner.(expanded := [Expansion(s.fragment, UsageUnder(newUsage, u))] + inner.expanded), usage);
    } else {
      IdleIsAway(CollectOne(ctx, s, u, visited), s, u, usage);
    }
  }

  lemma {:induction false} IdleIsAway(r: Collection, s: Selection, u: Option<DeferUsage>, usage: Option<DeferUsage>)
    requires IsInside(u, usage)
    ensures r.expanded == [] && (r.fields == [] || r.fields == [FieldDetails(s, u)]) ==> IsAway(r, usage)
  {
    hide IsInside;
  }

  lemma {:induction false} AwayUnder(newUsage: Option<DeferUsage>, r: Collection, usage: Option<DeferUsage>)
    requires IsAway(r, usage)
    ensures IsAway(Under(newUsage, r), usage)
  {
    hide IsInside;
  }

  lemma {:induction false} AwayExpanded(e: Expansion, r: Collection, usage: Option<DeferUsage>)
    requires IsAway(r, usage) && IsInside(e.usage, usage)
    ensures IsAway(r.(expanded := [e] + r.expanded), usage)
  {
    hide IsInside;
  }

  lemma {:induction false} InsideUnder(ctx: Context, s: Selection, u: Option<DeferUsage>, usage: Option<DeferUsage>)
    requires !s.Field?
    ensures IsInside(u, usage) ==> IsInside(UsageUnder(NewUsage(ctx, s.defer, u), u), usage)
    ensures u == usage && IsDeferred(ctx, s) ==> IsInside(UsageUnder(NewUsage(ctx, s.defer, u), u), usage)
    ensures !IsDeferred(ctx, s) ==> UsageUnder(NewUsage(ctx, s.defer, u), u) == u
  {
    DeferredMeans(ctx, s, u);
  }

  /** The fragments expanded under the usage. */
  function ExpandedUnder(expanded: seq<Expansion>, usage: Option<DeferUsage>): set<Name> {
    set i | 0 <= i < |expanded| && expanded[i].usage == usage :: expanded[i].name
  }

  lemma {:induction false} ExpandedThen(xs: seq<Expansion>, ys: seq<Expansion>, usage: Option<DeferUsage>)
    ensures ExpandedUnder(xs + ys, usage) == ExpandedUnder(xs, usage) + ExpandedUnder(ys, usage)
  {
    var all := xs + ys;
    forall n ensures n in ExpandedUnder(all, usage) <==> n in ExpandedUnder(xs, usage) + ExpandedUnder(ys, usage) {
      if n in ExpandedUnder(xs, usage) {
        var i :| 0 <= i < |xs| && xs[i].usage == usage && xs[i].name == n;
        assert all[i] == xs[i];
      }
      if n in ExpandedUnder(ys, usage) {
        var i :| 0 <= i < |ys| && ys[i].usage == usage && ys[i].name == n;
        assert all[|xs| + i] == ys[i];
      }
    }
  }

  lemma {:induction false} AwayExpandsNone(r: Collection, usage: Option<DeferUsage>)
    requires IsAway(r, usage)
    ensures ExpandedUnder(r.expanded, usage) == {}
    ensures forall i | 0 <= i < |r.fields| :: r.fields[i].usage != usage
  {
    forall i | 0 <= i < |r.expanded| ensures r.expanded[i].usage != usage {
      InsideDiffers(r.expanded[i].usage, usage);
    }
    forall i | 0 <= i < |r.fields| ensures r.fields[i].usage != usage {
      InsideDiffers(r.fields[i].usage, usage);
    }
  }

  /** What was visited without defer before is not expanded again. */
  lemma {:induction false} NotExpandedAgain(ctx: Context, selections: seq<Selection>, u: Option<DeferUsage>,
      visited: Visits, usage: Option<DeferUsage>, name: Name)
    requires name in Undeferred(visited)
    ensures name !in ExpandedUnder(Collect(ctx, selections, u, visited).expanded, usage)
  {
    ExpansionsAreCounted(ctx, selections, u, visited, name);
    hide Collect;
    TimesOfExpanded(Collect(ctx, selections, u, visited).expanded, name);
  }

  lemma {:induction false} TimesOfExpanded(expanded: seq<Expansion>, name: Name)
    ensures TimesExpanded(expanded, name) == 0 ==> forall i | 0 <= i < |expanded| :: expanded[i].name != name
  {
    if expanded != [] {
      TimesOfExpanded(expanded[1..], name);
    }
  }

  // ---------------------------------------------------------------------------
  // Kept under the incoming usage, or lost to something deferred
  // ---------------------------------------------------------------------------

  /**
   The plain search is where collecting is: of the fragments in question those seen are the
   ones visited without defer, and all the rest that is visited has been gone through.
   */
  ghost predicate InStep(ctx: Context, visited: Visits, seen: set<Name>, all: set<Name>) {
    Undeferred(visited) * all == seen && AllVisited(ctx, visited.Keys - seen, visited)
  }

  ghost predicate IsKept(ctx: Context, r: Collection, usage: Option<DeferUsage>, seen: set<Name>, seen': set<Name>,
      all: set<Name>) {
    InStep(ctx, r.visited, seen', all) && ExpandedUnder(r.expanded, usage) == seen' - seen
  }

  /** One of the fragments has been visited without defer, but not under the usage. */
  ghost predicate IsLost(r: Collection, usage: Option<DeferUsage>, seen: set<Name>, all: set<Name>) {
    exists n :: n in all && n !in seen && n in Undeferred(r.visited) && n !in ExpandedUnder(r.expanded, usage)
  }

  lemma {:induction false} KeptThen(ctx: Context, first: Collection, rest: Collection, usage: Option<DeferUsage>,
      seen: set<Name>, seen1: set<Name>, seen2: set<Name>, all: set<Name>)
    requires seen <= seen1 <= seen2 && IsKept(ctx, first, usage, seen, seen1, all)
    ensures IsKept(ctx, rest, usage, seen1, seen2, all) ==> IsKept(ctx, Then(first, rest), usage, seen, seen2, all)
    ensures IsLost(rest, usage, seen1, all) ==> IsLost(Then(first, rest), usage, seen, all)
  {
    ExpandedThen(first.expanded, rest.expanded, usage);
    hide InStep, ExpandedUnder, Undeferred;
  }

  lemma {:induction false} LostThen(ctx: Context, first: Collection, selections: seq<Selection>,
      usage: Option<DeferUsage>, seen: set<Name>, all: set<Name>)
    requires IsLost(first, usage, seen, all)
    ensures IsLost(Then(first, Collect(ctx, selections, usage, first.visited)), usage, seen, all)
  {
    var rest := Collect(ctx, selections, usage, first.visited);
    KeysGrow(first.visited, rest.visited);
    hide Collect, ExpandedUnder, Undeferred;
    var n :| n in all && n !in seen && n in Undeferred(first.visited) && n !in ExpandedUnder(first.expanded, usage);
    NotExpandedAgain(ctx, selections, usage, first.visited, usage, n);
    ExpandedThen(first.expanded, rest.expanded, usage);
  }

  lemma {:induction false} EnteredStep(ctx: Context, selections: seq<Selection>, seen: set<Name>, all: set<Name>)
    requires selections != []
    ensures var first := EnteredByOne(ctx, selections[0], seen);
            && seen <= first <= Entered(ctx, selections[1..], first)
            && Entered(ctx, selections, seen) == Entered(ctx, selections[1..], first)
            && (IsClear(ctx, selections, seen, all) <==>
                IsClearOne(ctx, selections[0], seen, all) && IsClear(ctx, selections[1..], first, all))
  {
    hide EnteredByOne, IsClearOne;
  }

  /**
   Collecting under the usage keeps up with the plain search as long as the way is clear,
   and from then on has lost a fragment.
   */
  lemma {:induction false} KeptOrLost(ctx: Context, selections: seq<Selection>, usage: Option<DeferUsage>,
      visited: Visits, seen: set<Name>, all: set<Name>)
    requires InStep(ctx, visited, seen, all) && Entered(ctx, selections, seen) <= all
    ensures var r := Collect(ctx, selections, usage, visited);
            && (IsClear(ctx, selections, seen, all) ==>
                  IsKept(ctx, r, usage, seen, Entered(ctx, selections, seen), all))
            && (!IsClear(ctx, selections, seen, all) ==> IsLost(r, usage, seen, all))
    decreases VisitsLeft(ctx, visited), selections, 0
  {
    CollectNothing(ctx, usage, visited);
    if selections == [] {
      return;
    }
    CollectStep(ctx, selections, usage, visited);
    EnteredStep(ctx, selections, seen, all);
    hide Collect, CollectOne, VisitsLeft, Entered, EnteredByOne, IsClear, IsClearOne, InStep, IsLost, Then;
    var first := CollectOne(ctx, selections[0], usage, visited);
    var seen1 := EnteredByOne(ctx, selections[0], seen);
    KeptOrLostByOne(ctx, selections[0], usage, visited, seen, all);
    if IsClearOne(ctx, selections[0], seen, all) {
      KeptOrLost(ctx, selections[1..], usage, first.visited, seen1, all);
      KeptThen(ctx, first, Collect(ctx, selections[1..], usage, first.visited), usage, seen, seen1,
          Entered(ctx, selections[1..], seen1), all);
    } else {
      LostThen(ctx, first, selections[1..], usage, seen, all);
    }
  }

  lemma {:induction false} KeptOrLostByOne(ctx: Context, s: Selection, usage: Option<DeferUsage>,
      visited: Visits, seen: set<Name>, all: set<Name>)
    requires InStep(ctx, visited, seen, all) && EnteredByOne(ctx, s, seen) <= all
    ensures var r := CollectOne(ctx, s, usage, visited);
            && (IsClearOne(ctx, s, seen, all) ==> IsKept(ctx, r, usage, seen, EnteredByOne(ctx, s, seen), all))
            && (!IsClearOne(ctx, s, seen, all) ==> IsLost(r, usage, seen, all))
    decreases VisitsLeft(ctx, visited), s, 1
  {
    IdleStep(ctx, s, usage, visited);
    NothingExpanded(usage);
    if s.InlineFragment? && IsIncluded(ctx, s) && Matches(ctx, s.condition) {
      InlineStep(ctx, s, usage, visited);
      InsideUnder(ctx, s, usage, usage);
      hide Collect, CollectOne, VisitsLeft, Entered, IsClear, InStep, TakesNone, NewUsage, IsInside;
      hide ExpandedUnder, Undeferred;
      if IsDeferred(ctx, s) {
        InStepMeans(ctx, visited, seen, all);
        DeferredTakes(ctx, s.body, UsageUnder(NewUsage(ctx, s.defer, usage), usage), visited, {}, usage, seen, all);
      } else {
        KeptOrLost(ctx, s.body, usage, visited, seen, all);
      }
    } else if s.Spread? && Applies(ctx, s) {
      hide Collect, CollectOne, VisitsLeft, Entered, IsClear, InStep, TakesNone, NewUsage, IsInside, Skips;
      hide ExpandedUnder, Undeferred, IsKept, IsLost, EnteredByOne, IsClearOne;
      if !Expands(ctx, s, usage, visited) {
        SkippedIsClear(ctx, s, usage, visited, seen, all);
      } else if IsDeferred(ctx, s) {
        DeferredSpreadTakes(ctx, s, usage, visited, seen, all);
      } else {
        EntersWith(ctx, s, usage, visited, seen, all);
        ExpandStep(ctx, s, usage, visited);
        InsideUnder(ctx, s, usage, usage);
        DeferredMeans(ctx, s, usage);
        var visited' := visited[s.fragment := false];
        KeptOrLost(ctx, ctx.fragments[s.fragment].body, usage, visited', seen + {s.fragment}, all);
        ExpandedFirst(ctx, s, usage, Collect(ctx, ctx.fragments[s.fragment].body, usage, visited'), seen, all);
      }
    }
  }

  lemma {:induction false} NothingExpanded(usage: Option<DeferUsage>)
    ensures ExpandedUnder([], usage) == {}
  {
  }

  lemma {:induction false} InStepMeans(ctx: Context, visited: Visits, seen: set<Name>, all: set<Name>)
    requires InStep(ctx, visited, seen, all)
    ensures Undeferred(visited) * all == seen && AllVisited(ctx, visited.Keys - seen - {}, visited)
  {
    assert visited.Keys - seen - {} == visited.Keys - seen;
  }

  /**
   Something deferred is gone through, perhaps as the body of a fragment that has just been
   visited: it loses a fragment exactly when it leads to one.
   */
  lemma {:induction false} DeferredTakes(ctx: Context, selections: seq<Selection>, u: Option<DeferUsage>,
      visited: Visits, pending: set<Name>, usage: Option<DeferUsage>, seen: set<Name>, all: set<Name>)
    requires IsInside(u, usage) && Undeferred(visited) * all == seen
    requires AllVisited(ctx, visited.Keys - seen - pending, visited)
    requires forall n | n in pending :: n in ctx.fragments && ctx.fragments[n].body == selections
    ensures var r := Collect(ctx, selections, u, visited);
            && ExpandedUnder(r.expanded, usage) == {}
            && (TakesNone(ctx, selections, seen, all) ==> IsKept(ctx, r, usage, seen, seen, all))
            && (!TakesNone(ctx, selections, seen, all) ==> IsLost(r, usage, seen, all))
  {
    var r := Collect(ctx, selections, u, visited);
    CollectVisits(ctx, selections, u, visited);
    CollectsAway(ctx, selections, u, visited, usage);
    AwayExpandsNone(r, usage);
    AllVisitedMore(ctx, visited.Keys - seen - pending, visited, r.visited);
    KeysGrow(visited, r.visited);
    hide Collect, IsInside, ExpandedUnder, Undeferred, Visited, Leads, Grown;
    assert AllVisited(ctx, r.visited.Keys - seen, r.visited);
    if TakesNone(ctx, selections, seen, all) {
      forall n | n in Undeferred(r.visited) * all ensures n in seen {
        if n !in Undeferred(visited) {
          var depth := NewlyUndeferred(ctx, selections, u, visited, seen, n);
        }
      }
      assert Undeferred(r.visited) * all == seen;
    } else {
      var n :| n in all && LeadsTo(ctx, selections, seen, n);
      var depth: nat :| Leads(ctx, selections, seen, n, depth);
      LedToIsUndeferred(ctx, selections, seen, n, depth, r.visited);
    }
  }

  lemma {:induction false} SpreadUnfolds(ctx: Context, s: Selection, seen: set<Name>, all: set<Name>)
    requires s.Spread? && Applies(ctx, s)
    ensures s.fragment in seen ==> EnteredByOne(ctx, s, seen) == seen && IsClearOne(ctx, s, seen, all)
    ensures s.fragment !in seen ==>
              var body := ctx.fragments[s.fragment].body;
              if IsDeferred(ctx, s) then
                && EnteredByOne(ctx, s, seen) == seen
                && (IsClearOne(ctx, s, seen, all) <==> TakesNone(ctx, body, seen, all))
              else
                && EnteredByOne(ctx, s, seen) == Entered(ctx, body, seen + {s.fragment})
                && (IsClearOne(ctx, s, seen, all) <==> IsClear(ctx, body, seen + {s.fragment}, all))
  {
    hide Entered, IsClear, TakesNone, IsDeferred;
    if s.fragment !in seen {
      EnteringUsesOne(ctx, seen, s.fragment);
    }
  }

  /** A spread that is skipped takes nothing, for its fragment has been seen or gone through. */
  lemma {:induction false} SkippedIsClear(ctx: Context, s: Selection, usage: Option<DeferUsage>, visited: Visits,
      seen: set<Name>, all: set<Name>)
    requires s.Spread? && Applies(ctx, s) && !Expands(ctx, s, usage, visited)
    requires InStep(ctx, visited, seen, all) && EnteredByOne(ctx, s, seen) <= all
    ensures IsClearOne(ctx, s, seen, all)
    ensures IsKept(ctx, CollectOne(ctx, s, usage, visited), usage, seen, EnteredByOne(ctx, s, seen), all)
  {
    var name := s.fragment;
    IdleStep(ctx, s, usage, visited);
    DeferredMeans(ctx, s, usage);
    SkippedIsVisited(visited, name, NewUsage(ctx, s.defer, usage).Some?);
    SpreadUnfolds(ctx, s, seen, all);
    NothingExpanded(usage);
    hide CollectOne, Undeferred, Entered, EnteredByOne, IsClear, IsClearOne, NewUsage, ExpandedUnder, Visited, Leads;
    if name !in seen && IsDeferred(ctx, s) {
      var body := ctx.fragments[name].body;
      if n :| n in all && LeadsTo(ctx, body, seen, n) {
        var depth: nat :| Leads(ctx, body, seen, n, depth);
        assert name in visited.Keys - seen;
        LedToIsUndeferred(ctx, body, seen, n, depth, visited);
        assert false;
      }
    }
  }

  lemma {:induction false} DeferredSpreadTakes(ctx: Context, s: Selection, usage: Option<DeferUsage>, visited: Visits,
      seen: set<Name>, all: set<Name>)
    requires s.Spread? && Expands(ctx, s, usage, visited) && IsDeferred(ctx, s) && InStep(ctx, visited, seen, all)
    ensures var r := CollectOne(ctx, s, usage, visited);
            && (IsClearOne(ctx, s, seen, all) ==> IsKept(ctx, r, usage, seen, EnteredByOne(ctx, s, seen), all))
            && (!IsClearOne(ctx, s, seen, all) ==> IsLost(r, usage, seen, all))
  {
    var name, body := s.fragment, ctx.fragments[s.fragment].body;
    var newUsage := NewUsage(ctx, s.defer, usage);
    var u := UsageUnder(newUsage, usage);
    ExpandStep(ctx, s, usage, visited);
    InsideUnder(ctx, s, usage, usage);
    DeferredMeans(ctx, s, usage);
    SpreadUnfolds(ctx, s, seen, all);
    PendingStep(ctx, s, usage, visited, seen, all);
    hide Collect, CollectOne, Undeferred, EnteredByOne, IsClearOne, NewUsage, ExpandedUnder, Visited, IsInside, Grown;
    hide TakesNone, IsDeferred, Skips, Under, UsageUnder, InStep, IsKept, IsLost, AllVisited;
    var inner := Collect(ctx, body, u, visited[name := true]);
    DeferredTakes(ctx, body, u, visited[name := true], {name}, usage, seen, all);
    InsideDiffers(u, usage);
    ExpandedOther(Expansion(name, u), inner.expanded, usage);
    SameBut(ctx, inner, newUsage, Expansion(name, u), usage, seen, all);
  }

  /** An expansion under another usage, and new usages, make no difference. */
  lemma {:induction false} SameBut(ctx: Context, inner: Collection, newUsage: Option<DeferUsage>, e: Expansion,
      usage: Option<DeferUsage>, seen: set<Name>, all: set<Name>)
    requires e.usage != usage && ExpandedUnder([e] + inner.expanded, usage) == ExpandedUnder(inner.expanded, usage)
    ensures var r := Under(newUsage, inner.(expanded := [e] + inner.expanded));
            && (IsKept(ctx, inner, usage, seen, seen, all) ==> IsKept(ctx, r, usage, seen, seen, all))
            && (IsLost(inner, usage, seen, all) ==> IsLost(r, usage, seen, all))
  {
    hide ExpandedUnder, InStep, Undeferred;
  }

  lemma {:induction false} PendingStep(ctx: Context, s: Selection, usage: Option<DeferUsage>, visited: Visits,
      seen: set<Name>, all: set<Name>)
    requires s.Spread? && Expands(ctx, s, usage, visited) && IsDeferred(ctx, s) && InStep(ctx, visited, seen, all)
    ensures var visited' := visited[s.fragment := true];
            && s.fragment !in seen && Undeferred(visited') * all == seen
            && AllVisited(ctx, visited'.Keys - seen - {s.fragment}, visited')
  {
    var name := s.fragment;
    DeferredMeans(ctx, s, usage);
    VisitGrows(visited, name, true);
    UndeferredAfter(visited, name, true);
    UndeferredAreKeys(visited);
    var visited' := visited[name := true];
    AllVisitedMore(ctx, visited.Keys - seen, visited, visited');
    hide Undeferred, AllVisited, Grown, IsDeferred, NewUsage;
    assert visited'.Keys - seen - {name} == visited.Keys - seen;
  }

  lemma {:induction false} UndeferredAreKeys(visited: Visits)
    ensures Undeferred(visited) <= visited.Keys
  {
  }

  lemma {:induction false} ExpandedOther(e: Expansion, expanded: seq<Expansion>, usage: Option<DeferUsage>)
    ensures ExpandedUnder([e] + expanded, usage) ==
            (if e.usage == usage then {e.name} else {}) + ExpandedUnder(expanded, usage)
  {
    ExpandedThen([e], expanded, usage);
    if e.usage == usage {
      assert [e][0].usage == usage;
    }
    assert ExpandedUnder([e], usage) == if e.usage == usage then {e.name} else {};
  }

  /** The plain search enters a fragment when collecting does. */
  lemma {:induction false} EntersWith(ctx: Context, s: Selection, usage: Option<DeferUsage>, visited: Visits,
      seen: set<Name>, all: set<Name>)
    requires s.Spread? && Expands(ctx, s, usage, visited) && !IsDeferred(ctx, s)
    requires InStep(ctx, visited, seen, all) && EnteredByOne(ctx, s, seen) <= all
    ensures s.fragment !in seen && s.fragment in ctx.fragments
    ensures InStep(ctx, visited[s.fragment := false], seen + {s.fragment}, all)
    ensures Entered(ctx, ctx.fragments[s.fragment].body, seen + {s.fragment}) <= all
  {
    var name := s.fragment;
    DeferredMeans(ctx, s, usage);
    VisitGrows(visited, name, false);
    UndeferredAfter(visited, name, false);
    SpreadUnfolds(ctx, s, seen, all);
    var visited' := visited[name := false];
    AllVisitedMore(ctx, visited.Keys - seen, visited, visited');
    hide Undeferred, Entered, EnteredByOne, IsClear, IsClearOne, NewUsage, Visited, IsDeferred, Skips, Grown;
    assert name in Entered(ctx, ctx.fragments[name].body, seen + {name});
    assert AllVisited(ctx, visited'.Keys - (seen + {name}), visited');
  }

  /** With its body, a fragment that is entered is kept, or something else is lost. */
  lemma {:induction false} ExpandedFirst(ctx: Context, s: Selection, usage: Option<DeferUsage>, inner: Collection,
      seen: set<Name>, all: set<Name>)
    requires s.Spread? && Applies(ctx, s) && !IsDeferred(ctx, s) && s.fragment !in seen
    ensures var name, body := s.fragment, ctx.fragments[s.fragment].body;
            var r := inner.(expanded := [Expansion(name, usage)] + inner.expanded);
            var seen' := Entered(ctx, body, seen + {name});
            && EnteredByOne(ctx, s, seen) == seen'
            && (IsClearOne(ctx, s, seen, all) <==> IsClear(ctx, body, seen + {name}, all))
            && (IsKept(ctx, inner, usage, seen + {name}, seen', all) ==> IsKept(ctx, r, usage, seen, seen', all))
            && (IsLost(inner, usage, seen + {name}, all) ==> IsLost(r, usage, seen, all))
  {
    SpreadUnfolds(ctx, s, seen, all);
    ExpandedOther(Expansion(s.fragment, usage), inner.expanded, usage);
    hide InStep, Entered, EnteredByOne, IsClear, IsClearOne, ExpandedUnder, Undeferred;
  }

  // ---------------------------------------------------------------------------
  // The plain search sees what is reached
  // ---------------------------------------------------------------------------

  /** The fragments that are spread in the selections themselves, not deferred. */
  function Steps(ctx: Context, selections: seq<Selection>): set<Name>
    decreases selections, 0
  {
    if selections == [] then {} else StepsOfOne(ctx, selections[0]) + Steps(ctx, selections[1..])
  }

  function StepsOfOne(ctx: Context, s: Selection): set<Name>
    decreases s, 1
  {
    if !IsIncluded(ctx, s) then {}
    else
      match s
      case Field(_, _, _, _, _, _) => {}
      case InlineFragment(condition, _, _, _, body) =>
        if Matches(ctx, condition) && !IsDeferred(ctx, s) then Steps(ctx, body) else {}
      case Spread(name, _, _, _) => if Applies(ctx, s) && !IsDeferred(ctx, s) then {name} else {}
  }

  /** From each of the fragments every step stays among the names. */
  ghost predicate StepsInside(ctx: Context, among: set<Name>, names: set<Name>) {
    forall n | n in among :: n in ctx.fragments && Steps(ctx, ctx.fragments[n].body) <= names
  }

  lemma {:induction false} EnteredCloses(ctx: Context, selections: seq<Selection>, seen: set<Name>)
    ensures var r := Entered(ctx, selections, seen); Steps(ctx, selections) <= r && StepsInside(ctx, r - seen, r)
    decreases Left(ctx, seen), selections, 0
  {
    if selections == [] {
      return;
    }
    EnteredStep(ctx, selections, seen, {});
    var first := EnteredByOne(ctx, selections[0], seen);
    SeenLeavesFewer(ctx, seen, first);
    hide Entered, EnteredByOne, Left, StepsOfOne;
    EnteredByOneCloses(ctx, selections[0], seen);
    EnteredCloses(ctx, selections[1..], first);
    hide Steps;
  }

  lemma {:induction false} EnteredByOneCloses(ctx: Context, s: Selection, seen: set<Name>)
    ensures var r := EnteredByOne(ctx, s, seen); StepsOfOne(ctx, s) <= r && StepsInside(ctx, r - seen, r)
    decreases Left(ctx, seen), s, 1
  {
    hide Entered, Left, Steps, IsDeferred, Matches;
    if s.InlineFragment? && IsIncluded(ctx, s) && Matches(ctx, s.condition) && !IsDeferred(ctx, s) {
      EnteredCloses(ctx, s.body, seen);
    } else if s.Spread? && Applies(ctx, s) && !IsDeferred(ctx, s) && s.fragment !in seen {
      SpreadUnfolds(ctx, s, seen, {});
      EnteringUsesOne(ctx, seen, s.fragment);
      EnteredCloses(ctx, ctx.fragments[s.fragment].body, seen + {s.fragment});
    }
  }

  /** What the names hold, once they hold every step. */
  lemma {:induction false} ReachedIsOwn(ctx: Context, selections: seq<Selection>, x: Selection, depth: nat,
      names: set<Name>)
    requires Steps(ctx, selections) <= names && StepsInside(ctx, names, names) && ReachesHere(ctx, selections, x, depth)
    ensures x.Field? ==> x in Own(ctx, selections) + OwnOfAll(ctx, names)
    ensures x.Spread? ==> x.fragment in names
    decreases depth, 1, selections
  {
    var i :| 0 <= i < |selections| && ReachesHereBy(ctx, selections[i], x, depth);
    hide ReachesHereBy, StepsOfOne, OwnOfOne, StepsInside, OwnOfAll;
    if i == 0 {
      ReachedByIsOwn(ctx, selections[0], x, depth, names);
    } else {
      assert ReachesHereBy(ctx, selections[1..][i - 1], x, depth);
      ReachedIsOwn(ctx, selections[1..], x, depth, names);
    }
  }

  lemma {:induction false} ReachedByIsOwn(ctx: Context, s: Selection, x: Selection, depth: nat, names: set<Name>)
    requires StepsOfOne(ctx, s) <= names && StepsInside(ctx, names, names) && ReachesHereBy(ctx, s, x, depth)
    ensures x.Field? ==> x in OwnOfOne(ctx, s) + OwnOfAll(ctx, names)
    ensures x.Spread? ==> x.fragment in names
    decreases depth, 0
  {
    hide ReachesHere, Own, Steps, IsDeferred, IsIncluded, Matches;
    match s
    case Field(_, _, _, _, _, _) =>
    case InlineFragment(_, _, _, _, body) => ReachedIsOwn(ctx, body, x, depth - 1, names);
    case Spread(name, _, _, _) =>
      if s != x {
        assert name in names;
        ReachedIsOwn(ctx, ctx.fragments[name].body, x, depth - 1, names);
        OwnIsOwnOfAll(ctx, name, names);
      }
  }

  /** The fields of the fragments' own. */
  function OwnOfAll(ctx: Context, names: set<Name>): set<Selection> {
    set n, f | n in names && n in ctx.fragments && f in Own(ctx, ctx.fragments[n].body) :: f
  }

  lemma {:induction false} OwnIsOwnOfAll(ctx: Context, name: Name, names: set<Name>)
    requires name in names && name in ctx.fragments
    ensures Own(ctx, ctx.fragments[name].body) <= OwnOfAll(ctx, names)
  {
    hide Own;
  }

  lemma {:induction false} OwnIsReached(ctx: Context, selections: seq<Selection>, f: Selection) returns (depth: nat)
    requires f in Own(ctx, selections)
    ensures f.Field? && ReachesHere(ctx, selections, f, depth)
    decreases selections, 0
  {
    hide OwnOfOne, ReachesHereBy;
    if f in OwnOfOne(ctx, selections[0]) {
      depth := OwnOfOneIsReached(ctx, selections[0], f);
    } else {
      depth := OwnIsReached(ctx, selections[1..], f);
      var i :| 0 <= i < |selections[1..]| && ReachesHereBy(ctx, selections[1..][i], f, depth);
      assert ReachesHereBy(ctx, selections[i + 1], f, depth);
    }
  }

  lemma {:induction false} OwnOfOneIsReached(ctx: Context, s: Selection, f: Selection) returns (depth: nat)
    requires f in OwnOfOne(ctx, s)
    ensures f.Field? && ReachesHereBy(ctx, s, f, depth)
    decreases s, 1
  {
    hide Own, ReachesHere, IsDeferred, IsIncluded, Matches;
    depth := 0;
    if s.InlineFragment? {
      depth := OwnIsReached(ctx, s.body, f);
      depth := depth + 1;
    }
  }

  /** What the body of a spread that is reached reaches is reached. */
  lemma {:induction false} ReachedThrough(ctx: Context, selections: seq<Selection>, x: Selection, depth: nat,
      f: Selection, further: nat)
    requires x.Spread? && x.fragment in ctx.fragments
    requires ReachesHere(ctx, selections, x, depth) && ReachesHere(ctx, ctx.fragments[x.fragment].body, f, further)
    ensures ReachesHere(ctx, selections, f, depth + further + 1)
    decreases depth, 1
  {
    hide ReachesHereBy;
    var i :| 0 <= i < |selections| && ReachesHereBy(ctx, selections[i], x, depth);
    ReachedThroughOne(ctx, selections[i], x, depth, f, further);
  }

  lemma {:induction false} ReachedThroughOne(ctx: Context, s: Selection, x: Selection, depth: nat,
      f: Selection, further: nat)
    requires x.Spread? && x.fragment in ctx.fragments
    requires ReachesHereBy(ctx, s, x, depth) && ReachesHere(ctx, ctx.fragments[x.fragment].body, f, further)
    ensures ReachesHereBy(ctx, s, f, depth + further + 1)
    decreases depth, 0
  {
    hide ReachesHere, IsDeferred, IsIncluded, Matches;
    match s
    case Field(_, _, _, _, _, _) =>
    case InlineFragment(_, _, _, _, body) => ReachedThrough(ctx, body, x, depth - 1, f, further);
    case Spread(name, _, _, _) =>
      if s == x {
        ReachesDeeper(ctx, ctx.fragments[name].body, f, further, depth + further);
      } else {
        ReachedThrough(ctx, ctx.fragments[name].body, x, depth - 1, f, further);
      }
  }

  lemma {:induction false} ReachesDeeper(ctx: Context, selections: seq<Selection>, x: Selection, depth: nat, more: nat)
    requires ReachesHere(ctx, selections, x, depth) && depth <= more
    ensures ReachesHere(ctx, selections, x, more)
    decreases depth, 1
  {
    hide ReachesHereBy;
    var i :| 0 <= i < |selections| && ReachesHereBy(ctx, selections[i], x, depth);
    ReachesDeeperBy(ctx, selections[i], x, depth, more);
  }

  lemma {:induction false} ReachesDeeperBy(ctx: Context, s: Selection, x: Selection, depth: nat, more: nat)
    requires ReachesHereBy(ctx, s, x, depth) && depth <= more
    ensures ReachesHereBy(ctx, s, x, more)
    decreases depth, 0
  {
    hide ReachesHere, IsDeferred, IsIncluded, Matches;
    match s
    case Field(_, _, _, _, _, _) =>
    case InlineFragment(_, _, _, _, body) => ReachesDeeper(ctx, body, x, depth - 1, more - 1);
    case Spread(name, _, _, _) =>
      if s != x {
        ReachesDeeper(ctx, ctx.fragments[name].body, x, depth - 1, more - 1);
      }
  }

  lemma {:induction false} EnteredIsReached(ctx: Context, selections: seq<Selection>, seen: set<Name>, name: Name)
    returns (x: Selection, depth: nat)
    requires name in Entered(ctx, selections, seen) && name !in seen
    ensures x.Spread? && x.fragment == name && name in ctx.fragments && ReachesHere(ctx, selections, x, depth)
    decreases Left(ctx, seen), selections, 0
  {
    EnteredNothing(ctx, seen);
    var first := EnteredByOne(ctx, selections[0], seen);
    EnteredStep(ctx, selections, seen, {});
    SeenLeavesFewer(ctx, seen, first);
    hide Entered, EnteredByOne, Left, ReachesHereBy;
    if name in first {
      x, depth := EnteredByOneIsReached(ctx, selections[0], seen, name);
    } else {
      x, depth := EnteredIsReached(ctx, selections[1..], first, name);
      var i :| 0 <= i < |selections[1..]| && ReachesHereBy(ctx, selections[1..][i], x, depth);
      assert ReachesHereBy(ctx, selections[i + 1], x, depth);
    }
  }

  lemma {:induction false} EnteredNothing(ctx: Context, seen: set<Name>)
    ensures Entered(ctx, [], seen) == seen
  {
  }

  lemma {:induction false} EnteredByOneIsReached(ctx: Context, s: Selection, seen: set<Name>, name: Name)
    returns (x: Selection, depth: nat)
    requires name in EnteredByOne(ctx, s, seen) && name !in seen
    ensures x.Spread? && x.fragment == name && name in ctx.fragments && ReachesHereBy(ctx, s, x, depth)
    decreases Left(ctx, seen), s, 1
  {
    hide Entered, Left, ReachesHere, IsDeferred, IsIncluded, Matches;
    x, depth := s, 0;
    match s
    case Field(_, _, _, _, _, _) =>
    case InlineFragment(_, _, _, _, body) =>
      x, depth := EnteredIsReached(ctx, body, seen, name);
      depth := depth + 1;
    case Spread(n, _, _, _) =>
      if n != name {
        EnteringUsesOne(ctx, seen, n);
        x, depth := EnteredIsReached(ctx, ctx.fragments[n].body, seen + {n}, name);
        depth := depth + 1;
      }
  }

  /** The plain search sees exactly the fragments that are spread without defer outside of anything deferred. */
  lemma {:induction false} EnteredIsHere(ctx: Context, selections: seq<Selection>, name: Name)
    ensures name in Entered(ctx, selections, {}) <==> IsSpreadHere(ctx, selections, name)
  {
    hide Entered, ReachesHere, Steps;
    if name in Entered(ctx, selections, {}) {
      var x, depth := EnteredIsReached(ctx, selections, {}, name);
    }
    if IsSpreadHere(ctx, selections, name) {
      var x: Selection, depth: nat :| x.Spread? && x.fragment == name && ReachesHere(ctx, selections, x, depth);
      var names := Entered(ctx, selections, {});
      EnteredCloses(ctx, selections, {});
      assert names - {} == names;
      ReachedIsOwn(ctx, selections, x, depth, names);
    }
  }

  // ---------------------------------------------------------------------------
  // The fields under the incoming usage
  // ---------------------------------------------------------------------------

  function FieldsUnder(fields: seq<FieldDetails>, usage: Option<DeferUsage>): set<Selection> {
    set i | 0 <= i < |fields| && fields[i].usage == usage :: fields[i].node
  }

  lemma {:induction false} FieldsThen(xs: seq<FieldDetails>, ys: seq<FieldDetails>, usage: Option<DeferUsage>)
    ensures FieldsUnder(xs + ys, usage) == FieldsUnder(xs, usage) + FieldsUnder(ys, usage)
  {
    var all := xs + ys;
    forall f ensures f in FieldsUnder(all, usage) <==> f in FieldsUnder(xs, usage) + FieldsUnder(ys, usage) {
      if f in FieldsUnder(xs, usage) {
        var i :| 0 <= i < |xs| && xs[i].usage == usage && xs[i].node == f;
        assert all[i] == xs[i];
      }
      if f in FieldsUnder(ys, usage) {
        var i :| 0 <= i < |ys| && ys[i].usage == usage && ys[i].node == f;
        assert all[|xs| + i] == ys[i];
      }
    }
  }

  lemma {:induction false} OwnOfBoth(ctx: Context, a: set<Name>, b: set<Name>)
    ensures OwnOfAll(ctx, a + b) == OwnOfAll(ctx, a) + OwnOfAll(ctx, b)
  {
    hide Own;
  }

  /**
   The fields collected under the usage are those that stand in the selections and in the
   fragments expanded under it, outside of anything deferred.
   */
  lemma {:induction false} FieldsUnderAre(ctx: Context, selections: seq<Selection>, usage: Option<DeferUsage>,
      visited: Visits)
    ensures var r := Collect(ctx, selections, usage, visited);
            FieldsUnder(r.fields, usage) == Own(ctx, selections) + OwnOfAll(ctx, ExpandedUnder(r.expanded, usage))
    decreases VisitsLeft(ctx, visited), selections, 0
  {
    CollectNothing(ctx, usage, visited);
    if selections == [] {
      return;
    }
    CollectStep(ctx, selections, usage, visited);
    OwnStep(ctx, selections);
    hide Collect, CollectOne, VisitsLeft, Own, OwnOfOne, OwnOfAll, ExpandedUnder, FieldsUnder;
    var first := CollectOne(ctx, selections[0], usage, visited);
    var rest := Collect(ctx, selections[1..], usage, first.visited);
    FieldsUnderAreByOne(ctx, selections[0], usage, visited);
    FieldsUnderAre(ctx, selections[1..], usage, first.visited);
    FieldsThen(first.fields, rest.fields, usage);
    ExpandedThen(first.expanded, rest.expanded, usage);
    OwnOfBoth(ctx, ExpandedUnder(first.expanded, usage), ExpandedUnder(rest.expanded, usage));
    FourSets(OwnOfOne(ctx, selections[0]), OwnOfAll(ctx, ExpandedUnder(first.expanded, usage)),
        Own(ctx, selections[1..]), OwnOfAll(ctx, ExpandedUnder(rest.expanded, usage)));
  }

  lemma {:induction false} OwnStep(ctx: Context, selections: seq<Selection>)
    requires selections != []
    ensures Own(ctx, selections) == OwnOfOne(ctx, selections[0]) + Own(ctx, selections[1..])
  {
  }

  lemma {:induction false} FourSets<T>(a: set<T>, b: set<T>, c: set<T>, d: set<T>)
    ensures (a + b) + (c + d) == (a + c) + (b + d)
  {
  }

  lemma {:induction false} FieldsUnderAreByOne(ctx: Context, s: Selection, usage: Option<DeferUsage>,
      visited: Visits)
    ensures var r := CollectOne(ctx, s, usage, visited);
            FieldsUnder(r.fields, usage) == OwnOfOne(ctx, s) + OwnOfAll(ctx, ExpandedUnder(r.expanded, usage))
    decreases VisitsLeft(ctx, visited), s, 1
  {
    IdleStep(ctx, s, usage, visited);
    NothingUnder(ctx, s, usage);
    if !s.Field? {
      InsideUnder(ctx, s, usage, usage);
      DeferredMeans(ctx, s, usage);
    }
    hide Collect, CollectOne, VisitsLeft, Own, OwnOfAll, ExpandedUnder, FieldsUnder, IsDeferred, NewUsage, IsIncluded;
    hide Matches, Skips, IsInside, UsageUnder;
    if s.InlineFragment? && IsIncluded(ctx, s) && Matches(ctx, s.condition) {
      InlineStep(ctx, s, usage, visited);
      var u := UsageUnder(NewUsage(ctx, s.defer, usage), usage);
      if IsDeferred(ctx, s) {
        CollectsAway(ctx, s.body, u, visited, usage);
        AwayHasNone(ctx, Collect(ctx, s.body, u, visited), usage);
      } else {
        FieldsUnderAre(ctx, s.body, usage, visited);
      }
    } else if s.Spread? && Expands(ctx, s, usage, visited) {
      if IsDeferred(ctx, s) {
        DeferredSpreadHasNone(ctx, s, usage, visited);
      } else {
        ExpandStep(ctx, s, usage, visited);
        var visited', body := visited[s.fragment := false], ctx.fragments[s.fragment].body;
        FieldsUnderAre(ctx, body, usage, visited');
        ExpandedFields(ctx, s.fragment, usage, Collect(ctx, body, usage, visited').expanded);
      }
    }
  }

  lemma {:induction false} DeferredSpreadHasNone(ctx: Context, s: Selection, usage: Option<DeferUsage>,
      visited: Visits)
    requires s.Spread? && Expands(ctx, s, usage, visited) && IsDeferred(ctx, s)
    ensures var r := CollectOne(ctx, s, usage, visited);
            ExpandedUnder(r.expanded, usage) == {} && FieldsUnder(r.fields, usage) == {}
  {
    InsideUnder(ctx, s, usage, usage);
    ExpandStep(ctx, s, usage, visited);
    hide Collect, CollectOne, ExpandedUnder, FieldsUnder, IsDeferred, NewUsage, Skips, IsInside, UsageUnder;
    var newUsage := NewUsage(ctx, s.defer, usage);
    var u, visited' := UsageUnder(newUsage, usage), visited[s.fragment := newUsage.Some?];
    var inner := Collect(ctx, ctx.fragments[s.fragment].body, u, visited');
    InsideDiffers(u, usage);
    CollectsAway(ctx, ctx.fragments[s.fragment].body, u, visited', usage);
    AwayHasNone(ctx, inner, usage);
    ExpandedOther(Expansion(s.fragment, u), inner.expanded, usage);
  }

  lemma {:induction false} ExpandedFields(ctx: Context, name: Name, usage: Option<DeferUsage>,
      expanded: seq<Expansion>)
    requires name in ctx.fragments
    ensures OwnOfAll(ctx, ExpandedUnder([Expansion(name, usage)] + expanded, usage)) ==
            Own(ctx, ctx.fragments[name].body) + OwnOfAll(ctx, ExpandedUnder(expanded, usage))
  {
    ExpandedOther(Expansion(name, usage), expanded, usage);
    OwnOfBoth(ctx, {name}, ExpandedUnder(expanded, usage));
    OwnOfOneName(ctx, name);
    hide Own, OwnOfAll, ExpandedUnder;
  }

  lemma {:induction false} NothingUnder(ctx: Context, s: Selection, usage: Option<DeferUsage>)
    ensures ExpandedUnder([], usage) == {} && FieldsUnder([], usage) == {} && OwnOfAll(ctx, {}) == {}
    ensures FieldsUnder([FieldDetails(s, usage)], usage) == {s}
  {
    var details := [FieldDetails(s, usage)];
    assert details[0].usage == usage && details[0].node == s;
  }

  lemma {:induction false} AwayHasNone(ctx: Context, r: Collection, usage: Option<DeferUsage>)
    requires IsAway(r, usage)
    ensures ExpandedUnder(r.expanded, usage) == {} && FieldsUnder(r.fields, usage) == {}
  {
    AwayExpandsNone(r, usage);
  }

  lemma {:induction false} OwnOfOneName(ctx: Context, name: Name)
    requires name in ctx.fragments
    ensures OwnOfAll(ctx, {name}) == Own(ctx, ctx.fragments[name].body)
  {
    hide Own;
  }

  // ---------------------------------------------------------------------------
  // The theorems
  // ---------------------------------------------------------------------------

  ghost predicate NothingIsTaken(ctx: Context, selections: seq<Selection>) {
    IsClear(ctx, selections, {}, Entered(ctx, selections, {}))
  }

  lemma {:induction false} KeptOrLostFromStart(ctx: Context, selections: seq<Selection>, usage: Option<DeferUsage>)
    ensures var r, all := Collect(ctx, selections, usage, map[]), Entered(ctx, selections, {});
            && (NothingIsTaken(ctx, selections) ==> ExpandedUnder(r.expanded, usage) == all)
            && (!NothingIsTaken(ctx, selections) ==> exists n :: n in all && n !in ExpandedUnder(r.expanded, usage))
  {
    var all := Entered(ctx, selections, {});
    assert InStep(ctx, map[], {}, all);
    hide Collect, Entered, IsClear, InStep, ExpandedUnder;
    KeptOrLost(ctx, selections, usage, map[], {}, all);
    assert all - {} == all;
  }

  /**
   Every fragment that is spread without defer, outside of anything deferred, is expanded
   under the incoming usage, if and only if nothing deferred takes one of them before the
   plain search gets to it.
   */
  lemma {:induction false} UndeferredStayIff(ctx: Context, selections: seq<Selection>, usage: Option<DeferUsage>)
    ensures (forall n | IsSpreadHere(ctx, selections, n) ::
               n in ExpandedUnder(Collect(ctx, selections, usage, map[]).expanded, usage))
            <==> NothingIsTaken(ctx, selections)
  {
    KeptOrLostFromStart(ctx, selections, usage);
    hide Collect, Entered, IsSpreadHere, ExpandedUnder, NothingIsTaken;
    forall n ensures n in Entered(ctx, selections, {}) <==> IsSpreadHere(ctx, selections, n) {
      EnteredIsHere(ctx, selections, n);
    }
  }

  /** Every field reached without passing through anything deferred is collected under the incoming usage. */
  ghost predicate FieldsStay(ctx: Context, selections: seq<Selection>, usage: Option<DeferUsage>) {
    forall f | IsFieldHere(ctx, selections, f) ::
      f in FieldsUnder(Collect(ctx, selections, usage, map[]).fields, usage)
  }

  /** Where nothing is taken, the fields stay. */
  lemma {:induction false} ClearFieldsStay(ctx: Context, selections: seq<Selection>, usage: Option<DeferUsage>)
    requires NothingIsTaken(ctx, selections)
    ensures FieldsStay(ctx, selections, usage)
  {
    KeptOrLostFromStart(ctx, selections, usage);
    FieldsUnderAre(ctx, selections, usage, map[]);
    EnteredCloses(ctx, selections, {});
    hide Collect, Entered, ExpandedUnder, NothingIsTaken, FieldsUnder, Own, OwnOfAll, Steps, ReachesHere;
    var names := Entered(ctx, selections, {});
    assert names - {} == names;
    forall f | IsFieldHere(ctx, selections, f)
      ensures f in FieldsUnder(Collect(ctx, selections, usage, map[]).fields, usage)
    {
      var depth: nat :| ReachesHere(ctx, selections, f, depth);
      ReachedIsOwn(ctx, selections, f, depth, names);
    }
  }

  /** Each of the fragments has a field that stands nowhere else, as nodes of a document stand in one place. */
  ghost predicate HaveFields(ctx: Context, selections: seq<Selection>) {
    forall n | IsSpreadHere(ctx, selections, n) && n in ctx.fragments :: exists f :: StandsOnlyIn(ctx, selections, n, f)
  }

  ghost predicate StandsOnlyIn(ctx: Context, selections: seq<Selection>, n: Name, f: Selection) {
    && n in ctx.fragments && f in Own(ctx, ctx.fragments[n].body) && f !in Own(ctx, selections)
    && forall m | m in ctx.fragments && m != n :: f !in Own(ctx, ctx.fragments[m].body)
  }

  /** If those fragments have fields of their own, the fields stay exactly when nothing is taken. */
  lemma {:induction false} FieldsStayIff(ctx: Context, selections: seq<Selection>, usage: Option<DeferUsage>)
    requires HaveFields(ctx, selections)
    ensures FieldsStay(ctx, selections, usage) <==> NothingIsTaken(ctx, selections)
  {
    KeptOrLostFromStart(ctx, selections, usage);
    FieldsUnderAre(ctx, selections, usage, map[]);
    hide Collect, Entered, ExpandedUnder, NothingIsTaken, FieldsUnder, Own, ReachesHere;
    if NothingIsTaken(ctx, selections) {
      ClearFieldsStay(ctx, selections, usage);
    } else {
      var expanded := ExpandedUnder(Collect(ctx, selections, usage, map[]).expanded, usage);
      var n :| n in Entered(ctx, selections, {}) && n !in expanded;
      var x, depth := EnteredIsReached(ctx, selections, {}, n);
      assert IsSpreadHere(ctx, selections, n);
      var f :| StandsOnlyIn(ctx, selections, n, f);
      var further := OwnIsReached(ctx, ctx.fragments[n].body, f);
      ReachedThrough(ctx, selections, x, depth, f, further);
      assert IsFieldHere(ctx, selections, f);
      assert f !in OwnOfAll(ctx, expanded);
    }
  }

  lemma {:induction false} CollectSingle(ctx: Context, x: Selection, u: Option<DeferUsage>, visited: Visits)
    ensures Collect(ctx, [x], u, visited).fields == CollectOne(ctx, x, u, visited).fields
    ensures Collect(ctx, [x], u, visited).visited == CollectOne(ctx, x, u, visited).visited
  {
    CollectStep(ctx, [x], u, visited);
    CollectNothing(ctx, u, CollectOne(ctx, x, u, visited).visited);
    hide Collect, CollectOne;
    assert [x][1..] == [];
  }

  /** A spread whose fragment holds a single selection. */
  lemma {:induction false} SpreadOfOne(ctx: Context, s: Selection, u: Option<DeferUsage>, visited: Visits, x: Selection)
    requires Expands(ctx, s, u, visited) && ctx.fragments[s.fragment].body == [x]
    ensures var newUsage := NewUsage(ctx, s.defer, u);
            var r := CollectOne(ctx, x, UsageUnder(newUsage, u), visited[s.fragment := newUsage.Some?]);
            CollectOne(ctx, s, u, visited).fields == r.fields && CollectOne(ctx, s, u, visited).visited == r.visited
  {
    ExpandStep(ctx, s, u, visited);
    var newUsage := NewUsage(ctx, s.defer, u);
    CollectSingle(ctx, x, UsageUnder(newUsage, u), visited[s.fragment := newUsage.Some?]);
    hide Collect, CollectOne, NewUsage, Skips, Applies;
  }

  ghost predicate IsExample(ctx: Context, A: Name, B: Name, b: Selection) {
    && A != B && b.Field? && b.skip.None? && b.incl.None?
    && ctx.fragments == map[A := Fragment(ctx.runtimeType, [Spread(B, None, None, None)]),
                            B := Fragment(ctx.runtimeType, [b])]
  }

  lemma {:induction false} ExampleDefers(ctx: Context, A: Name, B: Name, b: Selection)
    requires IsExample(ctx, A, B, b)
    ensures var s := Spread(A, None, None, Some(Defer(None, None)));
            var r := CollectOne(ctx, s, None, map[]);
            r.fields == [FieldDetails(b, Some(DeferUsage(None, None)))] && r.visited == map[A := true, B := false]
  {
    var s, t := Spread(A, None, None, Some(Defer(None, None))), Spread(B, None, None, None);
    var u := Some(DeferUsage(None, None));
    var v: Visits := map[A := true];
    assert NewUsage(ctx, s.defer, None) == u && NewUsage(ctx, t.defer, u).None?;
    SpreadOfOne(ctx, s, None, map[], t);
    SpreadOfOne(ctx, t, u, v, b);
    IdleStep(ctx, b, u, v[B := false]);
    hide CollectOne;
    assert map[][A := true] == v && v[B := false] == map[A := true, B := false];
  }

  lemma {:induction false} ExampleSkips(ctx: Context, A: Name, B: Name, b: Selection)
    requires IsExample(ctx, A, B, b)
    ensures Collect(ctx, [Spread(B, None, None, None)], None, map[A := true, B := false]).fields == []
  {
    var t, v: Visits := Spread(B, None, None, None), map[A := true, B := false];
    IdleStep(ctx, t, None, v);
    CollectSingle(ctx, t, None, v);
    hide Collect, CollectOne;
  }

  lemma {:induction false} ExampleReaches(ctx: Context, A: Name, B: Name, b: Selection, s: Selection)
    requires IsExample(ctx, A, B, b)
    ensures IsFieldHere(ctx, [s, Spread(B, None, None, None)], b)
  {
    var selections := [s, Spread(B, None, None, None)];
    assert ReachesHereBy(ctx, selections[1], selections[1], 0);
    assert Own(ctx, [b]) == {b} + Own(ctx, []);
    var further := OwnIsReached(ctx, ctx.fragments[B].body, b);
    ReachedThrough(ctx, selections, selections[1], 0, b, further);
  }

  /**
   The smallest document in which something is taken: `{ ...A @defer ...B }`, where A spreads
   B and B has one field. The field is collected under the defer alone, although B is also
   spread without it.
   */
  lemma {:induction false} DeferTakesField(ctx: Context, A: Name, B: Name, b: Selection)
    requires IsExample(ctx, A, B, b)
    ensures var selections := [Spread(A, None, None, Some(Defer(None, None))), Spread(B, None, None, None)];
            && IsFieldHere(ctx, selections, b)
            && Collect(ctx, selections, None, map[]).fields == [FieldDetails(b, Some(DeferUsage(None, None)))]
            && !NothingIsTaken(ctx, selections)
  {
    var s, t := Spread(A, None, None, Some(Defer(None, None))), Spread(B, None, None, None);
    var selections := [s, t];
    ExampleDefers(ctx, A, B, b);
    ExampleSkips(ctx, A, B, b);
    ExampleReaches(ctx, A, B, b, s);
    CollectStep(ctx, selections, None, map[]);
    hide Collect, CollectOne, VisitsLeft, NothingIsTaken, IsExample, IsFieldHere, FieldsStay;
    assert selections[0] == s && selections[1..] == [t];
    OnlyUnder(ctx, selections, b, Some(DeferUsage(None, None)));
    if NothingIsTaken(ctx, selections) {
      ClearFieldsStay(ctx, selections, None);
    }
  }

  lemma {:induction false} OnlyUnder(ctx: Context, selections: seq<Selection>, b: Selection, u: Option<DeferUsage>)
    requires u.Some? && Collect(ctx, selections, None, map[]).fields == [FieldDetails(b, u)]
    ensures IsFieldHere(ctx, selections, b) ==> !FieldsStay(ctx, selections, None)
  {
    hide Collect, ReachesHere;
  }
}
