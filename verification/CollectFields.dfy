/**
 Field collection: which fields of a selection set apply to a type, through inline
 fragments and possibly cyclic fragment spreads, deferred or not.
 */
module CollectFields {
  import opened Options
  import opened Selections
  import Graphs

  /** A linked list of the defers that a field is under. */
  datatype DeferUsage = DeferUsage(tag: Option<Name>, parent: Option<DeferUsage>)

  datatype FieldDetails = FieldDetails(node: Selection, usage: Option<DeferUsage>)

  /** What does not change while collecting. `possibleTypes` is given for abstract types. */
  datatype Context = Context(
    possibleTypes: map<Name, set<Name>>,
    fragments: map<Name, Fragment>,
    variables: Name -> bool,
    runtimeType: Name,
    forbidSkipAndInclude: bool)

  function Truth(ctx: Context, flag: Flag): bool {
    match flag
    case Literal(value) => value
    case Variable(name) => ctx.variables(name)
  }

  /** `should_include_node` */
  predicate IsIncluded(ctx: Context, s: Selection) {
    && (s.skip.Some? ==> !ctx.forbidSkipAndInclude && !Truth(ctx, s.skip.value.condition))
    && (s.incl.Some? ==> !ctx.forbidSkipAndInclude && Truth(ctx, s.incl.value.condition))
  }

  /** The directive that `should_include_node` reports as forbidden. */
  function ForbiddenOf(ctx: Context, s: Selection): seq<Directive> {
    if !ctx.forbidSkipAndInclude then []
    else if s.skip.Some? then [s.skip.value]
    else if s.incl.Some? then [s.incl.value]
    else []
  }

  /** `does_fragment_condition_match` */
  predicate Matches(ctx: Context, condition: Option<Name>) {
    || condition.None?
    || condition.value == ctx.runtimeType
    || (condition.value in ctx.possibleTypes && ctx.runtimeType in ctx.possibleTypes[condition.value])
  }

  /** `get_defer_usage` */
  function NewUsage(ctx: Context, defer: Option<Defer>, parent: Option<DeferUsage>): Option<DeferUsage> {
    if defer.None? || (defer.value.enabled.Some? && !Truth(ctx, defer.value.enabled.value)) then None
    else Some(DeferUsage(defer.value.tag, parent))
  }

  /** The fragment that an included spread brings in. */
  predicate Applies(ctx: Context, s: Selection) {
    && s.Spread? && IsIncluded(ctx, s)
    && s.fragment in ctx.fragments && Matches(ctx, Some(ctx.fragments[s.fragment].condition))
  }

  // ---------------------------------------------------------------------------
  // Termination
  // ---------------------------------------------------------------------------

  /** The visited fragments; true stands for visited as deferred only. */
  type Visits = map<Name, bool>

  function Undeferred(visited: Visits): set<Name> {
    set n | n in visited && !visited[n]
  }

  /** The visits that are left: every fragment can be visited deferred and then not deferred. */
  function VisitsLeft(ctx: Context, visited: Visits): nat {
    |ctx.fragments.Keys - visited.Keys| + |ctx.fragments.Keys - Undeferred(visited)|
  }

  predicate Grown(visited: Visits, visited': Visits) {
    visited.Keys <= visited'.Keys && Undeferred(visited) <= Undeferred(visited')
  }

  lemma {:induction false} GrownLeavesFewer(ctx: Context, visited: Visits, visited': Visits)
    requires Grown(visited, visited')
    ensures VisitsLeft(ctx, visited') <= VisitsLeft(ctx, visited)
  {
    var all := ctx.fragments.Keys;
    Graphs.SubsetSize(all - visited'.Keys, all - visited.Keys);
    Graphs.SubsetSize(all - Undeferred(visited'), all - Undeferred(visited));
  }

  /** The spread brings its fragment in again only if that is one more of the visits that are left. */
  predicate Skips(visited: Visits, name: Name, deferred: bool) {
    name in visited && (deferred || !visited[name])
  }

  lemma {:induction false} VisitGrows(visited: Visits, name: Name, deferred: bool)
    requires !Skips(visited, name, deferred)
    ensures Grown(visited, visited[name := deferred])
    ensures name in visited[name := deferred].Keys && (!deferred ==> name in Undeferred(visited[name := deferred]))
    ensures deferred ==> name !in visited.Keys
    ensures name !in Undeferred(visited)
  {
  }

  lemma {:induction false} VisitUsesOne(ctx: Context, visited: Visits, name: Name, deferred: bool)
    requires name in ctx.fragments && !Skips(visited, name, deferred)
    ensures Grown(visited, visited[name := deferred])
    ensures VisitsLeft(ctx, visited[name := deferred]) < VisitsLeft(ctx, visited)
  {
    VisitGrows(visited, name, deferred);
    hide Undeferred, Skips;
    var all, visited' := ctx.fragments.Keys, visited[name := deferred];
    Graphs.SubsetSize(all - visited'.Keys, all - visited.Keys);
    Graphs.SubsetSize(all - Undeferred(visited'), all - Undeferred(visited));
    if deferred {
      Graphs.FewerLeft(all, visited.Keys, visited'.Keys, name);
    } else {
      Graphs.FewerLeft(all, Undeferred(visited), Undeferred(visited'), name);
    }
  }

  // ---------------------------------------------------------------------------
  // What is collected
  // ---------------------------------------------------------------------------

  datatype Expansion = Expansion(name: Name, usage: Option<DeferUsage>)

  /**
   What collecting gives: the fields in the order in which they are met, the fragments
   visited, the new defer usages, the forbidden directives, and, in order, the fragments
   whose bodies were expanded, each with the usage that its fields are collected under.
   */
  datatype Collection = Collection(
    fields: seq<FieldDetails>,
    visited: Visits,
    usages: seq<DeferUsage>,
    forbidden: seq<Directive>,
    expanded: seq<Expansion>)

  function Then(first: Collection, rest: Collection): Collection {
    Collection(first.fields + rest.fields, rest.visited, first.usages + rest.usages, first.forbidden + rest.forbidden,
               first.expanded + rest.expanded)
  }

  /** What the fragment adds, after a new defer usage. */
  function Under(usage: Option<DeferUsage>, r: Collection): Collection {
    if usage.None? then r else r.(usages := [usage.value] + r.usages)
  }

  /** `collect_fields_impl` */
  function Collect(ctx: Context, selections: seq<Selection>, usage: Option<DeferUsage>,
      visited: Visits): (r: Collection)
    ensures Grown(visited, r.visited)
    decreases VisitsLeft(ctx, visited), selections, 0
  {
    if selections == [] then Collection([], visited, [], [], [])
    else
      var first := CollectOne(ctx, selections[0], usage, visited);
      GrownLeavesFewer(ctx, visited, first.visited);
      Then(first, Collect(ctx, selections[1..], usage, first.visited))
  }

  function CollectOne(ctx: Context, s: Selection, usage: Option<DeferUsage>, visited: Visits): (r: Collection)
    ensures Grown(visited, r.visited)
    decreases VisitsLeft(ctx, visited), s, 1
  {
    var forbidden := ForbiddenOf(ctx, s);
    if !IsIncluded(ctx, s) then Collection([], visited, [], forbidden, [])
    else
      match s
      case Field(_, _, _, _, _, _) => Collection([FieldDetails(s, usage)], visited, [], [], [])
      case InlineFragment(condition, _, _, defer, body) =>
        if !Matches(ctx, condition) then Collection([], visited, [], [], [])
        else
          var newUsage := NewUsage(ctx, defer, usage);
          Under(newUsage, Collect(ctx, body, if newUsage.Some? then newUsage else usage, visited))
      case Spread(name, _, _, defer) =>
        var newUsage := NewUsage(ctx, defer, usage);
        if !Applies(ctx, s) || Skips(visited, name, newUsage.Some?) then Collection([], visited, [], [], [])
        else
          VisitUsesOne(ctx, visited, name, newUsage.Some?);
          var under := if newUsage.Some? then newUsage else usage;
          var r := Collect(ctx, ctx.fragments[name].body, under, visited[name := newUsage.Some?]);
          Under(newUsage, r.(expanded := [Expansion(name, under)] + r.expanded))
  }
}
