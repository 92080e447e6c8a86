/**
 The collector that fills one grouped field set in place, and what the groups mean.
 */
module FieldCollector {
  import opened Options
  import opened Selections
  import opened CollectFields
  import opened CollectFieldsProperties

  /** An entry of the grouped field set, which keeps the order in which its keys were added. */
  datatype Group = Group(key: Name, fields: seq<FieldDetails>)

  predicate WellKeyed(fields: seq<FieldDetails>) {
    forall i | 0 <= i < |fields| :: fields[i].node.Field?
  }

  /** grouped_field_set[key].append(details) */
  function Add(groups: seq<Group>, key: Name, details: FieldDetails): seq<Group> {
    if groups == [] then [Group(key, [details])]
    else if groups[0].key == key then [Group(key, groups[0].fields + [details])] + groups[1..]
    else [groups[0]] + Add(groups[1..], key, details)
  }

  function AddAll(groups: seq<Group>, fields: seq<FieldDetails>): seq<Group>
    requires WellKeyed(fields)
    decreases |fields|
  {
    if fields == [] then groups
    else AddAll(Add(groups, EntryKey(fields[0].node), fields[0]), fields[1..])
  }

  lemma {:induction false} AddAllConcat(groups: seq<Group>, xs: seq<FieldDetails>, ys: seq<FieldDetails>)
    requires WellKeyed(xs) && WellKeyed(ys)
    ensures WellKeyed(xs + ys) && AddAll(groups, xs + ys) == AddAll(AddAll(groups, xs), ys)
    decreases |xs|
  {
    if xs == [] {
      assert xs + ys == ys;
    } else {
      assert (xs + ys)[1..] == xs[1..] + ys;
      AddAllConcat(Add(groups, EntryKey(xs[0].node), xs[0]), xs[1..], ys);
    }
  }

  // ---------------------------------------------------------------------------
  // What the groups are
  // ---------------------------------------------------------------------------

  /** The fields with a response key, in their order. */
  function OfKey(fields: seq<FieldDetails>, key: Name): seq<FieldDetails>
    requires WellKeyed(fields)
  {
    if fields == [] then []
    else
      OfKey(fields[..|fields| - 1], key) +
      if EntryKey(fields[|fields| - 1].node) == key then [fields[|fields| - 1]] else []
  }

  /** The place of the first field with a response key, or the number of fields. */
  function FirstOf(fields: seq<FieldDetails>, key: Name): (i: nat)
    requires WellKeyed(fields)
    ensures i <= |fields|
  {
    if fields == [] then 0
    else
      var i := FirstOf(fields[..|fields| - 1], key);
      if i < |fields| - 1 || EntryKey(fields[|fields| - 1].node) == key then i else |fields|
  }

  /**
   One group for every response key, in the order of the first fields with these keys;
   each holds all the fields with its key, in their order.
   */
  ghost predicate IsGrouping(groups: seq<Group>, fields: seq<FieldDetails>)
    requires WellKeyed(fields)
  {
    && (forall g | 0 <= g < |groups| :: groups[g].fields == OfKey(fields, groups[g].key) && groups[g].fields != [])
    && (forall g | 0 <= g < |groups| :: FirstOf(fields, groups[g].key) < |fields|)
    && (forall g, h | 0 <= g < h < |groups| :: FirstOf(fields, groups[g].key) < FirstOf(fields, groups[h].key))
    && (forall i | 0 <= i < |fields| :: HasKey(groups, EntryKey(fields[i].node)))
  }

  predicate HasKey(groups: seq<Group>, key: Name) {
    exists g :: 0 <= g < |groups| && groups[g].key == key
  }

  /** The place of the group with a key, or the number of groups. */
  function GroupOf(groups: seq<Group>, key: Name): (g: nat)
    ensures g <= |groups|
    ensures g < |groups| ==> groups[g].key == key
    ensures forall h | 0 <= h < g :: groups[h].key != key
  {
    if groups == [] || groups[0].key == key then 0 else 1 + GroupOf(groups[1..], key)
  }

  lemma {:induction false} AddIs(groups: seq<Group>, key: Name, details: FieldDetails)
    ensures var g := GroupOf(groups, key);
            Add(groups, key, details) ==
            if g < |groups| then groups[g := Group(key, groups[g].fields + [details])]
            else groups + [Group(key, [details])]
  {
    if groups != [] && groups[0].key != key {
      AddIs(groups[1..], key, details);
    }
  }

  lemma {:induction false} FirstOfSnoc(fields: seq<FieldDetails>, details: FieldDetails, key: Name)
    requires WellKeyed(fields) && details.node.Field?
    ensures var longer := fields + [details];
            && FirstOf(longer, key) ==
               (if FirstOf(fields, key) < |fields| then FirstOf(fields, key)
                else if EntryKey(details.node) == key then |fields| else |fields| + 1)
            && OfKey(longer, key) == OfKey(fields, key) + if EntryKey(details.node) == key then [details] else []
  {
    assert (fields + [details])[..|fields|] == fields;
  }

  lemma {:induction false} NoneOfKey(fields: seq<FieldDetails>, key: Name)
    requires WellKeyed(fields)
    ensures FirstOf(fields, key) == |fields| <==> OfKey(fields, key) == []
    ensures FirstOf(fields, key) < |fields| <==> exists i :: 0 <= i < |fields| && EntryKey(fields[i].node) == key
    decreases |fields|
  {
    if fields != [] {
      NoneOfKey(fields[..|fields| - 1], key);
      if FirstOf(fields[..|fields| - 1], key) < |fields| - 1 {
        var i :| 0 <= i < |fields| - 1 && EntryKey(fields[..|fields| - 1][i].node) == key;
        assert EntryKey(fields[i].node) == key;
      }
    }
  }

  /** There is a group for a key exactly when there is a field with it. */
  lemma {:induction false} GroupExists(groups: seq<Group>, fields: seq<FieldDetails>, key: Name)
    requires WellKeyed(fields) && IsGrouping(groups, fields)
    ensures GroupOf(groups, key) < |groups| <==> FirstOf(fields, key) < |fields|
  {
    NoneOfKey(fields, key);
    hide OfKey, FirstOf;
    if FirstOf(fields, key) < |fields| {
      var i :| 0 <= i < |fields| && EntryKey(fields[i].node) == key;
      assert HasKey(groups, key);
    }
  }

  /** What a group is after a field has been added, and where its first field is. */
  lemma {:induction false} AddedGroup(groups: seq<Group>, fields: seq<FieldDetails>, details: FieldDetails, g: nat)
    requires WellKeyed(fields) && details.node.Field? && IsGrouping(groups, fields)
    requires var more := Add(groups, EntryKey(details.node), details); g < |more|
    ensures var more, longer := Add(groups, EntryKey(details.node), details), fields + [details];
            && more[g].fields == OfKey(longer, more[g].key) && more[g].fields != []
            && (g < |groups| ==> more[g].key == groups[g].key)
            && FirstOf(longer, more[g].key) == if g < |groups| then FirstOf(fields, groups[g].key) else |fields|
  {
    var key := EntryKey(details.node);
    var more := Add(groups, key, details);
    var at := GroupOf(groups, key);
    AddIs(groups, key, details);
    GroupExists(groups, fields, key);
    NoneOfKey(fields, key);
    FirstOfSnoc(fields, details, more[g].key);
    hide OfKey, FirstOf, Add, HasKey;
    if g < |groups| && at < |groups| && groups[g].key == key {
      SameKeySamePlace(groups, fields, g, at);
    }
  }

  /** The new group, if there is one, comes last. */
  lemma {:induction false} AddKeepsOrder(groups: seq<Group>, fields: seq<FieldDetails>, details: FieldDetails)
    requires WellKeyed(fields) && details.node.Field? && IsGrouping(groups, fields)
    ensures var more, longer := Add(groups, EntryKey(details.node), details), fields + [details];
            && (forall g | 0 <= g < |more| :: FirstOf(longer, more[g].key) < |longer|)
            && (forall g, h | 0 <= g < h < |more| :: FirstOf(longer, more[g].key) < FirstOf(longer, more[h].key))
  {
    var key := EntryKey(details.node);
    var more, longer := Add(groups, key, details), fields + [details];
    AddIs(groups, key, details);
    hide OfKey, FirstOf, Add, GroupOf;
    forall g | 0 <= g < |more|
      ensures FirstOf(longer, more[g].key) == (if g < |groups| then FirstOf(fields, groups[g].key) else |fields|)
    {
      AddedGroup(groups, fields, details, g);
    }
  }

  /** Adding a field keeps the grouping. */
  lemma {:induction false} AddGroups(groups: seq<Group>, fields: seq<FieldDetails>, details: FieldDetails)
    requires WellKeyed(fields) && details.node.Field? && IsGrouping(groups, fields)
    ensures IsGrouping(Add(groups, EntryKey(details.node), details), fields + [details])
  {
    var key := EntryKey(details.node);
    var more, longer := Add(groups, key, details), fields + [details];
    AddKeepsOrder(groups, fields, details);
    hide OfKey, FirstOf, Add, GroupOf, HasKey;
    forall g | 0 <= g < |more| ensures more[g].fields == OfKey(longer, more[g].key) && more[g].fields != [] {
      AddedGroup(groups, fields, details, g);
    }
    forall i | 0 <= i < |longer| ensures HasKey(more, EntryKey(longer[i].node)) {
      AddedKey(groups, fields, details, i);
    }
  }

  lemma {:induction false} AddedKey(groups: seq<Group>, fields: seq<FieldDetails>, details: FieldDetails, i: nat)
    requires WellKeyed(fields) && details.node.Field? && IsGrouping(groups, fields) && i < |fields + [details]|
    ensures HasKey(Add(groups, EntryKey(details.node), details), EntryKey((fields + [details])[i].node))
  {
    var key := EntryKey(details.node);
    var more := Add(groups, key, details);
    AddIs(groups, key, details);
    hide OfKey, FirstOf, Add;
    if i < |fields| {
      assert HasKey(groups, EntryKey(fields[i].node));
      var g :| 0 <= g < |groups| && groups[g].key == EntryKey(fields[i].node);
      assert more[g].key == groups[g].key;
    } else {
      assert more[GroupOf(groups, key)].key == key;
    }
  }

  lemma {:induction false} SameKeySamePlace(groups: seq<Group>, fields: seq<FieldDetails>, g: nat, h: nat)
    requires WellKeyed(fields) && IsGrouping(groups, fields) && g < |groups| && h < |groups| &&
             groups[g].key == groups[h].key
    ensures g == h
  {
    hide OfKey, FirstOf;
  }

  lemma {:induction false} AddAllGroups(groups: seq<Group>, done: seq<FieldDetails>, fields: seq<FieldDetails>)
    requires WellKeyed(done) && WellKeyed(fields) && IsGrouping(groups, done)
    ensures IsGrouping(AddAll(groups, fields), done + fields)
    decreases |fields|
  {
    hide IsGrouping, Add;
    if fields == [] {
      assert done + fields == done;
    } else {
      AddGroups(groups, done, fields[0]);
      AddAllGroups(Add(groups, EntryKey(fields[0].node), fields[0]), done + [fields[0]], fields[1..]);
      assert done + [fields[0]] + fields[1..] == done + fields;
    }
  }

  // ---------------------------------------------------------------------------
  // The collector
  // ---------------------------------------------------------------------------

  lemma {:induction false} CollectedAreFields(ctx: Context, selections: seq<Selection>, usage: Option<DeferUsage>,
      visited: Visits)
    ensures WellKeyed(Collect(ctx, selections, usage, visited).fields)
    decreases VisitsLeft(ctx, visited), selections, 0
  {
    CollectNothing(ctx, usage, visited);
    if selections != [] {
      CollectStep(ctx, selections, usage, visited);
      hide Collect, CollectOne, VisitsLeft;
      CollectedByOneAreFields(ctx, selections[0], usage, visited);
      CollectedAreFields(ctx, selections[1..], usage, CollectOne(ctx, selections[0], usage, visited).visited);
    }
  }

  lemma {:induction false} CollectedByOneAreFields(ctx: Context, s: Selection, usage: Option<DeferUsage>,
      visited: Visits)
    ensures WellKeyed(CollectOne(ctx, s, usage, visited).fields)
    decreases VisitsLeft(ctx, visited), s, 1
  {
    IdleStep(ctx, s, usage, visited);
    hide Collect, CollectOne, VisitsLeft, IsIncluded, Matches, NewUsage, Skips;
    if s.InlineFragment? && IsIncluded(ctx, s) && Matches(ctx, s.condition) {
      InlineStep(ctx, s, usage, visited);
      CollectedAreFields(ctx, s.body, UsageUnder(NewUsage(ctx, s.defer, usage), usage), visited);
    } else if s.Spread? && Expands(ctx, s, usage, visited) {
      ExpandStep(ctx, s, usage, visited);
      var newUsage := NewUsage(ctx, s.defer, usage);
      CollectedAreFields(ctx, ctx.fragments[s.fragment].body, UsageUnder(newUsage, usage),
          visited[s.fragment := newUsage.Some?]);
    }
  }

  lemma {:induction false} AddOne(groups: seq<Group>, details: FieldDetails)
    requires details.node.Field?
    ensures AddAll(groups, [details]) == Add(groups, EntryKey(details.node), details)
    ensures AddAll(groups, []) == groups
  {
    assert [details][1..] == [];
  }

  class Collector {
    const ctx: Context
    var groupedFieldSet: seq<Group>
    var newDeferUsages: seq<DeferUsage>
    var visitedFragmentNames: Visits
    var forbiddenDirectiveInstances: seq<Directive>

    constructor (ctx: Context)
      ensures this.ctx == ctx && groupedFieldSet == [] && newDeferUsages == []
      ensures visitedFragmentNames == map[] && forbiddenDirectiveInstances == []
    {
      this.ctx := ctx;
      groupedFieldSet, newDeferUsages, visitedFragmentNames, forbiddenDirectiveInstances := [], [], map[], [];
    }

    /** What was collected has been added to the groups, usages and forbidden directives that there were. */
    ghost predicate Added(groups: seq<Group>, usages: seq<DeferUsage>, forbidden: seq<Directive>, r: Collection)
      reads this
    {
      && WellKeyed(r.fields)
      && groupedFieldSet == AddAll(groups, r.fields)
      && newDeferUsages == usages + r.usages
      && visitedFragmentNames == r.visited
      && forbiddenDirectiveInstances == forbidden + r.forbidden
    }

    /** `collect_fields_impl` */
    method CollectFieldsImpl(selections: seq<Selection>, usage: Option<DeferUsage>)
      modifies this
      ensures Added(old(groupedFieldSet), old(newDeferUsages), old(forbiddenDirectiveInstances),
                    Collect(ctx, selections, usage, old(visitedFragmentNames)))
      decreases VisitsLeft(ctx, visitedFragmentNames), selections, 0
    {
      hide Collect, CollectOne, VisitsLeft, AddAll, Grown;
      ghost var done := Collection([], visitedFragmentNames, [], [], []);
      assert selections[0..] == selections;
      NothingThen(Collect(ctx, selections, usage, visitedFragmentNames));
      AddNothing(groupedFieldSet);
      for i := 0 to |selections|
        invariant VisitsLeft(ctx, visitedFragmentNames) <= VisitsLeft(ctx, old(visitedFragmentNames))
        invariant Collect(ctx, selections, usage, old(visitedFragmentNames))
               == Then(done, Collect(ctx, selections[i..], usage, visitedFragmentNames))
        invariant Added(old(groupedFieldSet), old(newDeferUsages), old(forbiddenDirectiveInstances), done)
      {
        ghost var one := CollectOne(ctx, selections[i], usage, visitedFragmentNames);
        assert selections[i..][1..] == selections[i + 1..];
        CollectStep(ctx, selections[i..], usage, visitedFragmentNames);
        ThenThen(done, one, Collect(ctx, selections[i + 1..], usage, one.visited));
        CollectSelection(selections[i], usage);
        AddAllConcat(old(groupedFieldSet), done.fields, one.fields);
        done := Then(done, one);
      }
      CollectNothing(ctx, usage, visitedFragmentNames);
      ThenNothing(done);
    }

    /** One round of the loop over the selections. */
    method CollectSelection(selection: Selection, usage: Option<DeferUsage>)
      modifies this
      ensures Added(old(groupedFieldSet), old(newDeferUsages), old(forbiddenDirectiveInstances),
                    CollectOne(ctx, selection, usage, old(visitedFragmentNames)))
      decreases VisitsLeft(ctx, visitedFragmentNames), selection, 1
    {
      IdleStep(ctx, selection, usage, visitedFragmentNames);
      NothingForbidden(ctx, selection, usage, visitedFragmentNames);
      hide Collect, CollectOne, VisitsLeft, AddAll, Grown, Matches;
      AddNothing(groupedFieldSet);
      if !IsIncluded(ctx, selection) {
        forbiddenDirectiveInstances := forbiddenDirectiveInstances + ForbiddenOf(ctx, selection);
        return;
      }
      match selection
      case Field(_, _, _, _, _, _) =>
        AddOne(groupedFieldSet, FieldDetails(selection, usage));
        groupedFieldSet := Add(groupedFieldSet, EntryKey(selection), FieldDetails(selection, usage));
      case InlineFragment(condition, _, _, defer, body) =>
        if !Matches(ctx, condition) {
          return;
        }
        InlineStep(ctx, selection, usage, visitedFragmentNames);
        var newDeferUsage := NewUsage(ctx, defer, usage);
        if newDeferUsage.None? {
          CollectFieldsImpl(body, usage);
        } else {
          newDeferUsages := newDeferUsages + [newDeferUsage.value];
          CollectFieldsImpl(body, newDeferUsage);
        }
      case Spread(name, _, _, defer) =>
        if name !in ctx.fragments || !Matches(ctx, Some(ctx.fragments[name].condition)) {
          return;
        }
        var newDeferUsage := NewUsage(ctx, defer, usage);
        var maybeNewDeferUsage := usage;
        if newDeferUsage.None? {
          if name in visitedFragmentNames && !visitedFragmentNames[name] {
            return;
          }
          ExpandStep(ctx, selection, usage, visitedFragmentNames);
          visitedFragmentNames := visitedFragmentNames[name := false];
        } else {
          if name in visitedFragmentNames {
            return;
          }
          ExpandStep(ctx, selection, usage, visitedFragmentNames);
          visitedFragmentNames := visitedFragmentNames[name := true];
          newDeferUsages := newDeferUsages + [newDeferUsage.value];
          maybeNewDeferUsage := newDeferUsage;
        }
        CollectFieldsImpl(ctx.fragments[name].body, maybeNewDeferUsage);
    }
  }

  lemma {:induction false} NothingForbidden(ctx: Context, s: Selection, usage: Option<DeferUsage>, visited: Visits)
    ensures var idle := || !IsIncluded(ctx, s)
                        || (s.InlineFragment? && !Matches(ctx, s.condition))
                        || (s.Spread? && !Expands(ctx, s, usage, visited));
            idle ==>
              CollectOne(ctx, s, usage, visited).forbidden == if IsIncluded(ctx, s) then [] else ForbiddenOf(ctx, s)
  {
    hide Collect;
  }

  lemma {:induction false} AddNothing(groups: seq<Group>)
    ensures AddAll(groups, []) == groups
  {
  }

  lemma {:induction false} NothingThen(r: Collection)
    ensures forall visited :: Then(Collection([], visited, [], [], []), r) == r
  {
    forall visited ensures Then(Collection([], visited, [], [], []), r) == r {
      var a := Then(Collection([], visited, [], [], []), r);
      assert a.fields == r.fields && a.usages == r.usages && a.forbidden == r.forbidden && a.expanded == r.expanded;
    }
  }

  lemma {:induction false} ThenNothing(r: Collection)
    ensures Then(r, Collection([], r.visited, [], [], [])) == r
  {
    var a := Then(r, Collection([], r.visited, [], [], []));
    assert a.fields == r.fields && a.usages == r.usages && a.forbidden == r.forbidden && a.expanded == r.expanded;
  }

  lemma {:induction false} ThenThen(a: Collection, b: Collection, c: Collection)
    ensures Then(a, Then(b, c)) == Then(Then(a, b), c)
  {
    var l, r := Then(a, Then(b, c)), Then(Then(a, b), c);
    assert l.fields == r.fields && l.usages == r.usages && l.forbidden == r.forbidden && l.expanded == r.expanded;
  }

  // ---------------------------------------------------------------------------
  // collect_fields and collect_subfields
  // ---------------------------------------------------------------------------

  /** What the sub-selections of the fields add, one field after the other. */
  function CollectSub(ctx: Context, details: seq<FieldDetails>, visited: Visits): Collection {
    if details == [] then Collection([], visited, [], [], [])
    else
      var node := details[0].node;
      var first := if node.Field? && node.selections != []
                   then Collect(ctx, node.selections, details[0].usage, visited)
                   else Collection([], visited, [], [], []);
      Then(first, CollectSub(ctx, details[1..], first.visited))
  }

  /** `collect_fields`: the groups of exactly the fields that can be reached. */
  method CollectFieldsOf(ctx: Context, selections: seq<Selection>)
    returns (groups: seq<Group>, usages: seq<DeferUsage>, forbidden: seq<Directive>)
    ensures var r := Collect(ctx, selections, None, map[]);
            && WellKeyed(r.fields) && IsGrouping(groups, r.fields)
            && usages == r.usages && forbidden == r.forbidden
  {
    hide Collect, AddAll;
    var collector := new Collector(ctx);
    collector.CollectFieldsImpl(selections, None);
    groups, usages, forbidden :=
      collector.groupedFieldSet, collector.newDeferUsages, collector.forbiddenDirectiveInstances;
    ghost var r := Collect(ctx, selections, None, map[]);
    NoGroups();
    AddAllGroups([], [], r.fields);
    assert [] + r.fields == r.fields;
  }

  lemma {:induction false} NoGroups()
    ensures IsGrouping([], [])
  {
  }

  /** `collect_subfields`: one grouped field set for the sub-selections of all the given fields. */
  method CollectSubfields(ctx: Context, details: seq<FieldDetails>)
    returns (groups: seq<Group>, usages: seq<DeferUsage>, forbidden: seq<Directive>)
    ensures var r := CollectSub(ctx, details, map[]);
            && WellKeyed(r.fields) && IsGrouping(groups, r.fields)
            && usages == r.usages && forbidden == r.forbidden
  {
    hide Collect, AddAll;
    var collector := new Collector(ctx);
    ghost var done := Collection([], map[], [], [], []);
    assert details[0..] == details;
    NothingThen(CollectSub(ctx, details, map[]));
    AddNothing([]);
    for i := 0 to |details|
      invariant fresh(collector) && collector.ctx == ctx
      invariant collector.Added([], [], [], done)
      invariant CollectSub(ctx, details, map[]) ==
                Then(done, CollectSub(ctx, details[i..], collector.visitedFragmentNames))
    {
      var node := details[i].node;
      ghost var visited := collector.visitedFragmentNames;
      assert details[i..][1..] == details[i + 1..];
      if node.Field? && node.selections != [] {
        collector.CollectFieldsImpl(node.selections, details[i].usage);
        ghost var one := Collect(ctx, node.selections, details[i].usage, visited);
        AddAllConcat([], done.fields, one.fields);
        ThenThen(done, one, CollectSub(ctx, details[i + 1..], one.visited));
        done := Then(done, one);
      } else {
        NothingThen(CollectSub(ctx, details[i + 1..], visited));
      }
    }
    ThenNothing(done);
    groups, usages, forbidden :=
      collector.groupedFieldSet, collector.newDeferUsages, collector.forbiddenDirectiveInstances;
    NoGroups();
    AddAllGroups([], [], done.fields);
    assert [] + done.fields == done.fields;
  }
}
