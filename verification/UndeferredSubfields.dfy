/**
 The sub-selections of several nodes, each with its own usage, that share the visited
 fragments: every fragment is expanded under the usage of the first node that spreads it
 without defer, exactly unless something deferred has taken it before.
 */
module UndeferredSubfields {
  import opened Options
  import opened Selections
  import opened CollectFields
  import opened CollectFieldsProperties
  import opened FieldCollector
  import opened UndeferredFields

  /** The sub-selections of a node, if it is a field. */
  function SubOf(details: FieldDetails): seq<Selection> {
    if details.node.Field? then details.node.selections else []
  }

  /** What each of the nodes adds. */
  function Parts(ctx: Context, details: seq<FieldDetails>, visited: Visits): (parts: seq<Collection>)
    ensures |parts| == |details|
  {
    if details == [] then []
    else
      var first := Collect(ctx, SubOf(details[0]), details[0].usage, visited);
      [first] + Parts(ctx, details[1..], first.visited)
  }

  function FieldsOf(parts: seq<Collection>): seq<FieldDetails> {
    if parts == [] then [] else parts[0].fields + FieldsOf(parts[1..])
  }

  /** The parts make up what collecting the sub-selections gives. */
  lemma {:induction false} PartsMakeUp(ctx: Context, details: seq<FieldDetails>, visited: Visits)
    ensures CollectSub(ctx, details, visited).fields == FieldsOf(Parts(ctx, details, visited))
  {
    if details != [] {
      var first := Collect(ctx, SubOf(details[0]), details[0].usage, visited);
      CollectNothing(ctx, details[0].usage, visited);
      hide Collect;
      PartsMakeUp(ctx, details[1..], first.visited);
      var parts := Parts(ctx, details, visited);
      assert parts[0] == first && parts[1..] == Parts(ctx, details[1..], first.visited);
    }
  }

  /** The plain search goes through the nodes in turn: what it has seen before each of them, and after the last. */
  function EnteredBefore(ctx: Context, details: seq<FieldDetails>, seen: set<Name>, i: nat): (r: set<Name>)
    requires i <= |details|
    ensures seen <= r
  {
    if i == 0 then seen else EnteredBefore(ctx, details[1..], Entered(ctx, SubOf(details[0]), seen), i - 1)
  }

  /** The fragments that the search enters from a node, for the first time. */
  function EnteredFrom(ctx: Context, details: seq<FieldDetails>, seen: set<Name>, i: nat): set<Name>
    requires i < |details|
  {
    EnteredBefore(ctx, details, seen, i + 1) - EnteredBefore(ctx, details, seen, i)
  }

  lemma {:induction false} EnteredLater(ctx: Context, details: seq<FieldDetails>, seen: set<Name>, i: nat)
    requires 0 < i <= |details|
    ensures var first := Entered(ctx, SubOf(details[0]), seen);
            && EnteredBefore(ctx, details, seen, i) == EnteredBefore(ctx, details[1..], first, i - 1)
            && (i < |details| ==> EnteredFrom(ctx, details, seen, i) == EnteredFrom(ctx, details[1..], first, i - 1))
  {
    hide Entered;
  }

  lemma {:induction false} EnteredFirst(ctx: Context, details: seq<FieldDetails>, seen: set<Name>)
    requires details != []
    ensures EnteredBefore(ctx, details, seen, 0) == seen
    ensures EnteredBefore(ctx, details, seen, 1) == Entered(ctx, SubOf(details[0]), seen)
    ensures EnteredFrom(ctx, details, seen, 0) == Entered(ctx, SubOf(details[0]), seen) - seen
  {
    hide Entered;
  }

  /** Nothing deferred, in any of the nodes, takes one of the fragments before the search gets to it. */
  ghost predicate AreClear(ctx: Context, details: seq<FieldDetails>, seen: set<Name>, all: set<Name>) {
    forall i | 0 <= i < |details| :: IsClear(ctx, SubOf(details[i]), EnteredBefore(ctx, details, seen, i), all)
  }

  /** Every fragment is expanded under the usage of the node from which the search enters it. */
  ghost predicate AllStay(ctx: Context, details: seq<FieldDetails>, visited: Visits, seen: set<Name>) {
    forall i | 0 <= i < |details| :: StaysAt(ctx, details, visited, seen, i)
  }

  ghost predicate StaysAt(ctx: Context, details: seq<FieldDetails>, visited: Visits, seen: set<Name>, i: nat)
    requires i < |details|
  {
    EnteredFrom(ctx, details, seen, i) <=
    ExpandedUnder(Parts(ctx, details, visited)[i].expanded, details[i].usage)
  }

  lemma {:induction false} ClearStep(ctx: Context, details: seq<FieldDetails>, seen: set<Name>, all: set<Name>)
    requires details != []
    ensures var first := Entered(ctx, SubOf(details[0]), seen);
            AreClear(ctx, details, seen, all) <==>
            IsClear(ctx, SubOf(details[0]), seen, all) && AreClear(ctx, details[1..], first, all)
  {
    var first := Entered(ctx, SubOf(details[0]), seen);
    EnteredFirst(ctx, details, seen);
    hide Entered, IsClear, EnteredBefore, SubOf;
    if IsClear(ctx, SubOf(details[0]), seen, all) && AreClear(ctx, details[1..], first, all) {
      forall i | 0 <= i < |details| ensures IsClear(ctx, SubOf(details[i]), EnteredBefore(ctx, details, seen, i), all) {
        if i > 0 {
          EnteredLater(ctx, details, seen, i);
          assert details[1..][i - 1] == details[i];
        }
      }
    }
    if AreClear(ctx, details, seen, all) {
      forall i | 0 <= i < |details[1..]|
        ensures IsClear(ctx, SubOf(details[1..][i]), EnteredBefore(ctx, details[1..], first, i), all)
      {
        EnteredLater(ctx, details, seen, i + 1);
        assert details[1..][i] == details[i + 1];
      }
    }
  }

  lemma {:induction false} StayStep(ctx: Context, details: seq<FieldDetails>, visited: Visits, seen: set<Name>)
    requires details != []
    ensures var first := Collect(ctx, SubOf(details[0]), details[0].usage, visited);
            var seen1 := Entered(ctx, SubOf(details[0]), seen);
            AllStay(ctx, details, visited, seen) <==>
            seen1 - seen <= ExpandedUnder(first.expanded, details[0].usage) &&
            AllStay(ctx, details[1..], first.visited, seen1)
  {
    var first := Collect(ctx, SubOf(details[0]), details[0].usage, visited);
    var seen1 := Entered(ctx, SubOf(details[0]), seen);
    var parts, rest := Parts(ctx, details, visited), Parts(ctx, details[1..], first.visited);
    assert parts == [first] + rest;
    EnteredFirst(ctx, details, seen);
    hide Entered, Collect, EnteredBefore, SubOf, ExpandedUnder, EnteredFrom, Parts;
    assert StaysAt(ctx, details, visited, seen, 0) <==> seen1 - seen <= ExpandedUnder(first.expanded, details[0].usage);
    forall i: nat | i < |details[1..]|
      ensures StaysAt(ctx, details, visited, seen, i + 1) <==> StaysAt(ctx, details[1..], first.visited, seen1, i)
    {
      EnteredLater(ctx, details, seen, i + 1);
      assert details[1..][i] == details[i + 1] && parts[i + 1] == rest[i];
    }
    hide StaysAt;
    if AllStay(ctx, details[1..], first.visited, seen1) && StaysAt(ctx, details, visited, seen, 0) {
      forall i | 0 <= i < |details| ensures StaysAt(ctx, details, visited, seen, i) {
        assert i > 0 ==> StaysAt(ctx, details[1..], first.visited, seen1, i - 1);
      }
    }
  }

  /** What has been visited without defer, but not seen, does not stay. */
  lemma {:induction false} LostDoesNotStay(ctx: Context, details: seq<FieldDetails>, visited: Visits,
      seen: set<Name>, n: Name)
    requires n in Undeferred(visited) && n !in seen && n in EnteredBefore(ctx, details, seen, |details|)
    ensures !AllStay(ctx, details, visited, seen)
  {
    if details != [] {
      var sub, usage := SubOf(details[0]), details[0].usage;
      var first, seen1 := Collect(ctx, sub, usage, visited), Entered(ctx, sub, seen);
      KeysGrow(visited, first.visited);
      StayStep(ctx, details, visited, seen);
      EnteredLater(ctx, details, seen, |details|);
      hide Collect, Entered, SubOf, AllStay, Undeferred, ExpandedUnder, EnteredBefore;
      if n in seen1 {
        NotExpandedAgain(ctx, sub, usage, visited, usage, n);
      } else {
        LostDoesNotStay(ctx, details[1..], first.visited, seen1, n);
      }
    }
  }

  lemma {:induction false} AllStayIffClear(ctx: Context, details: seq<FieldDetails>, visited: Visits,
      seen: set<Name>, all: set<Name>)
    requires InStep(ctx, visited, seen, all) && all == EnteredBefore(ctx, details, seen, |details|)
    ensures AllStay(ctx, details, visited, seen) <==> AreClear(ctx, details, seen, all)
  {
    if details != [] {
      var sub, usage := SubOf(details[0]), details[0].usage;
      var first, seen1 := Collect(ctx, sub, usage, visited), Entered(ctx, sub, seen);
      EnteredLater(ctx, details, seen, |details|);
      KeptOrLost(ctx, sub, usage, visited, seen, all);
      StayStep(ctx, details, visited, seen);
      ClearStep(ctx, details, seen, all);
      hide Collect, Entered, SubOf, AllStay, ExpandedUnder, EnteredBefore, InStep, IsClear, AreClear, IsLost;
      if IsClear(ctx, sub, seen, all) {
        AllStayIffClear(ctx, details[1..], first.visited, seen1, all);
      } else {
        LostFromFirst(ctx, details[1..], first, usage, seen, seen1, all);
      }
    }
  }

  /** A fragment lost in the first node stays neither there nor in a later one. */
  lemma {:induction false} LostFromFirst(ctx: Context, rest: seq<FieldDetails>, first: Collection,
      usage: Option<DeferUsage>, seen: set<Name>, seen1: set<Name>, all: set<Name>)
    requires IsLost(first, usage, seen, all) && all == EnteredBefore(ctx, rest, seen1, |rest|)
    ensures !(seen1 - seen <= ExpandedUnder(first.expanded, usage)) || !AllStay(ctx, rest, first.visited, seen1)
  {
    hide AllStay, Undeferred, ExpandedUnder, EnteredBefore;
    var n :| n in all && n !in seen && n in Undeferred(first.visited) && n !in ExpandedUnder(first.expanded, usage);
    if n !in seen1 {
      LostDoesNotStay(ctx, rest, first.visited, seen1, n);
    }
  }

  /**
   For the sub-selections of any nodes with any usages: every fragment spread without defer
   is expanded under the usage of the first node that leads to it so, if and only if nothing
   deferred, in any of the nodes, takes one of them before.
   */
  lemma {:induction false} SubfieldsStayIff(ctx: Context, details: seq<FieldDetails>)
    ensures AllStay(ctx, details, map[], {}) <==>
            AreClear(ctx, details, {}, EnteredBefore(ctx, details, {}, |details|))
  {
    var all := EnteredBefore(ctx, details, {}, |details|);
    assert InStep(ctx, map[], {}, all);
    hide InStep, AllStay, AreClear, EnteredBefore;
    AllStayIffClear(ctx, details, map[], {}, all);
  }

  // ---------------------------------------------------------------------------
  // The fields
  // ---------------------------------------------------------------------------

  /** The field is collected under the usage of one of the first `n` nodes, as part of it. */
  ghost predicate IsUnderOneOf(parts: seq<Collection>, details: seq<FieldDetails>, n: nat, f: Selection)
    requires n <= |parts| == |details|
  {
    exists j :: 0 <= j < n && f in FieldsUnder(parts[j].fields, details[j].usage)
  }

  /** Every step stays inside what the search has seen, from node to node. */
  lemma {:induction false} SeenIsClosed(ctx: Context, details: seq<FieldDetails>, seen: set<Name>, i: nat)
    requires i <= |details| && StepsInside(ctx, seen, seen)
    ensures StepsInside(ctx, EnteredBefore(ctx, details, seen, i), EnteredBefore(ctx, details, seen, i))
  {
    if i > 0 {
      var first := Entered(ctx, SubOf(details[0]), seen);
      EnteredCloses(ctx, SubOf(details[0]), seen);
      hide Entered, Steps;
      SeenIsClosed(ctx, details[1..], first, i - 1);
    }
  }

  lemma {:induction false} StepsOfNode(ctx: Context, details: seq<FieldDetails>, seen: set<Name>, i: nat)
    requires i < |details|
    ensures Steps(ctx, SubOf(details[i])) <= EnteredBefore(ctx, details, seen, i + 1)
  {
    if i == 0 {
      EnteredFirst(ctx, details, seen);
      EnteredCloses(ctx, SubOf(details[0]), seen);
    } else {
      EnteredLater(ctx, details, seen, i + 1);
      StepsOfNode(ctx, details[1..], Entered(ctx, SubOf(details[0]), seen), i - 1);
    }
  }

  lemma {:induction false} PartIs(ctx: Context, details: seq<FieldDetails>, visited: Visits, i: nat)
    returns (before: Visits)
    requires i < |details|
    ensures Parts(ctx, details, visited)[i] == Collect(ctx, SubOf(details[i]), details[i].usage, before)
  {
    before := visited;
    var first := Collect(ctx, SubOf(details[0]), details[0].usage, visited);
    hide Collect, SubOf;
    if i > 0 {
      before := PartIs(ctx, details[1..], first.visited, i - 1);
    }
  }

  /** A fragment seen by the search is entered from some node. */
  lemma {:induction false} EnteredFromSome(ctx: Context, details: seq<FieldDetails>, seen: set<Name>, i: nat, n: Name)
    returns (j: nat)
    requires i <= |details| && n in EnteredBefore(ctx, details, seen, i) && n !in seen
    ensures j < i && n in EnteredFrom(ctx, details, seen, j)
    decreases i
  {
    hide Entered;
    if n in EnteredBefore(ctx, details, seen, i - 1) {
      j := EnteredFromSome(ctx, details, seen, i - 1, n);
    } else {
      j := i - 1;
    }
  }

  /**
   Where nothing is taken, every field that a node reaches without passing through anything
   deferred is collected under the usage of that node, or of one before it.
   */
  lemma {:induction false} SubfieldsStay(ctx: Context, details: seq<FieldDetails>, i: nat, f: Selection)
    requires AreClear(ctx, details, {}, EnteredBefore(ctx, details, {}, |details|))
    requires i < |details| && IsFieldHere(ctx, SubOf(details[i]), f)
    ensures IsUnderOneOf(Parts(ctx, details, map[]), details, i + 1, f)
  {
    SubfieldsStayIff(ctx, details);
    SeenIsClosed(ctx, details, {}, i + 1);
    StepsOfNode(ctx, details, {}, i);
    var parts, names := Parts(ctx, details, map[]), EnteredBefore(ctx, details, {}, i + 1);
    hide Parts, EnteredBefore, AreClear, EnteredFrom, FieldsUnder, ExpandedUnder, Collect, Own, OwnOfAll, Steps, SubOf;
    hide ReachesHere, Entered;
    var depth: nat :| ReachesHere(ctx, SubOf(details[i]), f, depth);
    ReachedIsOwn(ctx, SubOf(details[i]), f, depth, names);
    if f in Own(ctx, SubOf(details[i])) {
      var before := PartIs(ctx, details, map[], i);
      FieldsUnderAre(ctx, SubOf(details[i]), details[i].usage, before);
      assert f in FieldsUnder(parts[i].fields, details[i].usage);
    } else {
      var n := OwnerOf(ctx, names, f);
      var j := EnteredFromSome(ctx, details, {}, i + 1, n);
      assert StaysAt(ctx, details, map[], {}, j);
      var before := PartIs(ctx, details, map[], j);
      FieldsUnderAre(ctx, SubOf(details[j]), details[j].usage, before);
      OwnIsOwnOfAll(ctx, n, ExpandedUnder(parts[j].expanded, details[j].usage));
      assert f in FieldsUnder(parts[j].fields, details[j].usage);
    }
  }

  lemma {:induction false} OwnerOf(ctx: Context, names: set<Name>, f: Selection) returns (n: Name)
    requires f in OwnOfAll(ctx, names)
    ensures n in names && n in ctx.fragments && f in Own(ctx, ctx.fragments[n].body)
  {
    hide Own;
    n :| n in names && n in ctx.fragments && f in Own(ctx, ctx.fragments[n].body);
  }
}
