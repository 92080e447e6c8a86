/**
 The collection phase of `GraphQLSchema.__init__`: exactly the referenced types, user
 types in their order, although these are marked as collected before they are.
 */
module TypeCollection {
  import opened Graphs

  /** A named type as an object, which is only compared. */
  type TypeId(==, !new)

  /** A field or argument type: wrappers around a named type make no difference here. */
  datatype TypeRef = Named(typ: TypeId) | Wrapped(inner: TypeRef)

  /** `get_named_type` */
  function NamedType(t: TypeRef): TypeId {
    match t
    case Named(typ) => typ
    case Wrapped(inner) => NamedType(inner)
  }

  datatype Field = Field(typ: TypeRef, args: seq<TypeRef>)

  datatype TypeDef =
    | Union(members: seq<TypeId>)
    | ObjectOrInterface(interfaces: seq<TypeId>, fields: seq<Field>)
    | InputObject(inputFields: seq<TypeRef>)
    | Leaf

  /** All types that there are, with what they refer to. */
  type Types = map<TypeId, TypeDef>

  function NamedTypes(ts: seq<TypeRef>): (r: seq<TypeId>)
    ensures |r| == |ts| && forall i | 0 <= i < |ts| :: r[i] == NamedType(ts[i])
  {
    if ts == [] then [] else [NamedType(ts[0])] + NamedTypes(ts[1..])
  }

  function FieldReferences(fields: seq<Field>): seq<TypeId> {
    if fields == [] then []
    else [NamedType(fields[0].typ)] + NamedTypes(fields[0].args) + FieldReferences(fields[1..])
  }

  /** The types that a type refers to, in the order in which they are visited. */
  function References(d: TypeDef): seq<TypeId> {
    match d
    case Union(members) => members
    case ObjectOrInterface(interfaces, fields) => interfaces + FieldReferences(fields)
    case InputObject(inputFields) => NamedTypes(inputFields)
    case Leaf => []
  }

  function GraphOf(types: Types): Graph<TypeId> {
    map t | t in types :: References(types[t])
  }

  predicate NoDuplicates(s: seq<TypeId>) {
    forall i, j | 0 <= i < j < |s| :: s[i] != s[j]
  }

  function Elements(s: seq<TypeId>): set<TypeId> {
    set i | 0 <= i < |s| :: s[i]
  }

  /** The type can be reached from one of the types. */
  ghost predicate IsLedTo(graph: Graph<TypeId>, from: set<TypeId>, t: TypeId) {
    exists f :: f in from && LeadsTo(graph, f, t)
  }

  /** The set after a search: everything new can be reached from `from`, and leads nowhere new. */
  ghost predicate Searched(types: Types, from: set<TypeId>, before: seq<TypeId>, after: seq<TypeId>) {
    && before <= after && NoDuplicates(after)
    && from <= Elements(after)
    && (forall t | t in Elements(after) - Elements(before) :: IsLedTo(GraphOf(types), from, t))
    && IsClosed(GraphOf(types), Elements(after) - Elements(before), Elements(after))
  }

  lemma {:induction false} SearchedThen(types: Types, a: set<TypeId>, x: seq<TypeId>, y: seq<TypeId>,
      b: set<TypeId>, z: seq<TypeId>)
    requires Searched(types, a, x, y) && Searched(types, b, y, z)
    ensures Searched(types, a + b, x, z)
  {
    ElementsGrow(x, y);
    ElementsGrow(y, z);
    hide Elements, LeadsTo, GraphOf, NoDuplicates;
    var first, last := Elements(x), Elements(z);
    forall t | t in last - first ensures IsLedTo(GraphOf(types), a + b, t) {
      if t in Elements(y) {
        assert t in Elements(y) - first;
        var f :| f in a && LeadsTo(GraphOf(types), f, t);
        assert f in a + b;
      } else {
        assert t in last - Elements(y);
        var f :| f in b && LeadsTo(GraphOf(types), f, t);
        assert f in a + b;
      }
    }
    ClosedTogether(GraphOf(types), Elements(y) - first, Elements(y), last - Elements(y), last, last - first);
  }

  lemma {:induction false} ElementsGrow(x: seq<TypeId>, y: seq<TypeId>)
    requires x <= y
    ensures Elements(x) <= Elements(y)
  {
    forall t | t in Elements(x) ensures t in Elements(y) {
      var i :| 0 <= i < |x| && x[i] == t;
      assert y[i] == t;
    }
  }

  lemma {:induction false} SearchedNothing(types: Types, x: seq<TypeId>)
    requires NoDuplicates(x)
    ensures Searched(types, {}, x, x)
  {
    NothingIsClosed(GraphOf(types));
    assert Elements(x) - Elements(x) == {};
  }

  lemma {:induction false} SearchedAlready(types: Types, t: TypeId, x: seq<TypeId>)
    requires NoDuplicates(x) && t in x
    ensures Searched(types, {t}, x, x)
  {
    SearchedNothing(types, x);
    hide LeadsTo, GraphOf;
    var i :| 0 <= i < |x| && x[i] == t;
    assert t in Elements(x);
  }

  lemma {:induction false} NamedSnoc(ts: seq<TypeRef>, i: nat)
    requires i < |ts|
    ensures NamedTypes(ts[..i + 1]) == NamedTypes(ts[..i]) + [NamedType(ts[i])]
  {
    hide NamedTypes;
  }

  lemma {:induction false} SearchedOneMore(types: Types, ts: seq<TypeRef>, i: nat, x: seq<TypeId>, y: seq<TypeId>,
      z: seq<TypeId>)
    requires i < |ts| && Searched(types, Elements(NamedTypes(ts[..i])), x, y) &&
             Searched(types, {NamedType(ts[i])}, y, z)
    ensures Searched(types, Elements(NamedTypes(ts[..i + 1])), x, z)
  {
    hide Searched, Elements, NamedTypes;
    SearchedThen(types, Elements(NamedTypes(ts[..i])), x, y, {NamedType(ts[i])}, z);
    ElementsSnoc(NamedTypes(ts[..i]), NamedType(ts[i]));
    NamedSnoc(ts, i);
  }

  /** A new type has been entered, and then everything that it refers to has been searched. */
  lemma {:induction false} SearchedFrom(types: Types, t: TypeId, x: seq<TypeId>, y: seq<TypeId>)
    requires t !in x && NoDuplicates(x)
    requires Searched(types, if t in types then Elements(References(types[t])) else {}, x + [t], y)
    ensures Searched(types, {t}, x, y)
  {
    var graph := GraphOf(types);
    ElementsGrow(x + [t], y);
    ElementsSnoc(x, t);
    hide Elements, LeadsTo, NoDuplicates, References;
    forall u | u in Elements(y) - Elements(x) ensures IsLedTo(graph, {t}, u) {
      assert t in {t};
      if u == t {
        LeadsToItself(graph, t);
      } else {
        assert u in Elements(y) - Elements(x + [t]);
        assert IsLedTo(graph, if t in types then Elements(References(types[t])) else {}, u);
        assert t in types;
        var f :| f in Elements(References(types[t])) && LeadsTo(graph, f, u);
        ElementAt(References(types[t]), f);
        var k :| 0 <= k < |graph[t]| && graph[t][k] == f;
        StepAndOn(graph, t, k, u);
      }
    }
    if t in types {
      forall k | 0 <= k < |graph[t]| ensures graph[t][k] in Elements(y) {
        AtIsElement(References(types[t]), k);
      }
    }
  }

  lemma {:induction false} ElementsSnoc(x: seq<TypeId>, t: TypeId)
    ensures Elements(x + [t]) == Elements(x) + {t}
    ensures t !in x ==> t !in Elements(x)
  {
    forall u ensures u in Elements(x + [t]) <==> u in Elements(x) + {t} {
      if u in Elements(x) {
        var i :| 0 <= i < |x| && x[i] == u;
        assert (x + [t])[i] == u;
      }
      if u == t {
        assert (x + [t])[|x|] == u;
      }
    }
  }

  lemma {:induction false} ElementAt(x: seq<TypeId>, t: TypeId)
    ensures t in Elements(x) <==> t in x
    ensures t in x ==> exists k :: 0 <= k < |x| && x[k] == t
  {
  }

  lemma {:induction false} AtIsElement(x: seq<TypeId>, k: nat)
    requires k < |x|
    ensures x[k] in Elements(x)
  {
  }

  // ---------------------------------------------------------------------------
  // TypeSet
  // ---------------------------------------------------------------------------

  class TypeSet {
    const types: Types
    /** The keys of the dictionary, in the order in which they were inserted. */
    var collected: seq<TypeId>

    constructor WithInitialTypes(types: Types, initial: seq<TypeId>)
      ensures this.types == types && collected == Distinct(initial)
    {
      this.types := types;
      collected := Distinct(initial);
    }

    /** `del self[t]` */
    method Delete(t: TypeId)
      requires t in collected
      modifies this
      ensures collected == Without(old(collected), t)
    {
      collected := Without(collected, t);
    }

    /** What is left to be collected, for termination. */
    ghost function Left(): nat
      reads this
    {
      |types.Keys - Elements(collected)|
    }

    /** `collect_referenced_types` */
    method CollectReferencedTypes(t: TypeRef)
      requires NoDuplicates(collected)
      modifies this
      ensures Searched(types, {NamedType(t)}, old(collected), collected)
      decreases Left(), 1
    {
      var namedType := NamedType(t);
      if namedType in collected {
        SearchedAlready(types, namedType, collected);
        return;
      }
      ghost var before := collected;
      ElementsSnoc(collected, namedType);
      collected := collected + [namedType];
      if namedType in types {
        FewerLeft(types.Keys, Elements(before), Elements(collected), namedType);
        CollectReferencesOf(namedType);
      } else {
        SearchedNothing(types, collected);
      }
      SearchedFrom(types, namedType, before, collected);
    }

    /** The branches of `collect_referenced_types`, by the kind of the type. */
    method CollectReferencesOf(namedType: TypeId)
      requires namedType in types && NoDuplicates(collected)
      modifies this
      ensures Searched(types, Elements(References(types[namedType])), old(collected), collected)
      decreases Left(), 4
    {
      hide Searched, NoDuplicates, Elements, FieldReferences;
      match types[namedType]
      case Union(members) =>
        CollectAll(Refs(members));
        assert NamedTypes(Refs(members)) == members;
      case ObjectOrInterface(interfaces, fields) =>
        CollectAll(Refs(interfaces));
        assert NamedTypes(Refs(interfaces)) == interfaces;
        ghost var middle := collected;
        StillFewer(types, old(collected), middle, Elements(interfaces));
        CollectFields(fields);
        SearchedThen(types, Elements(interfaces), old(collected), middle, Elements(FieldReferences(fields)), collected);
        ElementsConcat(interfaces, FieldReferences(fields));
      case InputObject(inputFields) =>
        CollectAll(inputFields);
      case Leaf =>
        SearchedNothing(types, collected);
        NoElements();
    }

    method CollectAll(ts: seq<TypeRef>)
      requires NoDuplicates(collected)
      modifies this
      ensures Searched(types, Elements(NamedTypes(ts)), old(collected), collected)
      decreases Left(), 2
    {
      hide Searched, NoDuplicates, Elements, NamedTypes;
      SearchedNothing(types, collected);
      NoElements();
      assert ts[..0] == [];
      for i := 0 to |ts|
        invariant Searched(types, Elements(NamedTypes(ts[..i])), old(collected), collected)
      {
        ghost var before := collected;
        StillFewer(types, old(collected), before, Elements(NamedTypes(ts[..i])));
        CollectReferencedTypes(ts[i]);
        SearchedOneMore(types, ts, i, old(collected), before, collected);
      }
      assert ts[..|ts|] == ts;
    }

    method CollectFields(fields: seq<Field>)
      requires NoDuplicates(collected)
      modifies this
      ensures Searched(types, Elements(FieldReferences(fields)), old(collected), collected)
      decreases Left(), 3
    {
      hide Searched, NoDuplicates, Elements, FieldReferences;
      SearchedNothing(types, collected);
      NoElements();
      NoFieldReferences(fields);
      for i := 0 to |fields|
        invariant Searched(types, Elements(FieldReferences(fields[..i])), old(collected), collected)
      {
        ghost var before, done := collected, Elements(FieldReferences(fields[..i]));
        StillFewer(types, old(collected), before, done);
        CollectReferencedTypes(fields[i].typ);
        ghost var middle := collected;
        SearchedThen(types, done, old(collected), before, {NamedType(fields[i].typ)}, middle);
        StillFewer(types, old(collected), middle, done + {NamedType(fields[i].typ)});
        CollectAll(fields[i].args);
        SearchedThen(types, done + {NamedType(fields[i].typ)}, old(collected), middle,
            Elements(NamedTypes(fields[i].args)), collected);
        FieldReferencesSnoc(fields, i);
      }
      assert fields[..|fields|] == fields;
    }
  }

  function Refs(ts: seq<TypeId>): (r: seq<TypeRef>)
    ensures |r| == |ts| && forall i | 0 <= i < |ts| :: r[i] == Named(ts[i])
  {
    if ts == [] then [] else [Named(ts[0])] + Refs(ts[1..])
  }

  lemma {:induction false} StillFewer(types: Types, before: seq<TypeId>, after: seq<TypeId>, from: set<TypeId>)
    requires Searched(types, from, before, after)
    ensures NoDuplicates(after) && |types.Keys - Elements(after)| <= |types.Keys - Elements(before)|
  {
    hide LeadsTo, GraphOf, NoDuplicates;
    ElementsGrow(before, after);
    StillLeft(types.Keys, Elements(before), Elements(after));
  }

  lemma {:induction false} NoElements()
    ensures Elements([]) == {} && NamedTypes([]) == []
  {
  }

  lemma {:induction false} NoFieldReferences(fields: seq<Field>)
    ensures FieldReferences(fields[..0]) == []
  {
  }

  lemma {:induction false} ElementsConcat(x: seq<TypeId>, y: seq<TypeId>)
    ensures Elements(x + y) == Elements(x) + Elements(y)
  {
    forall t ensures t in Elements(x + y) <==> t in Elements(x) + Elements(y) {
      ElementAt(x, t);
      ElementAt(y, t);
      ElementAt(x + y, t);
    }
  }

  lemma {:induction false} FieldReferencesConcat(xs: seq<Field>, ys: seq<Field>)
    ensures FieldReferences(xs + ys) == FieldReferences(xs) + FieldReferences(ys)
  {
    if xs == [] {
      assert xs + ys == ys;
    } else {
      assert (xs + ys)[1..] == xs[1..] + ys;
      FieldReferencesConcat(xs[1..], ys);
    }
  }

  lemma {:induction false} FieldReferencesSnoc(fields: seq<Field>, i: nat)
    requires i < |fields|
    ensures Elements(FieldReferences(fields[..i + 1])) ==
            Elements(FieldReferences(fields[..i])) + {NamedType(fields[i].typ)} + Elements(NamedTypes(fields[i].args))
  {
    var f := [fields[i]];
    assert fields[..i + 1] == fields[..i] + f && f[1..] == [];
    FieldReferencesConcat(fields[..i], f);
    var named := [NamedType(fields[i].typ)];
    assert FieldReferences(f) == named + NamedTypes(fields[i].args);
    ElementsConcat(FieldReferences(fields[..i]), FieldReferences(f));
    ElementsConcat(named, NamedTypes(fields[i].args));
    ElementsSnoc([], NamedType(fields[i].typ));
    assert [] + named == named;
  }

  /** `dict.fromkeys`: the first occurrence of each. */
  function Distinct(ts: seq<TypeId>): (r: seq<TypeId>)
    ensures NoDuplicates(r) && (forall t :: t in r <==> t in ts)
    ensures NoDuplicates(ts) ==> r == ts
  {
    if ts == [] then []
    else
      var n := |ts| - 1;
      var front := Distinct(ts[..n]);
      assert ts == ts[..n] + [ts[n]];
      if ts[n] in front then front else front + [ts[n]]
  }

  /** The set without a type; the others keep their order. */
  function Without(x: seq<TypeId>, t: TypeId): (r: seq<TypeId>)
    ensures forall u :: u in r <==> u in x && u != t
    ensures NoDuplicates(x) ==> NoDuplicates(r)
  {
    if x == [] then []
    else
      var n := |x| - 1;
      var front := Without(x[..n], t);
      assert x == x[..n] + [x[n]];
      assert NoDuplicates(x) ==> x[n] !in x[..n] && NoDuplicates(x[..n]);
      assert forall i | 0 <= i < |front| :: front[i] in x[..n];
      if x[n] == t then front else front + [x[n]]
  }

  lemma {:induction false} WithoutAbsent(x: seq<TypeId>, t: TypeId)
    requires t !in x
    ensures Without(x, t) == x
  {
    if x != [] {
      assert x == x[..|x| - 1] + [x[|x| - 1]];
      WithoutAbsent(x[..|x| - 1], t);
    }
  }

  lemma {:induction false} WithoutHead(t: TypeId, x: seq<TypeId>)
    requires t !in x
    ensures Without([t] + x, t) == x
  {
    if x == [] {
      assert [t] + x == [t];
      assert Without([t][..0], t) == [];
    } else {
      var n := |x| - 1;
      assert ([t] + x)[..n + 1] == [t] + x[..n];
      WithoutHead(t, x[..n]);
      assert x == x[..n] + [x[n]];
    }
  }

  // ---------------------------------------------------------------------------
  // GraphQLSchema.__init__
  // ---------------------------------------------------------------------------

  /** The user types that are marked as collected and still to be collected. */
  ghost predicate IsPending(userTypes: seq<TypeId>, i: nat, t: TypeId)
    requires i <= |userTypes|
  {
    t in userTypes[i..] && t !in userTypes[..i]
  }

  ghost function Settled(userTypes: seq<TypeId>, i: nat, s: seq<TypeId>): set<TypeId>
    requires i <= |userTypes|
  {
    set t | t in s && !IsPending(userTypes, i, t)
  }

  /** The set while the user types are collected one by one. */
  ghost predicate UserTypesUpTo(types: Types, userTypes: seq<TypeId>, i: nat, s: seq<TypeId>)
    requires i <= |userTypes|
  {
    && NoDuplicates(s)
    && (forall t | t in userTypes :: t in s)
    && (forall t | t in s :: IsLedTo(GraphOf(types), Elements(userTypes), t))
    && IsClosed(GraphOf(types), Settled(userTypes, i, s), Elements(s))
  }

  lemma {:induction false} OneMoreUserType(types: Types, userTypes: seq<TypeId>, i: nat, s: seq<TypeId>,
      s': seq<TypeId>)
    requires i < |userTypes| && UserTypesUpTo(types, userTypes, i, s)
    requires Searched(types, {userTypes[i]}, Without(s, userTypes[i]), s')
    ensures UserTypesUpTo(types, userTypes, i + 1, s')
  {
    var graph, t := GraphOf(types), userTypes[i];
    var s1 := Without(s, t);
    ElementsGrow(s1, s');
    AtIsElement(userTypes, i);
    assert t in {t};
    forall u ensures u in s' <==> u in Elements(s') {
      ElementAt(s', u);
    }
    forall u ensures u in s <==> u in Elements(s) {
      ElementAt(s, u);
    }
    forall u ensures u in s1 <==> u in Elements(s1) {
      ElementAt(s1, u);
    }
    hide Elements, LeadsTo, GraphOf, NoDuplicates, Without;
    forall u | u in s' ensures IsLedTo(graph, Elements(userTypes), u) {
      if u !in s1 {
        assert u in Elements(s') - Elements(s1);
        var f :| f in {t} && LeadsTo(graph, f, u);
        assert f in Elements(userTypes);
      }
    }
    forall u | u in Settled(userTypes, i + 1, s')
      ensures u in Settled(userTypes, i, s) || u in Elements(s') - Elements(s1)
    {
      StillPending(userTypes, i, u);
    }
    ClosedTogether(graph, Settled(userTypes, i, s), Elements(s), Elements(s') - Elements(s1), Elements(s'),
                   Settled(userTypes, i + 1, s'));
  }

  lemma {:induction false} StillPending(userTypes: seq<TypeId>, i: nat, u: TypeId)
    requires i < |userTypes|
    ensures IsPending(userTypes, i, u) && u != userTypes[i] ==> IsPending(userTypes, i + 1, u)
  {
    assert userTypes[i..] == [userTypes[i]] + userTypes[i + 1..];
    assert userTypes[..i + 1] == userTypes[..i] + [userTypes[i]];
  }

  function Position(s: seq<TypeId>, t: TypeId): (p: nat)
    ensures p <= |s| && (p < |s| ==> s[p] == t) && (p == |s| ==> t !in s)
    ensures forall k | 0 <= k < p :: s[k] != t
  {
    if s == [] || s[0] == t then 0 else 1 + Position(s[1..], t)
  }

  lemma {:induction false} PositionInPrefix(s: seq<TypeId>, s': seq<TypeId>, t: TypeId)
    requires s <= s' && t in s
    ensures Position(s', t) == Position(s, t) < |s|
  {
    var p := Position(s, t);
    assert s'[p] == t;
    assert forall k | 0 <= k < p :: s'[k] != t;
  }

  /** The types stand in the set in the order in which they are given. */
  ghost predicate InOrder(ts: seq<TypeId>, s: seq<TypeId>) {
    && (forall t | t in ts :: t in s)
    && (forall i, j | 0 <= i < j < |ts| :: Position(s, ts[i]) < Position(s, ts[j]))
  }

  lemma {:induction false} InOrderMore(ts: seq<TypeId>, s: seq<TypeId>, s': seq<TypeId>)
    requires InOrder(ts, s) && s <= s'
    ensures InOrder(ts, s')
  {
    forall t | t in ts ensures Position(s', t) == Position(s, t) {
      PositionInPrefix(s, s', t);
    }
  }

  /** The user types that are still to come, in their order, and then the others with those that have come. */
  ghost predicate InOrderUpTo(userTypes: seq<TypeId>, i: nat, s: seq<TypeId>)
    requires i <= |userTypes|
  {
    userTypes[i..] <= s && InOrder(userTypes[..i], s[|userTypes| - i..])
  }

  lemma {:induction false} InOrderNext(userTypes: seq<TypeId>, i: nat, s: seq<TypeId>, s': seq<TypeId>)
    requires i < |userTypes| && NoDuplicates(userTypes) && NoDuplicates(s) && InOrderUpTo(userTypes, i, s)
    requires Without(s, userTypes[i]) <= s' && userTypes[i] in s'
    ensures InOrderUpTo(userTypes, i + 1, s')
  {
    hide Without, Position;
    var t, n := userTypes[i], |userTypes| - i;
    var rest := s[1..];
    HeadIsNext(userTypes, i, s);
    WithoutHead(t, rest);
    var d, d' := s[n..], s'[n - 1..];
    assert d == rest[n - 1..] && d <= d';
    InOrderMore(userTypes[..i], d, d');
    assert userTypes[..i + 1] == userTypes[..i] + [t];
    forall k | 0 <= k < i ensures Position(d', userTypes[k]) < |d| {
      assert userTypes[k] in userTypes[..i];
      PositionInPrefix(d, d', userTypes[k]);
    }
    NotBefore(s', t, rest, n - 1);
  }

  lemma {:induction false} HeadIsNext(userTypes: seq<TypeId>, i: nat, s: seq<TypeId>)
    requires i < |userTypes| && userTypes[i..] <= s && NoDuplicates(s)
    ensures s != [] && s[0] == userTypes[i] && s == [userTypes[i]] + s[1..] && userTypes[i] !in s[1..]
    ensures userTypes[i + 1..] <= s[1..]
  {
    assert userTypes[i..] == s[..|userTypes| - i];
    assert userTypes[i + 1..] == s[1..][..|userTypes| - i - 1];
  }

  lemma {:induction false} NotBefore(s': seq<TypeId>, t: TypeId, rest: seq<TypeId>, m: nat)
    requires rest <= s' && t in s' && t !in rest && m <= |rest|
    ensures t in s'[m..] && Position(s'[m..], t) >= |rest| - m
  {
    var p := Position(s', t);
    assert p >= |rest|;
    assert s'[m..][p - m] == t;
    forall k | 0 <= k < |rest| - m ensures s'[m..][k] != t {
      assert s'[m..][k] == rest[m + k];
    }
  }

  /** The types from which everything is collected. */
  function Roots(userTypes: seq<TypeId>, rootTypes: seq<TypeId>, argTypes: seq<TypeRef>,
      introspection: TypeId): seq<TypeId> {
    userTypes + (rootTypes + NamedTypes(argTypes) + [introspection])
  }

  /**
   `GraphQLSchema.__init__`: with the user types, the root types, the types of the
   directives' arguments and `__Schema`, exactly the types that these refer to, directly
   or not. The set is closed, and has the user types in their order.
   */
  method CollectTypes(types: Types, userTypes: seq<TypeId>, rootTypes: seq<TypeId>, argTypes: seq<TypeRef>,
      introspection: TypeId)
    returns (r: seq<TypeId>)
    ensures NoDuplicates(r)
    ensures forall t :: t in r <==>
              IsLedTo(GraphOf(types), Elements(Roots(userTypes, rootTypes, argTypes, introspection)), t)
    ensures IsClosed(GraphOf(types), Elements(r), Elements(r))
    ensures NoDuplicates(userTypes) ==> InOrder(userTypes, r)
  {
    hide UserTypesUpTo, InOrderUpTo, Searched, NoDuplicates, InOrder, IsClosed, IsLedTo, NamedTypes, Roots;
    var allReferencedTypes := new TypeSet.WithInitialTypes(types, userTypes);
    MarkedOnly(types, userTypes);
    for i := 0 to |userTypes|
      invariant fresh(allReferencedTypes) && allReferencedTypes.types == types
      invariant UserTypesUpTo(types, userTypes, i, allReferencedTypes.collected)
      invariant NoDuplicates(userTypes) ==> InOrderUpTo(userTypes, i, allReferencedTypes.collected)
    {
      ghost var s := allReferencedTypes.collected;
      UserTypeIsMarked(types, userTypes, i, s);
      allReferencedTypes.Delete(userTypes[i]);
      allReferencedTypes.CollectReferencedTypes(Named(userTypes[i]));
      OneMoreUserType(types, userTypes, i, s, allReferencedTypes.collected);
      SearchedHolds(types, userTypes[i], Without(s, userTypes[i]), allReferencedTypes.collected);
      if NoDuplicates(userTypes) {
        InOrderNext(userTypes, i, s, allReferencedTypes.collected);
      }
    }
    ghost var user := allReferencedTypes.collected;
    UserTypesDone(types, userTypes, user);
    ghost var others := rootTypes + NamedTypes(argTypes) + [introspection];
    allReferencedTypes.CollectAll(Refs(rootTypes) + argTypes + [Named(introspection)]);
    NamedRoots(rootTypes, argTypes, introspection);
    r := allReferencedTypes.collected;
    AllCollected(types, userTypes, user, others, r);
    AllRoots(userTypes, rootTypes, argTypes, introspection);
  }

  lemma {:induction false} MarkedOnly(types: Types, userTypes: seq<TypeId>)
    ensures UserTypesUpTo(types, userTypes, 0, Distinct(userTypes))
    ensures NoDuplicates(userTypes) ==> InOrderUpTo(userTypes, 0, Distinct(userTypes))
  {
    var s := Distinct(userTypes);
    forall t | t in s ensures IsLedTo(GraphOf(types), Elements(userTypes), t) && IsPending(userTypes, 0, t) {
      ElementAt(userTypes, t);
      LeadsToItself(GraphOf(types), t);
      assert userTypes[0..] == userTypes;
    }
    assert Settled(userTypes, 0, s) == {};
    NothingIsClosed(GraphOf(types));
    assert userTypes[0..] == userTypes && userTypes[..0] == [];
  }

  lemma {:induction false} UserTypeIsMarked(types: Types, userTypes: seq<TypeId>, i: nat, s: seq<TypeId>)
    requires i < |userTypes| && UserTypesUpTo(types, userTypes, i, s)
    ensures userTypes[i] in s && NoDuplicates(s)
  {
    assert userTypes[i] in userTypes;
  }

  lemma {:induction false} SearchedHolds(types: Types, t: TypeId, x: seq<TypeId>, y: seq<TypeId>)
    requires Searched(types, {t}, x, y)
    ensures x <= y && t in y && NoDuplicates(y)
  {
    assert t in {t};
    ElementAt(y, t);
  }

  lemma {:induction false} UserTypesDone(types: Types, userTypes: seq<TypeId>, s: seq<TypeId>)
    requires UserTypesUpTo(types, userTypes, |userTypes|, s)
    ensures NoDuplicates(s) && IsClosed(GraphOf(types), Elements(s), Elements(s))
    ensures forall t | t in s :: IsLedTo(GraphOf(types), Elements(userTypes), t)
    ensures forall t | t in userTypes :: t in s
    ensures NoDuplicates(userTypes) && InOrderUpTo(userTypes, |userTypes|, s) ==> InOrder(userTypes, s)
  {
    assert userTypes[..|userTypes|] == userTypes && s[0..] == s;
    assert Settled(userTypes, |userTypes|, s) == Elements(s) by {
      forall t ensures t in Settled(userTypes, |userTypes|, s) <==> t in Elements(s) {
        ElementAt(s, t);
      }
    }
  }

  lemma {:induction false} NamedRoots(rootTypes: seq<TypeId>, argTypes: seq<TypeRef>, introspection: TypeId)
    ensures NamedTypes(Refs(rootTypes) + argTypes + [Named(introspection)]) ==
            rootTypes + NamedTypes(argTypes) + [introspection]
  {
    hide NamedTypes, Refs;
    var refs := Refs(rootTypes) + argTypes + [Named(introspection)];
    var all := rootTypes + NamedTypes(argTypes) + [introspection];
    forall i | 0 <= i < |refs| ensures NamedTypes(refs)[i] == all[i] {
      assert NamedTypes(refs)[i] == NamedType(refs[i]);
    }
  }

  lemma {:induction false} AllRoots(userTypes: seq<TypeId>, rootTypes: seq<TypeId>, argTypes: seq<TypeRef>,
      introspection: TypeId)
    ensures Elements(Roots(userTypes, rootTypes, argTypes, introspection)) ==
            Elements(userTypes) + Elements(rootTypes + NamedTypes(argTypes) + [introspection])
  {
    ElementsConcat(userTypes, rootTypes + NamedTypes(argTypes) + [introspection]);
  }

  /** After the user types, everything that the other roots lead to. */
  lemma {:induction false} AllCollected(types: Types, userTypes: seq<TypeId>, user: seq<TypeId>,
      others: seq<TypeId>, r: seq<TypeId>)
    requires NoDuplicates(user) && IsClosed(GraphOf(types), Elements(user), Elements(user))
    requires forall t | t in user :: IsLedTo(GraphOf(types), Elements(userTypes), t)
    requires forall t | t in userTypes :: t in user
    requires Searched(types, Elements(others), user, r)
    ensures NoDuplicates(r) && IsClosed(GraphOf(types), Elements(r), Elements(r))
    ensures forall t :: t in r <==> IsLedTo(GraphOf(types), Elements(userTypes) + Elements(others), t)
    ensures InOrder(userTypes, user) ==> InOrder(userTypes, r)
  {
    hide LeadsTo, GraphOf, NoDuplicates, InOrder, IsClosed, IsLedTo;
    ElementsGrow(user, r);
    if InOrder(userTypes, user) {
      InOrderMore(userTypes, user, r);
    }
    hide Elements;
    ClosedTogether(GraphOf(types), Elements(user), Elements(user), Elements(r) - Elements(user), Elements(r),
        Elements(r));
    forall t ensures t in r <==> IsLedTo(GraphOf(types), Elements(userTypes) + Elements(others), t) {
      ExactlyLedTo(types, userTypes, user, others, r, t);
    }
  }

  lemma {:induction false} ExactlyLedTo(types: Types, userTypes: seq<TypeId>, user: seq<TypeId>,
      others: seq<TypeId>, r: seq<TypeId>, t: TypeId)
    requires IsClosed(GraphOf(types), Elements(r), Elements(r)) && Searched(types, Elements(others), user, r)
    requires forall t | t in user :: IsLedTo(GraphOf(types), Elements(userTypes), t)
    requires forall t | t in userTypes :: t in user
    ensures t in r <==> IsLedTo(GraphOf(types), Elements(userTypes) + Elements(others), t)
  {
    var graph, roots := GraphOf(types), Elements(userTypes) + Elements(others);
    ElementAt(r, t);
    ElementAt(user, t);
    hide LeadsTo, GraphOf, NoDuplicates, IsClosed, Elements;
    if t in r {
      assert t in user || t in Elements(r) - Elements(user);
      var from := if t in user then Elements(userTypes) else Elements(others);
      assert IsLedTo(graph, from, t);
      var f :| f in from && LeadsTo(graph, f, t);
      assert f in roots;
    }
    if IsLedTo(graph, roots, t) {
      var f :| f in roots && LeadsTo(graph, f, t);
      RootIsCollected(types, userTypes, user, others, r, f);
      StaysInside(graph, Elements(r), f, t);
    }
  }

  lemma {:induction false} RootIsCollected(types: Types, userTypes: seq<TypeId>, user: seq<TypeId>,
      others: seq<TypeId>, r: seq<TypeId>, f: TypeId)
    requires Searched(types, Elements(others), user, r) && (forall t | t in userTypes :: t in user)
    requires f in Elements(userTypes) + Elements(others)
    ensures f in Elements(r)
  {
    ElementsGrow(user, r);
    ElementAt(userTypes, f);
    ElementAt(user, f);
  }
}
