/**
 The AST traversal engine.  `VisitItem`, `Descend` and `Level` are the plain recursive
 rewrite that the hand-written stack machine of the source has to agree with, for every
 tree and every visitor.
 */
module Visitor {
  import opened Options

  datatype Key = Name(name: string) | Index(index: nat)

  /**
   What an attribute of an AST node can hold: nothing, a node, a tuple, or data that is
   neither.  `Marker` is the REMOVE value where it has been stored as an attribute.
   */
  datatype Tree =
    | Absent
    | Marker
    | Data(text: string)
    | Arr(items: seq<Tree>)
    | Node(kind: string, attrs: map<string, Tree>)

  /** What a callback returns; `Put(Marker)` is REMOVE and `Idle` is None. */
  datatype Action = Idle | Skip | Break | Put(value: Tree)

  /** Where a callback is called: the arguments `key`, `parent`, `path` and `ancestors`. */
  datatype Place = Place(key: Option<Key>, parent: Option<Tree>, path: seq<Key>, ancestors: seq<Tree>)

  const ROOT_PLACE := Place(None, None, [], [])

  /**
   A visitor with state `S`.  A missing callback is one that returns `Idle` and leaves
   the state alone.
   */
  datatype Visitor<!S> = Visitor(
    enter: (S, Tree, Place) -> (S, Action),
    leave: (S, Tree, Place) -> (S, Action))

  type VisitorKeys = map<string, seq<string>>

  datatype VisitError = NotANode | EmptyPath

  /**
   How a part of a traversal ends.  `Stopped` is a BREAK, with the last edit of the
   innermost level; `Endless` means the given depth was not enough.  `steps` counts
   the iterations of the stack machine.
   */
  datatype Outcome<+S, +R> =
    | Done(state: S, result: R, steps: nat)
    | Stopped(state: S, last: Option<Tree>, steps: nat)
    | Raised(state: S, error: VisitError, steps: nat)
    | Endless

  function After<S, R>(k: nat, o: Outcome<S, R>): Outcome<S, R> {
    match o
    case Done(s, r, n) => Done(s, r, k + n)
    case Stopped(s, e, n) => Stopped(s, e, k + n)
    case Raised(s, e, n) => Raised(s, e, k + n)
    case Endless => Endless
  }

  // ---------------------------------------------------------------------------
  // Levels: the children of a node or the members of an array
  // ---------------------------------------------------------------------------

  function NamesOf(keysOf: VisitorKeys, kind: string): seq<string> {
    if kind in keysOf then keysOf[kind] else []
  }

  function Width(keysOf: VisitorKeys, t: Tree): nat {
    match t
    case Arr(items) => |items|
    case Node(kind, _) => |NamesOf(keysOf, kind)|
    case _ => 0
  }

  function KeyAt(keysOf: VisitorKeys, t: Tree, i: nat): Key
    requires i < Width(keysOf, t)
  {
    if t.Arr? then Index(i) else Name(NamesOf(keysOf, t.kind)[i])
  }

  function Attribute(t: Tree, name: string): Tree
    requires t.Node?
  {
    if name in t.attrs then t.attrs[name] else Absent
  }

  function ChildAt(keysOf: VisitorKeys, t: Tree, i: nat): Tree
    requires i < Width(keysOf, t)
  {
    if t.Arr? then t.items[i] else Attribute(t, NamesOf(keysOf, t.kind)[i])
  }

  /** The place of a child, given the place of the tree that holds it. */
  function ChildPlace(t: Tree, at: Place, key: Key): Place {
    Place(Some(key), Some(t), at.path + [key], Inner(at))
  }

  /** The ancestors that the children of a tree at this place are called with. */
  function Inner(at: Place): seq<Tree> {
    at.ancestors + if at.parent.Some? then [at.parent.value] else []
  }

  /** The edit of each child seen so far: `None` where there was none. */
  type Edits = seq<Option<Tree>>

  function LastEdit(edits: Edits): Option<Tree> {
    if edits == [] then None
    else if edits[|edits| - 1].Some? then edits[|edits| - 1]
    else LastEdit(edits[..|edits| - 1])
  }

  /** The array with edited members replaced and removed members left out. */
  function EditedItems(items: seq<Tree>, edits: Edits): seq<Tree>
    requires |edits| <= |items|
  {
    if edits == [] then []
    else
      var k := |edits| - 1;
      EditedItems(items, edits[..k]) +
      (match edits[k]
       case None => [items[k]]
       case Some(Marker) => []
       case Some(x) => [x])
  }

  /** The attributes with edited children replaced. */
  function EditedAttrs(attrs: map<string, Tree>, names: seq<string>, edits: Edits): map<string, Tree>
    requires |edits| <= |names|
  {
    if edits == [] then attrs
    else
      var k := |edits| - 1;
      var before := EditedAttrs(attrs, names, edits[..k]);
      if edits[k].Some? then before[names[k] := edits[k].value] else before
  }

  /** The tree with all its children's edits applied. */
  function Rebuild(keysOf: VisitorKeys, t: Tree, edits: Edits): Tree
    requires |edits| == Width(keysOf, t)
  {
    match t
    case Arr(items) => Arr(EditedItems(items, edits))
    case Node(kind, attrs) => Node(kind, EditedAttrs(attrs, NamesOf(keysOf, kind), edits))
    case _ => t
  }

  lemma {:induction false} RebuildUnedited(keysOf: VisitorKeys, t: Tree, edits: Edits)
    requires |edits| == Width(keysOf, t) && LastEdit(edits).None?
    ensures Rebuild(keysOf, t, edits) == t
  {
    if t.Arr? {
      ItemsUnedited(t.items, edits);
      assert t.items[..|edits|] == t.items;
    } else if t.Node? {
      AttrsUnedited(t.attrs, NamesOf(keysOf, t.kind), edits);
    }
  }

  lemma {:induction false} ItemsUnedited(items: seq<Tree>, edits: Edits)
    requires |edits| <= |items| && LastEdit(edits).None?
    ensures EditedItems(items, edits) == items[..|edits|]
    decreases |edits|
  {
    if edits != [] {
      ItemsUnedited(items, edits[..|edits| - 1]);
    }
  }

  lemma {:induction false} AttrsUnedited(attrs: map<string, Tree>, names: seq<string>, edits: Edits)
    requires |edits| <= |names| && LastEdit(edits).None?
    ensures EditedAttrs(attrs, names, edits) == attrs
    decreases |edits|
  {
    if edits != [] {
      AttrsUnedited(attrs, names, edits[..|edits| - 1]);
    }
  }

  // ---------------------------------------------------------------------------
  // The recursive rewrite
  // ---------------------------------------------------------------------------

  /** Visits one tree at its place; `sofar` is the last edit of its elder siblings. */
  function VisitItem<S>(depth: nat, keysOf: VisitorKeys, v: Visitor<S>, s: S, t: Tree, at: Place,
      sofar: Option<Tree>): (o: Outcome<S, Option<Tree>>)
    ensures !o.Endless? ==> o.steps > 0
    decreases depth, 1, 0
  {
    match t
    case Arr(_) => Descend(depth, keysOf, v, s, t, at, None, sofar)
    case Node(_, _) =>
      var (s', action) := v.enter(s, t, at);
      (match action
       case Idle => Descend(depth, keysOf, v, s', t, at, None, sofar)
       case Break => Stopped(s', sofar, 1)
       case Skip => if at.path == [] then Raised(s', EmptyPath, 1) else Done(s', None, 1)
       case Put(x) =>
         if x.Node? then Descend(depth, keysOf, v, s', x, at, Some(x), sofar)
         else if at.path == [] then Raised(s', EmptyPath, 1)
         else Done(s', Some(x), 1))
    case _ => Raised(s, NotANode, 1)
  }

  /** Visits the children of `t` and then leaves it; `entered` is the edit made on enter. */
  function Descend<S>(depth: nat, keysOf: VisitorKeys, v: Visitor<S>, s: S, t: Tree, at: Place,
      entered: Option<Tree>, sofar: Option<Tree>): (o: Outcome<S, Option<Tree>>)
    ensures !o.Endless? ==> o.steps > 0
    decreases depth, 0, 0
  {
    if depth == 0 then Endless
    else After(1, LeaveAfter(keysOf, v, Level(depth - 1, keysOf, v, s, t, at, []), t, at, entered, sofar))
  }

  /** Leaves `t` once its children are done. */
  function LeaveAfter<S>(keysOf: VisitorKeys, v: Visitor<S>, o: Outcome<S, Edits>, t: Tree, at: Place,
      entered: Option<Tree>, sofar: Option<Tree>): Outcome<S, Option<Tree>>
    requires o.Done? ==> |o.result| == Width(keysOf, t)
  {
    match o
    case Endless => Endless
    case Stopped(s, e, n) => Stopped(s, e, n)
    case Raised(s, e, n) => Raised(s, e, n)
    case Done(s, edits, n) =>
      var t' := Rebuild(keysOf, t, edits);
      var kept := if LastEdit(edits).Some? then Some(t') else entered;
      if t.Arr? then Done(s, kept, n + 1)
      else
        var (s', action) := v.leave(s, t', at);
        match action
        case Idle => Done(s', kept, n + 1)
        case Break => Stopped(s', if entered.Some? then entered else sofar, n + 1)
        case Skip => Done(s', entered, n + 1)
        case Put(x) => Done(s', Some(x), n + 1)
  }

  /** Visits the children of `t` that come after those whose edits are already known. */
  function Level<S>(depth: nat, keysOf: VisitorKeys, v: Visitor<S>, s: S, t: Tree, at: Place, edits: Edits)
    : (o: Outcome<S, Edits>)
    requires |edits| <= Width(keysOf, t)
    ensures o.Done? ==> |o.result| == Width(keysOf, t)
    ensures !o.Done? && !o.Endless? ==> o.steps > 0
    decreases depth, 2, Width(keysOf, t) - |edits|
  {
    var i := |edits|;
    if i == Width(keysOf, t) then Done(s, edits, 0)
    else if ChildAt(keysOf, t, i).Absent? then
      After(1, Level(depth, keysOf, v, s, t, at, edits + [None]))
    else
      match VisitItem(depth, keysOf, v, s, ChildAt(keysOf, t, i), ChildPlace(t, at, KeyAt(keysOf, t, i)),
          LastEdit(edits))
      case Done(s', e, n) => After(n, Level(depth, keysOf, v, s', t, at, edits + [e]))
      case Stopped(s', e, n) => Stopped(s', e, n)
      case Raised(s', e, n) => Raised(s', e, n)
      case Endless => Endless
  }

  /** The traversal of a whole tree. */
  function Traverse<S>(depth: nat, keysOf: VisitorKeys, v: Visitor<S>, s: S, root: Tree): Outcome<S, Option<Tree>> {
    if root.Node? then VisitItem(depth, keysOf, v, s, root, ROOT_PLACE, None) else Raised(s, NotANode, 1)
  }

  /** What `visit` gives its caller: a tree, or an exception. */
  datatype VisitResult<+S> = Returned(state: S, tree: Tree) | Failed(state: S, error: VisitError)

  function Conclude<S>(o: Outcome<S, Option<Tree>>, root: Tree): VisitResult<S>
    requires !o.Endless?
  {
    match o
    case Done(s, edit, _) => Returned(s, if edit.Some? then edit.value else root)
    case Stopped(s, last, _) => Returned(s, if last.Some? then last.value else root)
    case Raised(s, e, _) => Failed(s, e)
  }

  // ---------------------------------------------------------------------------
  // The edit lists of the stack machine
  // ---------------------------------------------------------------------------

  /** The list `edits` of the machine: a child replaced on enter may occur twice. */
  type EditList = seq<(Option<Key>, Tree)>

  /** `list` is a record of the given edits of the first children of `t`. */
  ghost predicate Records(keysOf: VisitorKeys, t: Tree, list: EditList, edits: Edits)
    requires |edits| <= Width(keysOf, t)
    decreases |edits|
  {
    if edits == [] then list == []
    else
      var k := |edits| - 1;
      if edits[k].None? then Records(keysOf, t, list, edits[..k])
      else
        var key := Some(KeyAt(keysOf, t, k));
        && list != []
        && list[|list| - 1] == (key, edits[k].value)
        && (|| Records(keysOf, t, list[..|list| - 1], edits[..k])
            || (&& |list| > 1
                && list[|list| - 2].0 == key
                && list[|list| - 2].1.Node?
                && Records(keysOf, t, list[..|list| - 2], edits[..k])))
  }

  /** As `Records`, with the replacement made on entering the next child, if any. */
  ghost predicate RecordsEntered(keysOf: VisitorKeys, t: Tree, list: EditList, edits: Edits, key: Key,
      entered: Option<Tree>)
    requires |edits| <= Width(keysOf, t)
  {
    if entered.None? then Records(keysOf, t, list, edits)
    else
      && list != []
      && list[|list| - 1] == (Some(key), entered.value)
      && entered.value.Node?
      && Records(keysOf, t, list[..|list| - 1], edits)
  }

  lemma {:induction false} RecordsOpen(keysOf: VisitorKeys, t: Tree, list: EditList, edits: Edits)
    requires 0 < |edits| <= Width(keysOf, t) && Records(keysOf, t, list, edits)
    ensures var k := |edits| - 1;
            var front := list[..if list == [] then 0 else |list| - 1];
            var key := Some(KeyAt(keysOf, t, k));
            if edits[k].None? then Records(keysOf, t, list, edits[..k])
            else
              && list != [] && list[|list| - 1] == (key, edits[k].value)
              && (|| Records(keysOf, t, front, edits[..k])
                  || (&& front != [] && front[|front| - 1].0 == key && front[|front| - 1].1.Node?
                      && Records(keysOf, t, front[..|front| - 1], edits[..k])))
  {
    if edits[|edits| - 1].Some? && |list| > 1 {
      assert list[..|list| - 1][..|list| - 2] == list[..|list| - 2];
    }
  }

  lemma {:induction false} RecordsLast(keysOf: VisitorKeys, t: Tree, list: EditList, edits: Edits)
    requires |edits| <= Width(keysOf, t) && Records(keysOf, t, list, edits)
    ensures list == [] <==> LastEdit(edits).None?
    ensures list != [] ==> LastEdit(edits) == Some(list[|list| - 1].1)
    decreases |edits|
  {
    if edits != [] && edits[|edits| - 1].None? {
      RecordsLast(keysOf, t, list, edits[..|edits| - 1]);
    }
  }

  /** An array being edited in place and the number of members already removed. */
  datatype Splice = Splice(items: seq<Tree>, offset: int)

  /** The edits applied one after the other; `None` if one is out of range. */
  function SpliceItems(items: seq<Tree>, list: EditList): Option<Splice>
    decreases |list|
  {
    if list == [] then Some(Splice(items, 0))
    else
      var before := SpliceItems(items, list[..|list| - 1]);
      if before.None? then None else SpliceOne(before.value, list[|list| - 1])
  }

  function SpliceOne(before: Splice, edit: (Option<Key>, Tree)): Option<Splice> {
    var (key, value) := edit;
    if key.None? || key.value.Name? then None
    else
      var k := key.value.index - before.offset;
      if !(0 <= k < |before.items|) then None
      else if value.Marker? then Some(Splice(before.items[..k] + before.items[k + 1..], before.offset + 1))
      else Some(Splice(before.items[k := value], before.offset))
  }

  function UpdateAttrs(attrs: map<string, Tree>, list: EditList): map<string, Tree>
    decreases |list|
  {
    if list == [] then attrs
    else
      var (key, value) := list[|list| - 1];
      var before := UpdateAttrs(attrs, list[..|list| - 1]);
      if key.Some? && key.value.Name? then before[key.value.name := value] else before
  }

  /** The array when the members before `k` have been dealt with and left `done`. */
  function Spliced(items: seq<Tree>, done: seq<Tree>, k: nat): Splice
    requires k <= |items|
  {
    Splice(done + items[k..], k - |done|)
  }

  /** As `Spliced`, but member `k` has been replaced by `x`. */
  function SplicedAt(items: seq<Tree>, done: seq<Tree>, k: nat, x: Tree): Splice
    requires k < |items|
  {
    Splice(done + [x] + items[k + 1..], k - |done|)
  }

  lemma {:induction false} EditMember(items: seq<Tree>, done: seq<Tree>, k: nat, x: Tree, y: Tree)
    requires k < |items| && |done| <= k
    ensures Spliced(items, done, k) == SplicedAt(items, done, k, items[k])
    ensures SpliceOne(SplicedAt(items, done, k, x), (Some(Index(k)), y)) ==
            Some(if y.Marker? then Spliced(items, done, k + 1) else SplicedAt(items, done, k, y))
    ensures SplicedAt(items, done, k, y) == Spliced(items, done + [y], k + 1)
  {
    assert done + items[k..] == done + [items[k]] + items[k + 1..];
    var now := done + [x] + items[k + 1..];
    assert now[..|done|] + now[|done| + 1..] == done + items[k + 1..];
    assert now[|done| := y] == done + [y] + items[k + 1..];
  }

  /** The last edit of a list is of member `k`, which the edits before it left as `x`. */
  lemma {:induction false} SpliceNext(items: seq<Tree>, done: seq<Tree>, k: nat, x: Tree, list: EditList)
    requires k < |items| && |done| <= k && list != [] && list[|list| - 1].0 == Some(Index(k))
    requires SpliceItems(items, list[..|list| - 1]) == Some(SplicedAt(items, done, k, x))
    ensures var y := list[|list| - 1].1;
            SpliceItems(items, list) ==
            Some(if y.Marker? then Spliced(items, done, k + 1) else SplicedAt(items, done, k, y))
  {
    EditMember(items, done, k, x, list[|list| - 1].1);
  }

  lemma {:induction false} EditedNext(items: seq<Tree>, edits: Edits)
    requires 0 < |edits| <= |items|
    ensures var k := |edits| - 1;
            var done := EditedItems(items, edits[..k]);
            EditedItems(items, edits) == if edits[k].None? then done + [items[k]]
                                         else if edits[k].value.Marker? then done
                                         else done + [edits[k].value]
  {
  }

  /** The offset arithmetic of the source: what is spliced is exactly the edited array. */
  lemma {:induction false} SpliceMeans(keysOf: VisitorKeys, items: seq<Tree>, list: EditList, edits: Edits)
    requires |edits| <= |items| && Records(keysOf, Arr(items), list, edits)
    ensures |EditedItems(items, edits)| <= |edits|
    ensures SpliceItems(items, list) == Some(Spliced(items, EditedItems(items, edits), |edits|))
    decreases |edits|
  {
    if edits == [] {
      assert [] + items[0..] == items;
      return;
    }
    RecordsOpen(keysOf, Arr(items), list, edits);
    EditedNext(items, edits);
    hide SpliceItems, EditedItems, Spliced, SplicedAt, Records;
    var k := |edits| - 1;
    var done := EditedItems(items, edits[..k]);
    if edits[k].None? {
      SpliceMeans(keysOf, items, list, edits[..k]);
      EditMember(items, done, k, items[k], items[k]);
      return;
    }
    var front, x := list[..|list| - 1], items[k];
    if Records(keysOf, Arr(items), front, edits[..k]) {
      SpliceMeans(keysOf, items, front, edits[..k]);
      EditMember(items, done, k, x, edits[k].value);
    } else {
      SpliceMeans(keysOf, items, front[..|front| - 1], edits[..k]);
      EditMember(items, done, k, x, edits[k].value);
      SpliceNext(items, done, k, x, front);
      x := front[|front| - 1].1;
    }
    SpliceNext(items, done, k, x, list);
  }

  lemma {:induction false} UpdateMeans(keysOf: VisitorKeys, t: Tree, list: EditList, edits: Edits)
    requires t.Node? && |edits| <= Width(keysOf, t) && Records(keysOf, t, list, edits)
    ensures UpdateAttrs(t.attrs, list) == EditedAttrs(t.attrs, NamesOf(keysOf, t.kind), edits)
    decreases |edits|
  {
    if edits != [] {
      var k := |edits| - 1;
      if edits[k].None? {
        UpdateMeans(keysOf, t, list, edits[..k]);
      } else {
        var front := list[..|list| - 1];
        if Records(keysOf, t, front, edits[..k]) {
          UpdateMeans(keysOf, t, front, edits[..k]);
        } else {
          assert list[..|list| - 2] == front[..|front| - 1];
          UpdateMeans(keysOf, t, front[..|front| - 1], edits[..k]);
        }
      }
    }
  }

  /** The first half of a leaving step: the tree with the recorded edits applied. */
  method ApplyEdits(ghost keysOf: VisitorKeys, t: Tree, list: EditList, ghost edits: Edits) returns (r: Tree)
    requires t.Arr? || t.Node?
    requires |edits| == Width(keysOf, t) && Records(keysOf, t, list, edits)
    ensures r == Rebuild(keysOf, t, edits)
  {
    if t.Arr? {
      SpliceMeans(keysOf, t.items, list, edits);
      var items := t.items;
      var editOffset := 0;
      for n := 0 to |list|
        invariant SpliceItems(t.items, list[..n]) == Some(Splice(items, editOffset))
      {
        SplicePrefix(t.items, list, n + 1);
        assert list[..n + 1][..n] == list[..n];
        var arrayKey := list[n].0.value.index - editOffset;
        if list[n].1.Marker? {
          items := items[..arrayKey] + items[arrayKey + 1..];
          editOffset := editOffset + 1;
        } else {
          items := items[arrayKey := list[n].1];
        }
      }
      assert list[..|list|] == list;
      r := Arr(items);
    } else {
      UpdateMeans(keysOf, t, list, edits);
      r := Node(t.kind, UpdateAttrs(t.attrs, list));
    }
  }

  lemma {:induction false} SplicePrefix(items: seq<Tree>, list: EditList, n: nat)
    requires SpliceItems(items, list).Some? && n <= |list|
    ensures SpliceItems(items, list[..n]).Some?
    decreases |list|
  {
    if n < |list| {
      SplicePrefix(items, list[..|list| - 1], n);
      assert list[..|list| - 1][..n] == list[..n];
    } else {
      assert list[..n] == list;
    }
  }
}
