/**
 What the recursive traversal promises, and with it `visit`: it is finite, it calls a
 visitor at the true places of the tree, and a visitor that does not edit gets back the
 tree it gave.
 */
module VisitorProperties {
  import opened Options
  import opened Visitor

  /** The visitor never replaces or removes anything. */
  ghost predicate ReadOnly<S(!new)>(v: Visitor<S>) {
    forall s, t, at :: !v.enter(s, t, at).1.Put? && !v.leave(s, t, at).1.Put?
  }

  /** A visitor that does not replace nodes on enter by other nodes to descend into. */
  ghost predicate NoReplacement<S(!new)>(v: Visitor<S>) {
    forall s, t, at :: var action := v.enter(s, t, at).1; action.Put? ==> !action.value.Node?
  }

  /** Everything below the tree is nothing, a node or a tuple. */
  ghost predicate WellFormed(keysOf: VisitorKeys, t: Tree)
    decreases t
  {
    && (t.Arr? || t.Node?)
    && forall i: nat | i < Width(keysOf, t) ::
         ChildAt(keysOf, t, i).Absent? || WellFormed(keysOf, ChildAt(keysOf, t, i))
  }

  function Height(keysOf: VisitorKeys, t: Tree): nat
    decreases t, 1, 0
  {
    if t.Arr? || t.Node? then 1 + HeightBelow(keysOf, t, Width(keysOf, t)) else 0
  }

  /** The greatest height of the first `n` children. */
  function HeightBelow(keysOf: VisitorKeys, t: Tree, n: nat): nat
    requires n <= Width(keysOf, t)
    decreases t, 0, n
  {
    if n == 0 then 0
    else
      var child, below := ChildAt(keysOf, t, n - 1), HeightBelow(keysOf, t, n - 1);
      if child.Absent? then below
      else if Height(keysOf, child) > below then Height(keysOf, child) else below
  }

  lemma {:induction false} HeightOfChild(keysOf: VisitorKeys, t: Tree, n: nat, i: nat)
    requires i < n <= Width(keysOf, t)
    ensures Height(keysOf, ChildAt(keysOf, t, i)) <= HeightBelow(keysOf, t, n)
    decreases n
  {
    if i < n - 1 {
      HeightOfChild(keysOf, t, n - 1, i);
    }
  }

  // ---------------------------------------------------------------------------
  // The traversal is finite
  // ---------------------------------------------------------------------------

  /** The height of the tree is depth enough, unless nodes are replaced by other nodes on enter. */
  lemma {:induction false} ItemIsFinite<S(!new)>(depth: nat, keysOf: VisitorKeys, v: Visitor<S>, s: S, t: Tree,
      at: Place, sofar: Option<Tree>)
    requires NoReplacement(v) && Height(keysOf, t) <= depth
    ensures !VisitItem(depth, keysOf, v, s, t, at, sofar).Endless?
    decreases depth, 1, 0
  {
    hide Rebuild, LastEdit;
    if t.Arr? {
      LevelIsFinite(depth - 1, keysOf, v, s, t, at, []);
    } else if t.Node? {
      LevelIsFinite(depth - 1, keysOf, v, v.enter(s, t, at).0, t, at, []);
    }
  }

  lemma {:induction false} LevelIsFinite<S(!new)>(depth: nat, keysOf: VisitorKeys, v: Visitor<S>, s: S, t: Tree,
      at: Place, edits: Edits)
    requires NoReplacement(v) && |edits| <= Width(keysOf, t) && HeightBelow(keysOf, t, Width(keysOf, t)) <= depth
    ensures !Level(depth, keysOf, v, s, t, at, edits).Endless?
    decreases depth, 2, Width(keysOf, t) - |edits|
  {
    var i := |edits|;
    if i < Width(keysOf, t) {
      var child := ChildAt(keysOf, t, i);
      if child.Absent? {
        LevelIsFinite(depth, keysOf, v, s, t, at, edits + [None]);
      } else {
        HeightOfChild(keysOf, t, Width(keysOf, t), i);
        var place := ChildPlace(t, at, KeyAt(keysOf, t, i));
        ItemIsFinite(depth, keysOf, v, s, child, place, LastEdit(edits));
        hide VisitItem;
        var o := VisitItem(depth, keysOf, v, s, child, place, LastEdit(edits));
        if o.Done? {
          LevelIsFinite(depth, keysOf, v, o.state, t, at, edits + [o.result]);
        }
      }
    }
  }

  // ---------------------------------------------------------------------------
  // A visitor that does not edit
  // ---------------------------------------------------------------------------

  /** Visiting one tree records no edit, and fails only where the root is skipped. */
  lemma {:induction false} ItemUnedited<S(!new)>(depth: nat, keysOf: VisitorKeys, v: Visitor<S>, s: S, t: Tree,
      at: Place)
    requires ReadOnly(v) && WellFormed(keysOf, t)
    ensures var o := VisitItem(depth, keysOf, v, s, t, at, None);
            && (o.Done? ==> o.result.None?)
            && (o.Stopped? ==> o.last.None?)
            && (o.Raised? ==>
                  && o == Raised(v.enter(s, t, at).0, EmptyPath, 1)
                  && at.path == [] && t.Node? && v.enter(s, t, at).1.Skip?)
    decreases depth, 1, 0
  {
    if depth > 0 {
      if t.Arr? {
        LevelUnedited(depth - 1, keysOf, v, s, t, at, []);
      } else {
        LevelUnedited(depth - 1, keysOf, v, v.enter(s, t, at).0, t, at, []);
      }
    }
    hide Level, Rebuild, WellFormed;
  }

  lemma {:induction false} LevelUnedited<S(!new)>(depth: nat, keysOf: VisitorKeys, v: Visitor<S>, s: S, t: Tree,
      at: Place, edits: Edits)
    requires ReadOnly(v) && WellFormed(keysOf, t) && |edits| <= Width(keysOf, t) && LastEdit(edits).None?
    ensures var o := Level(depth, keysOf, v, s, t, at, edits);
            && (o.Done? ==> LastEdit(o.result).None?)
            && (o.Stopped? ==> o.last.None?)
            && !o.Raised?
    decreases depth, 2, Width(keysOf, t) - |edits|
  {
    var i := |edits|;
    if i < Width(keysOf, t) {
      var child := ChildAt(keysOf, t, i);
      assert (edits + [None])[..i] == edits;
      if child.Absent? {
        LevelUnedited(depth, keysOf, v, s, t, at, edits + [None]);
      } else {
        var place := ChildPlace(t, at, KeyAt(keysOf, t, i));
        ItemUnedited(depth, keysOf, v, s, child, place);
        hide VisitItem;
        var o := VisitItem(depth, keysOf, v, s, child, place, None);
        if o.Done? {
          LevelUnedited(depth, keysOf, v, o.state, t, at, edits + [None]);
        }
      }
    }
  }

  /**
   A visitor that does not edit gets its tree back, whether or not it breaks off; the one
   exception is a visitor that skips the root, for which `visit` pops an empty path.
   */
  lemma {:induction false} ReadOnlyReturnsRoot<S(!new)>(depth: nat, keysOf: VisitorKeys, v: Visitor<S>, s: S,
      root: Tree)
    requires ReadOnly(v) && root.Node? && WellFormed(keysOf, root) && Height(keysOf, root) <= depth
    ensures !Traverse(depth, keysOf, v, s, root).Endless?
    ensures var r := Conclude(Traverse(depth, keysOf, v, s, root), root);
            if v.enter(s, root, ROOT_PLACE).1.Skip? then r == Failed(v.enter(s, root, ROOT_PLACE).0, EmptyPath)
            else r.Returned? && r.tree == root
  {
    ItemIsFinite(depth, keysOf, v, s, root, ROOT_PLACE, None);
    ItemUnedited(depth, keysOf, v, s, root, ROOT_PLACE);
    hide Descend;
  }

  // ---------------------------------------------------------------------------
  // When the path is empty
  // ---------------------------------------------------------------------------

  /** The part of a traversal does not pop an empty path. */
  predicate PopsNoEmptyPath<S, R>(o: Outcome<S, R>) {
    o.Raised? ==> o.error.NotANode?
  }

  lemma {:induction false} ItemPopsNoEmptyPath<S>(depth: nat, keysOf: VisitorKeys, v: Visitor<S>, s: S, t: Tree,
      at: Place, sofar: Option<Tree>)
    requires at.path != []
    ensures PopsNoEmptyPath(VisitItem(depth, keysOf, v, s, t, at, sofar))
    decreases depth, 1, 0
  {
    hide Descend;
    if t.Arr? {
      DescentPopsNoEmptyPath(depth, keysOf, v, s, t, at, None, sofar);
    } else if t.Node? {
      var (s', action) := v.enter(s, t, at);
      var x := if action.Put? then action.value else t;
      DescentPopsNoEmptyPath(depth, keysOf, v, s', x, at, if action.Put? then Some(x) else None, sofar);
    }
  }

  lemma {:induction false} DescentPopsNoEmptyPath<S>(depth: nat, keysOf: VisitorKeys, v: Visitor<S>, s: S, t: Tree,
      at: Place, entered: Option<Tree>, sofar: Option<Tree>)
    ensures PopsNoEmptyPath(Descend(depth, keysOf, v, s, t, at, entered, sofar))
    decreases depth, 0, 0
  {
    if depth > 0 {
      LevelPopsNoEmptyPath(depth - 1, keysOf, v, s, t, at, []);
      hide Level, Rebuild, LastEdit;
    }
  }

  lemma {:induction false} LevelPopsNoEmptyPath<S>(depth: nat, keysOf: VisitorKeys, v: Visitor<S>, s: S, t: Tree,
      at: Place, edits: Edits)
    requires |edits| <= Width(keysOf, t)
    ensures PopsNoEmptyPath(Level(depth, keysOf, v, s, t, at, edits))
    decreases depth, 2, Width(keysOf, t) - |edits|
  {
    var i := |edits|;
    if i < Width(keysOf, t) {
      var child := ChildAt(keysOf, t, i);
      if child.Absent? {
        LevelPopsNoEmptyPath(depth, keysOf, v, s, t, at, edits + [None]);
      } else {
        var place := ChildPlace(t, at, KeyAt(keysOf, t, i));
        ItemPopsNoEmptyPath(depth, keysOf, v, s, child, place, LastEdit(edits));
        hide VisitItem, LastEdit;
        var o := VisitItem(depth, keysOf, v, s, child, place, LastEdit(edits));
        if o.Done? {
          LevelPopsNoEmptyPath(depth, keysOf, v, o.state, t, at, edits + [o.result]);
        }
      }
    }
  }

  /**
   Whatever the visitor does, an empty path is popped exactly when it skips the root on
   enter, or replaces it by something that is not a node; every other way of raising is
   meeting something that is not a node.
   */
  lemma {:induction false} EmptyPathIff<S>(depth: nat, keysOf: VisitorKeys, v: Visitor<S>, s: S, root: Tree)
    requires !Traverse(depth, keysOf, v, s, root).Endless?
    ensures var r := Conclude(Traverse(depth, keysOf, v, s, root), root);
            var action := v.enter(s, root, ROOT_PLACE).1;
            r.Failed? && r.error.EmptyPath? <==> root.Node? && (action.Skip? || (action.Put? && !action.value.Node?))
  {
    if root.Node? {
      var (s', action) := v.enter(s, root, ROOT_PLACE);
      var x := if action.Put? then action.value else root;
      DescentPopsNoEmptyPath(depth, keysOf, v, s', x, ROOT_PLACE, if action.Put? then Some(x) else None, None);
    }
    hide Descend;
  }

  // ---------------------------------------------------------------------------
  // The true places
  // ---------------------------------------------------------------------------

  /** What a tree has under a key. */
  function Under(t: Tree, key: Key): Tree {
    match key
    case Index(i) => if t.Arr? && i < |t.items| then t.items[i] else Absent
    case Name(n) => if t.Node? then Attribute(t, n) else Absent
  }

  /** The trees on the way from the root along a path, without the one at its end. */
  ghost function Trail(root: Tree, path: seq<Key>): seq<Tree>
    decreases |path|
  {
    if path == [] then [] else Trail(root, path[..|path| - 1]) + [Follow(root, path[..|path| - 1])]
  }

  /** The tree at the end of a path from the root. */
  ghost function Follow(root: Tree, path: seq<Key>): Tree
    decreases |path|
  {
    if path == [] then root else Under(Follow(root, path[..|path| - 1]), path[|path| - 1])
  }

  /** The arguments of a callback tell the truth about where `t` is in the tree. */
  ghost predicate TruePlace(root: Tree, t: Tree, at: Place) {
    && Follow(root, at.path) == t
    && Inner(at) == Trail(root, at.path)
    && at.key == (if at.path == [] then None else Some(at.path[|at.path| - 1]))
    && (at.parent.Some? <==> at.path != [])
  }

  lemma {:induction false} TrueChild(keysOf: VisitorKeys, root: Tree, t: Tree, at: Place, i: nat)
    requires TruePlace(root, t, at) && (t.Arr? || t.Node?) && i < Width(keysOf, t)
    ensures TruePlace(root, ChildAt(keysOf, t, i), ChildPlace(t, at, KeyAt(keysOf, t, i)))
  {
    var key := KeyAt(keysOf, t, i);
    assert (at.path + [key])[..|at.path|] == at.path;
  }

  /** A callback, as its visitor can remember it, with its answer. */
  datatype Call = Call(entering: bool, tree: Tree, at: Place, action: Action)

  /** The visitor, remembering its calls. */
  function Recorded<S>(v: Visitor<S>): Visitor<(S, seq<Call>)> {
    Visitor(
      (s: (S, seq<Call>), t, at) => var (s', action) := v.enter(s.0, t, at);
        ((s', s.1 + [Call(true, t, at, action)]), action),
      (s: (S, seq<Call>), t, at) => var (s', action) := v.leave(s.0, t, at);
        ((s', s.1 + [Call(false, t, at, action)]), action))
  }

  lemma {:induction false} RecordedReadOnly<S(!new)>(v: Visitor<S>)
    requires ReadOnly(v)
    ensures ReadOnly(Recorded(v)) && NoReplacement(Recorded(v))
  {
    var w := Recorded(v);
    forall s: (S, seq<Call>), t, at ensures !w.enter(s, t, at).1.Put? && !w.leave(s, t, at).1.Put? {
      assert !v.enter(s.0, t, at).1.Put? && !v.leave(s.0, t, at).1.Put?;
    }
  }

  ghost predicate AllTrue(root: Tree, calls: seq<Call>) {
    forall c | c in calls :: TruePlace(root, c.tree, c.at)
  }

  lemma {:induction false} ItemCalls<S(!new)>(depth: nat, keysOf: VisitorKeys, v: Visitor<S>, s: (S, seq<Call>),
      t: Tree, at: Place, root: Tree)
    requires ReadOnly(v) && WellFormed(keysOf, t) && TruePlace(root, t, at) && AllTrue(root, s.1)
    ensures var o := VisitItem(depth, keysOf, Recorded(v), s, t, at, None);
            !o.Endless? ==> AllTrue(root, o.state.1)
    decreases depth, 1, 0
  {
    RecordedReadOnly(v);
    AddCall(v, s, t, at, root);
    hide WellFormed, TruePlace, Recorded, AllTrue, Descend;
    if t.Arr? {
      DescendCalls(depth, keysOf, v, s, t, at, root);
    } else {
      DescendCalls(depth, keysOf, v, Recorded(v).enter(s, t, at).0, t, at, root);
    }
  }

  lemma {:induction false} DescendCalls<S(!new)>(depth: nat, keysOf: VisitorKeys, v: Visitor<S>, s: (S, seq<Call>),
      t: Tree, at: Place, root: Tree)
    requires ReadOnly(v) && WellFormed(keysOf, t) && TruePlace(root, t, at) && AllTrue(root, s.1)
    ensures var o := Descend(depth, keysOf, Recorded(v), s, t, at, None, None);
            !o.Endless? ==> AllTrue(root, o.state.1)
    decreases depth, 0, 0
  {
    if depth > 0 {
      var w := Recorded(v);
      RecordedReadOnly(v);
      hide TruePlace, LastEdit, Recorded, AllTrue, Rebuild, ReadOnly;
      LevelCalls(depth - 1, keysOf, v, s, t, at, [], root);
      LevelUnedited(depth - 1, keysOf, w, s, t, at, []);
      hide Level, WellFormed;
      var o := Level(depth - 1, keysOf, w, s, t, at, []);
      if o.Done? {
        RebuildUnedited(keysOf, t, o.result);
        AddCall(v, o.state, t, at, root);
      }
    }
  }

  lemma {:induction false} AddCall<S(!new)>(v: Visitor<S>, s: (S, seq<Call>), t: Tree, at: Place, root: Tree)
    requires TruePlace(root, t, at) && AllTrue(root, s.1)
    ensures AllTrue(root, Recorded(v).enter(s, t, at).0.1)
    ensures AllTrue(root, Recorded(v).leave(s, t, at).0.1)
  {
    hide TruePlace;
  }

  lemma {:induction false} LevelCalls<S(!new)>(depth: nat, keysOf: VisitorKeys, v: Visitor<S>, s: (S, seq<Call>),
      t: Tree, at: Place, edits: Edits, root: Tree)
    requires ReadOnly(v) && WellFormed(keysOf, t) && TruePlace(root, t, at) && AllTrue(root, s.1)
    requires |edits| <= Width(keysOf, t) && LastEdit(edits).None?
    ensures var o := Level(depth, keysOf, Recorded(v), s, t, at, edits);
            !o.Endless? ==> AllTrue(root, o.state.1)
    decreases depth, 2, Width(keysOf, t) - |edits|
  {
    var i := |edits|;
    if i < Width(keysOf, t) {
      var child := ChildAt(keysOf, t, i);
      assert (edits + [None])[..i] == edits;
      if child.Absent? {
        LevelCalls(depth, keysOf, v, s, t, at, edits + [None], root);
      } else {
        var place := ChildPlace(t, at, KeyAt(keysOf, t, i));
        TrueChild(keysOf, root, t, at, i);
        ItemCalls(depth, keysOf, v, s, child, place, root);
        RecordedReadOnly(v);
        ItemUnedited(depth, keysOf, Recorded(v), s, child, place);
        hide VisitItem, TruePlace, AllTrue;
        var o := VisitItem(depth, keysOf, Recorded(v), s, child, place, None);
        if o.Done? {
          LevelCalls(depth, keysOf, v, o.state, t, at, edits + [None], root);
        }
      }
    }
  }

  /** Every callback of a traversal that does not edit gets the true key, parent, path and ancestors. */
  lemma {:induction false} CallsAreTrue<S(!new)>(depth: nat, keysOf: VisitorKeys, v: Visitor<S>, s: S, root: Tree)
    requires ReadOnly(v) && root.Node? && WellFormed(keysOf, root) && Height(keysOf, root) <= depth
    ensures var o := Traverse(depth, keysOf, Recorded(v), (s, []), root);
            !o.Endless? && forall c | c in o.state.1 :: TruePlace(root, c.tree, c.at)
  {
    RecordedReadOnly(v);
    ItemIsFinite(depth, keysOf, Recorded(v), (s, []), root, ROOT_PLACE, None);
    ItemCalls(depth, keysOf, v, (s, []), root, ROOT_PLACE, root);
    hide VisitItem;
  }

  // ---------------------------------------------------------------------------
  // The places that editing visitors are told
  // ---------------------------------------------------------------------------

  /** The tree `x` that is descended into where `t` is met: `t`, or the node that was put in its place on enter. */
  ghost predicate IsEntered(calls: seq<Call>, t: Tree, path: seq<Key>, x: Tree) {
    x == t || (x.Node? && exists c :: c in calls && Replaces(c, t, path, x))
  }

  predicate Replaces(c: Call, t: Tree, path: seq<Key>, x: Tree) {
    c.entering && c.tree == t && c.at.path == path && c.action == Put(x)
  }

  /** What is met at a place: the root, or what the parent has under the last key. */
  function Met(root: Tree, at: Place): Tree {
    if at.path == [] || at.parent.None? then root else Under(at.parent.value, at.path[|at.path| - 1])
  }

  /** What is met at the end of the first `k` keys, given the trees descended into before. */
  function MetAt(root: Tree, trail: seq<Tree>, path: seq<Key>, k: nat): Tree
    requires k <= |trail| && k <= |path|
  {
    if k == 0 then root else Under(trail[k - 1], path[k - 1])
  }

  /**
   The ancestors and the parent are the trees descended into along the path: each is what
   the one before it has under the key, or what was put in its place on enter.
   */
  ghost predicate IsLinked(root: Tree, at: Place, calls: seq<Call>) {
    var trail := Inner(at);
    && |trail| == |at.path|
    && at.key == (if at.path == [] then None else Some(at.path[|at.path| - 1]))
    && (at.parent.Some? <==> at.path != [])
    && forall k | 0 <= k < |trail| :: IsEntered(calls, MetAt(root, trail, at.path, k), at.path[..k], trail[k])
  }

  /** On leave the node is a rebuilt one, of the same kind as the one descended into. */
  ghost predicate IsLeft(root: Tree, c: Call, calls: seq<Call>) {
    exists x: Tree :: IsEntered(calls, Met(root, c.at), c.at.path, x) && SameKind(x, c.tree)
  }

  predicate SameKind(x: Tree, y: Tree) {
    x.Node? && y.Node? && x.kind == y.kind
  }

  ghost predicate IsAnswer<S(!new)>(v: Visitor<S>, c: Call) {
    exists s: S :: c.action == if c.entering then v.enter(s, c.tree, c.at).1 else v.leave(s, c.tree, c.at).1
  }

  ghost predicate IsTrueCall<S(!new)>(root: Tree, v: Visitor<S>, c: Call, calls: seq<Call>) {
    && IsLinked(root, c.at, calls) && IsAnswer(v, c)
    && if c.entering then c.tree == Met(root, c.at) else IsLeft(root, c, calls)
  }

  ghost predicate AllLinked<S(!new)>(root: Tree, v: Visitor<S>, calls: seq<Call>) {
    forall c | c in calls :: IsTrueCall(root, v, c, calls)
  }

  lemma {:induction false} LinkedLater(root: Tree, at: Place, calls: seq<Call>, more: seq<Call>)
    requires calls <= more && IsLinked(root, at, calls)
    ensures IsLinked(root, at, more)
  {
    hide MetAt, Inner, Replaces;
    var trail := Inner(at);
    forall k | 0 <= k < |trail| ensures IsEntered(more, MetAt(root, trail, at.path, k), at.path[..k], trail[k]) {
      EnteredLater(calls, more, MetAt(root, trail, at.path, k), at.path[..k], trail[k]);
    }
  }

  lemma {:induction false} EnteredLater(calls: seq<Call>, more: seq<Call>, t: Tree, path: seq<Key>, x: Tree)
    requires calls <= more && IsEntered(calls, t, path, x)
    ensures IsEntered(more, t, path, x)
  {
    hide Replaces;
    assert forall c | c in calls :: c in more;
  }

  lemma {:induction false} TrueLater<S(!new)>(root: Tree, v: Visitor<S>, c: Call, calls: seq<Call>, more: seq<Call>)
    requires calls <= more && IsTrueCall(root, v, c, calls)
    ensures IsTrueCall(root, v, c, more)
  {
    LinkedLater(root, c.at, calls, more);
    hide IsLinked, IsAnswer, IsEntered, SameKind, Met;
    if !c.entering {
      var x :| IsEntered(calls, Met(root, c.at), c.at.path, x) && SameKind(x, c.tree);
      EnteredLater(calls, more, Met(root, c.at), c.at.path, x);
    }
  }

  /** One more true call. */
  lemma {:induction false} LinkedCall<S(!new)>(root: Tree, v: Visitor<S>, calls: seq<Call>, c: Call)
    requires AllLinked(root, v, calls) && IsTrueCall(root, v, c, calls)
    ensures AllLinked(root, v, calls + [c])
  {
    hide IsTrueCall;
    forall d | d in calls + [c] ensures IsTrueCall(root, v, d, calls + [c]) {
      TrueLater(root, v, d, calls, calls + [c]);
    }
  }

  /** The place of a child of a tree that is descended into. */
  lemma {:induction false} LinkedChild(keysOf: VisitorKeys, root: Tree, t: Tree, at: Place, i: nat, calls: seq<Call>)
    requires IsLinked(root, at, calls) && IsEntered(calls, Met(root, at), at.path, t)
    requires (t.Arr? || t.Node?) && i < Width(keysOf, t)
    ensures var place := ChildPlace(t, at, KeyAt(keysOf, t, i));
            IsLinked(root, place, calls) && Met(root, place) == ChildAt(keysOf, t, i)
  {
    hide IsEntered;
    var place := ChildPlace(t, at, KeyAt(keysOf, t, i));
    var trail, longer := Inner(at), Inner(place);
    assert longer == trail + [t];
    assert place.path[..|trail|] == at.path;
    MetIsMetAt(root, at);
    forall k | 0 <= k < |longer|
      ensures IsEntered(calls, MetAt(root, longer, place.path, k), place.path[..k], longer[k])
    {
      assert MetAt(root, longer, place.path, k) == MetAt(root, trail, at.path, k);
      if k < |trail| {
        assert place.path[..k] == at.path[..k];
      }
    }
  }

  lemma {:induction false} MetIsMetAt(root: Tree, at: Place)
    requires |Inner(at)| == |at.path| && (at.parent.Some? <==> at.path != [])
    ensures Met(root, at) == MetAt(root, Inner(at), at.path, |at.path|)
  {
  }

  lemma {:induction false} ItemLinks<S(!new)>(depth: nat, keysOf: VisitorKeys, v: Visitor<S>, s: (S, seq<Call>),
      t: Tree, at: Place, sofar: Option<Tree>, root: Tree)
    requires IsLinked(root, at, s.1) && t == Met(root, at) && AllLinked(root, v, s.1)
    ensures var o := VisitItem(depth, keysOf, Recorded(v), s, t, at, sofar);
            !o.Endless? ==> s.1 <= o.state.1 && AllLinked(root, v, o.state.1)
    decreases depth, 1, 0
  {
    hide IsLinked, IsEntered, Met, AllLinked, Descend;
    if t.Arr? {
      SameEntered(s.1, t, at.path);
      DescendLinks(depth, keysOf, v, s, t, at, None, sofar, root);
    } else if t.Node? {
      var c := EnterLinks(v, s, t, at, root);
      var calls := s.1 + [c];
      LinkedLater(root, at, s.1, calls);
      SameEntered(calls, t, at.path);
      var s' := Recorded(v).enter(s, t, at).0;
      if c.action.Idle? {
        DescendLinks(depth, keysOf, v, s', t, at, None, sofar, root);
      } else if c.action.Put? && c.action.value.Node? {
        ReplacedEntered(calls, c, t, at.path, c.action.value);
        DescendLinks(depth, keysOf, v, s', c.action.value, at, Some(c.action.value), sofar, root);
      }
    }
  }

  lemma {:induction false} SameEntered(calls: seq<Call>, t: Tree, path: seq<Key>)
    ensures IsEntered(calls, t, path, t)
  {
  }

  lemma {:induction false} ReplacedEntered(calls: seq<Call>, c: Call, t: Tree, path: seq<Key>, x: Tree)
    requires c in calls && Replaces(c, t, path, x) && x.Node?
    ensures IsEntered(calls, t, path, x)
  {
    hide Replaces;
  }

  lemma {:induction false} EnterLinks<S(!new)>(v: Visitor<S>, s: (S, seq<Call>), t: Tree, at: Place, root: Tree)
    returns (c: Call)
    requires IsLinked(root, at, s.1) && t == Met(root, at) && AllLinked(root, v, s.1)
    ensures c == Call(true, t, at, v.enter(s.0, t, at).1)
    ensures Recorded(v).enter(s, t, at) == ((v.enter(s.0, t, at).0, s.1 + [c]), c.action)
    ensures AllLinked(root, v, s.1 + [c])
  {
    hide IsLinked, Met, AllLinked;
    c := Call(true, t, at, v.enter(s.0, t, at).1);
    assert IsAnswer(v, c);
    LinkedCall(root, v, s.1, c);
  }

  lemma {:induction false} LeaveLinks<S(!new)>(v: Visitor<S>, s: (S, seq<Call>), t: Tree, at: Place, root: Tree,
      x: Tree)
    requires IsLinked(root, at, s.1) && AllLinked(root, v, s.1)
    requires IsEntered(s.1, Met(root, at), at.path, x) && SameKind(x, t)
    ensures var s' := Recorded(v).leave(s, t, at).0; s.1 <= s'.1 && AllLinked(root, v, s'.1)
  {
    hide IsLinked, Met, AllLinked, IsEntered, SameKind;
    var c := Call(false, t, at, v.leave(s.0, t, at).1);
    assert IsAnswer(v, c) && IsLeft(root, c, s.1);
    LinkedCall(root, v, s.1, c);
  }

  lemma {:induction false} DescendLinks<S(!new)>(depth: nat, keysOf: VisitorKeys, v: Visitor<S>, s: (S, seq<Call>),
      t: Tree, at: Place, entered: Option<Tree>, sofar: Option<Tree>, root: Tree)
    requires IsLinked(root, at, s.1) && IsEntered(s.1, Met(root, at), at.path, t) && AllLinked(root, v, s.1)
    requires t.Arr? || t.Node?
    ensures var o := Descend(depth, keysOf, Recorded(v), s, t, at, entered, sofar);
            !o.Endless? ==> s.1 <= o.state.1 && AllLinked(root, v, o.state.1)
    decreases depth, 0, 0
  {
    if depth == 0 {
      return;
    }
    LevelLinks(depth - 1, keysOf, v, s, t, at, [], root);
    hide Level, IsLinked, IsEntered, Met, AllLinked, Recorded, LeaveAfter;
    var o := Level(depth - 1, keysOf, Recorded(v), s, t, at, []);
    if o.Done? {
      LinkedLater(root, at, s.1, o.state.1);
      EnteredLater(s.1, o.state.1, Met(root, at), at.path, t);
    }
    LeaveAfterLinks(keysOf, v, o, t, at, entered, sofar, root);
  }

  lemma {:induction false} LeaveAfterLinks<S(!new)>(keysOf: VisitorKeys, v: Visitor<S>,
      o: Outcome<(S, seq<Call>), Edits>, t: Tree, at: Place, entered: Option<Tree>, sofar: Option<Tree>, root: Tree)
    requires t.Arr? || t.Node?
    requires !o.Endless? ==> AllLinked(root, v, o.state.1)
    requires o.Done? ==>
               && |o.result| == Width(keysOf, t)
               && IsLinked(root, at, o.state.1) && IsEntered(o.state.1, Met(root, at), at.path, t)
    ensures var r := LeaveAfter(keysOf, Recorded(v), o, t, at, entered, sofar);
            !o.Endless? ==> !r.Endless? && o.state.1 <= r.state.1 && AllLinked(root, v, r.state.1)
  {
    hide IsLinked, IsEntered, Met, AllLinked, Recorded, LastEdit, Rebuild, SameKind;
    if o.Done? && t.Node? {
      RebuiltKind(keysOf, t, o.result);
      LeaveLinks(v, o.state, Rebuild(keysOf, t, o.result), at, root, t);
    }
  }

  lemma {:induction false} RebuiltKind(keysOf: VisitorKeys, t: Tree, edits: Edits)
    requires t.Node? && |edits| == Width(keysOf, t)
    ensures SameKind(t, Rebuild(keysOf, t, edits))
  {
  }

  lemma {:induction false} LevelLinks<S(!new)>(depth: nat, keysOf: VisitorKeys, v: Visitor<S>, s: (S, seq<Call>),
      t: Tree, at: Place, edits: Edits, root: Tree)
    requires IsLinked(root, at, s.1) && IsEntered(s.1, Met(root, at), at.path, t) && AllLinked(root, v, s.1)
    requires (t.Arr? || t.Node?) && |edits| <= Width(keysOf, t)
    ensures var o := Level(depth, keysOf, Recorded(v), s, t, at, edits);
            !o.Endless? ==> s.1 <= o.state.1 && AllLinked(root, v, o.state.1)
    decreases depth, 2, Width(keysOf, t) - |edits|
  {
    var i := |edits|;
    if i < Width(keysOf, t) {
      var child := ChildAt(keysOf, t, i);
      if child.Absent? {
        LevelLinks(depth, keysOf, v, s, t, at, edits + [None], root);
      } else {
        var place := ChildPlace(t, at, KeyAt(keysOf, t, i));
        LinkedChild(keysOf, root, t, at, i, s.1);
        ItemLinks(depth, keysOf, v, s, child, place, LastEdit(edits), root);
        hide VisitItem, IsLinked, IsEntered, Met, AllLinked, Recorded, LastEdit;
        var o := VisitItem(depth, keysOf, Recorded(v), s, child, place, LastEdit(edits));
        if o.Done? {
          LinkedLater(root, at, s.1, o.state.1);
          EnteredLater(s.1, o.state.1, Met(root, at), at.path, t);
          LevelLinks(depth, keysOf, v, o.state, t, at, edits + [o.result], root);
        }
      }
    }
  }

  /**
   Every callback of every traversal, whatever the visitor skips, removes or replaces, is
   told the truth about its place: the path leads through the ancestors it is told, each
   of which is the child of the one before or what was put in its place on enter.
   */
  lemma {:induction false} CallsAreLinked<S(!new)>(depth: nat, keysOf: VisitorKeys, v: Visitor<S>, s: S, root: Tree)
    ensures var o := Traverse(depth, keysOf, Recorded(v), (s, []), root);
            !o.Endless? ==> AllLinked(root, v, o.state.1)
  {
    assert IsLinked(root, ROOT_PLACE, []) && root == Met(root, ROOT_PLACE);
    if root.Node? {
      ItemLinks(depth, keysOf, v, (s, []), root, ROOT_PLACE, None, root);
    }
  }

  /**
   Unless nodes are replaced by other nodes on enter, the path leads from the root through
   exactly these ancestors, and what is entered is what is there, whatever else is edited.
   */
  lemma {:induction false} PlacesAreTrue<S(!new)>(depth: nat, keysOf: VisitorKeys, v: Visitor<S>, s: S, root: Tree)
    requires NoReplacement(v) && Height(keysOf, root) <= depth
    ensures var o := Traverse(depth, keysOf, Recorded(v), (s, []), root);
            !o.Endless? && forall c | c in o.state.1 ::
              TruePlace(root, Follow(root, c.at.path), c.at) && (c.entering ==> c.tree == Follow(root, c.at.path))
  {
    RecordedNoReplacement(v);
    ItemIsFinite(depth, keysOf, Recorded(v), (s, []), root, ROOT_PLACE, None);
    CallsAreLinked(depth, keysOf, v, s, root);
    hide VisitItem, TruePlace, Follow, IsTrueCall, NoReplacement;
    var calls := Traverse(depth, keysOf, Recorded(v), (s, []), root).state.1;
    forall c | c in calls
      ensures TruePlace(root, Follow(root, c.at.path), c.at) && (c.entering ==> c.tree == Follow(root, c.at.path))
    {
      LinkedIsTrue(v, root, c, calls);
    }
  }

  lemma {:induction false} RecordedNoReplacement<S(!new)>(v: Visitor<S>)
    requires NoReplacement(v)
    ensures NoReplacement(Recorded(v))
  {
    var w := Recorded(v);
    forall s: (S, seq<Call>), t, at ensures var action := w.enter(s, t, at).1; action.Put? ==> !action.value.Node? {
      assert w.enter(s, t, at).1 == v.enter(s.0, t, at).1;
    }
  }

  lemma {:induction false} LinkedIsTrue<S(!new)>(v: Visitor<S>, root: Tree, c: Call, calls: seq<Call>)
    requires NoReplacement(v) && AllLinked(root, v, calls) && c in calls
    ensures TruePlace(root, Follow(root, c.at.path), c.at) && (c.entering ==> c.tree == Follow(root, c.at.path))
  {
    assert IsTrueCall(root, v, c, calls);
    var trail, path := Inner(c.at), c.at.path;
    TrailFollows(v, root, c.at, calls, |path|);
    hide Follow, NoReplacement, AllLinked, IsEntered;
    assert path[..|path|] == path && trail[..|path|] == trail;
    MetIsMetAt(root, c.at);
  }

  lemma {:induction false} TrailFollows<S(!new)>(v: Visitor<S>, root: Tree, at: Place, calls: seq<Call>, k: nat)
    requires NoReplacement(v) && AllLinked(root, v, calls) && IsLinked(root, at, calls) && k <= |at.path|
    ensures Inner(at)[..k] == Trail(root, at.path[..k])
    ensures MetAt(root, Inner(at), at.path, k) == Follow(root, at.path[..k])
  {
    hide NoReplacement, AllLinked, IsEntered, Inner;
    if k > 0 {
      TrailFollows(v, root, at, calls, k - 1);
      assert at.path[..k][..k - 1] == at.path[..k - 1];
      NothingReplaced(v, root, calls, MetAt(root, Inner(at), at.path, k - 1), at.path[..k - 1], Inner(at)[k - 1]);
    }
  }

  lemma {:induction false} NothingReplaced<S(!new)>(v: Visitor<S>, root: Tree, calls: seq<Call>, t: Tree,
      path: seq<Key>, x: Tree)
    requires NoReplacement(v) && AllLinked(root, v, calls) && IsEntered(calls, t, path, x)
    ensures x == t
  {
    hide IsLinked, IsLeft, Met;
  }
}
