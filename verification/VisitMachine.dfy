/**
 The stack machine of `visit`, proved to end exactly as the recursive traversal does:
 same callbacks in the same order at the same places, same result, same exception.
 */
module VisitMachine {
  import opened Options
  import opened Visitor

  datatype Keys = Names(names: seq<string>) | Items(items: seq<Tree>) {
    function Count(): nat {
      if Names? then |names| else |items|
    }
  }

  datatype Stack = Bottom | Frame(inArray: bool, idx: int, keys: Keys, edits: EditList, prev: Stack)

  /** The local variables of `visit` between two iterations. */
  datatype Machine = Machine(
    stack: Stack, inArray: bool, keys: Keys, idx: int, edits: EditList,
    parent: Option<Tree>, path: seq<Key>, ancestors: seq<Tree>)

  function KeysFor(keysOf: VisitorKeys, t: Tree): Keys
    requires t.Arr? || t.Node?
  {
    if t.Arr? then Items(t.items) else Names(NamesOf(keysOf, t.kind))
  }

  function LastValue(list: EditList): Option<Tree> {
    if list == [] then None else Some(list[|list| - 1].1)
  }

  /** The record of an edit made on enter. */
  function OnEnter(key: Option<Key>, entered: Option<Tree>): EditList {
    if entered.None? then [] else [(key, entered.value)]
  }

  // ---------------------------------------------------------------------------
  // The open levels behind a stack
  // ---------------------------------------------------------------------------

  /** A tree being traversed: where it is, what its children gave, and its own edit on enter. */
  datatype Opened = Opened(tree: Tree, at: Place, done: Edits, entered: Option<Tree>)

  ghost predicate Sound(keysOf: VisitorKeys, levels: seq<Opened>) {
    && levels != []
    && (forall i | 0 <= i < |levels| ::
          && (levels[i].tree.Arr? || levels[i].tree.Node?)
          && |levels[i].done| <= Width(keysOf, levels[i].tree)
          && (levels[i].entered.Some? ==> levels[i].entered.value.Node?))
    && (forall i | 0 <= i < |levels| - 1 :: |levels[i].done| < Width(keysOf, levels[i].tree))
  }

  function Top(levels: seq<Opened>): Opened
    requires levels != []
  {
    levels[|levels| - 1]
  }

  /** The innermost level has seen one more child. */
  function Advance(levels: seq<Opened>, e: Option<Tree>): seq<Opened>
    requires levels != []
  {
    levels[..|levels| - 1] + [Top(levels).(done := Top(levels).done + [e])]
  }

  ghost predicate Stacked(keysOf: VisitorKeys, root: Tree, stack: Stack, levels: seq<Opened>)
    requires Sound(keysOf, levels)
    decreases |levels|
  {
    var n := |levels|;
    var d := levels[n - 1];
    && stack.Frame?
    && if n == 1 then
         && stack.prev.Bottom? && !stack.inArray && stack.idx == 0 && stack.keys == Items([root])
         && d.at == ROOT_PLACE
         && stack.edits == OnEnter(None, d.entered)
       else
         var c := levels[n - 2];
         var key := KeyAt(keysOf, c.tree, |c.done|);
         && stack.inArray == c.tree.Arr? && stack.keys == KeysFor(keysOf, c.tree) && stack.idx == |c.done|
         && d.at == ChildPlace(c.tree, c.at, key)
         && RecordsEntered(keysOf, c.tree, stack.edits, c.done, key, d.entered)
         && Stacked(keysOf, root, stack.prev, levels[..n - 1])
  }

  ghost predicate Simulates(keysOf: VisitorKeys, root: Tree, m: Machine, levels: seq<Opened>) {
    && Sound(keysOf, levels)
    && Stacked(keysOf, root, m.stack, levels)
    && AtTop(keysOf, m, Top(levels))
  }

  ghost predicate AtTop(keysOf: VisitorKeys, m: Machine, d: Opened)
    requires (d.tree.Arr? || d.tree.Node?) && |d.done| <= Width(keysOf, d.tree)
  {
    && m.inArray == d.tree.Arr? && m.keys == KeysFor(keysOf, d.tree) && m.idx == |d.done| - 1
    && m.parent == Some(d.tree) && m.path == d.at.path && m.ancestors == Inner(d.at)
    && Records(keysOf, d.tree, m.edits, d.done)
  }

  // ---------------------------------------------------------------------------
  // What is left to do
  // ---------------------------------------------------------------------------

  /** The edits of the level around the innermost one, before its own edit on enter. */
  function Elder(levels: seq<Opened>): Option<Tree> {
    if |levels| <= 1 then None else LastEdit(levels[|levels| - 2].done)
  }

  ghost function LeaveTop<S>(keysOf: VisitorKeys, v: Visitor<S>, o: Outcome<S, Edits>, levels: seq<Opened>)
    : Outcome<S, Option<Tree>>
    requires Sound(keysOf, levels)
    requires o.Done? ==> |o.result| == Width(keysOf, Top(levels).tree)
  {
    LeaveAfter(keysOf, v, o, Top(levels).tree, Top(levels).at, Top(levels).entered, Elder(levels))
  }

  /** The end of the whole traversal when the given levels are open. */
  ghost function Resume<S>(depth: nat, keysOf: VisitorKeys, v: Visitor<S>, s: S, levels: seq<Opened>)
    : (o: Outcome<S, Option<Tree>>)
    requires Sound(keysOf, levels) && |levels| <= depth
    decreases |levels|, 0
  {
    var n := |levels|;
    var d := levels[n - 1];
    Return(depth, keysOf, v, LeaveTop(keysOf, v, Level(depth - n, keysOf, v, s, d.tree, d.at, d.done), levels),
        levels[..n - 1])
  }

  /** Hands the outcome of the innermost level to the level around it. */
  ghost function Return<S>(depth: nat, keysOf: VisitorKeys, v: Visitor<S>, o: Outcome<S, Option<Tree>>,
      outer: seq<Opened>): Outcome<S, Option<Tree>>
    requires outer == [] || (Sound(keysOf, outer) && |Top(outer).done| < Width(keysOf, Top(outer).tree))
    requires |outer| < depth
    decreases |outer|, 1
  {
    if outer == [] || !o.Done? then o
    else After(o.steps, Resume(depth, keysOf, v, o.state, Advance(outer, o.result)))
  }

  // ---------------------------------------------------------------------------
  // Lists of edits from one child to the next
  // ---------------------------------------------------------------------------

  lemma {:induction false} RecordsNone(keysOf: VisitorKeys, t: Tree, list: EditList, done: Edits)
    requires |done| < Width(keysOf, t) && Records(keysOf, t, list, done)
    ensures Records(keysOf, t, list, done + [None])
  {
    assert (done + [None])[..|done|] == done;
  }

  lemma {:induction false} RecordsSome(keysOf: VisitorKeys, t: Tree, list: EditList, done: Edits, x: Tree)
    requires |done| < Width(keysOf, t) && Records(keysOf, t, list, done)
    ensures Records(keysOf, t, list + [(Some(KeyAt(keysOf, t, |done|)), x)], done + [Some(x)])
  {
    assert (done + [Some(x)])[..|done|] == done;
    assert (list + [(Some(KeyAt(keysOf, t, |done|)), x)])[..|list|] == list;
  }

  /** Leaving a child without a further edit: the edit made on entering it stands. */
  lemma {:induction false} RecordsKept(keysOf: VisitorKeys, t: Tree, list: EditList, done: Edits, entered: Option<Tree>)
    requires |done| < Width(keysOf, t)
    requires RecordsEntered(keysOf, t, list, done, KeyAt(keysOf, t, |done|), entered)
    ensures Records(keysOf, t, list, done + [entered])
    ensures LastValue(list) == if entered.Some? then entered else LastEdit(done)
  {
    if entered.None? {
      RecordsNone(keysOf, t, list, done);
      RecordsLast(keysOf, t, list, done);
    } else {
      RecordsSome(keysOf, t, list[..|list| - 1], done, entered.value);
      assert list == list[..|list| - 1] + [list[|list| - 1]];
    }
  }

  /** Leaving a child with an edit, which comes after the one made on entering it. */
  lemma {:induction false} RecordsLeft(keysOf: VisitorKeys, t: Tree, list: EditList, done: Edits,
      entered: Option<Tree>, x: Tree)
    requires |done| < Width(keysOf, t)
    requires RecordsEntered(keysOf, t, list, done, KeyAt(keysOf, t, |done|), entered)
    ensures Records(keysOf, t, list + [(Some(KeyAt(keysOf, t, |done|)), x)], done + [Some(x)])
  {
    var key := KeyAt(keysOf, t, |done|);
    if entered.None? {
      RecordsSome(keysOf, t, list, done, x);
    } else {
      var longer := list + [(Some(key), x)];
      assert (done + [Some(x)])[..|done|] == done;
      assert longer[..|longer| - 2] == list[..|list| - 1];
    }
  }

  // ---------------------------------------------------------------------------
  // How a step changes the open levels
  // ---------------------------------------------------------------------------

  lemma {:induction false} StackedFrame(keysOf: VisitorKeys, root: Tree, stack: Stack, levels: seq<Opened>,
      other: seq<Opened>)
    requires Sound(keysOf, levels) && Sound(keysOf, other) && Stacked(keysOf, root, stack, levels)
    requires |levels| == |other| && levels[..|levels| - 1] == other[..|other| - 1]
    requires Top(levels).at == Top(other).at && Top(levels).entered == Top(other).entered
    ensures Stacked(keysOf, root, stack, other)
  {
    if |levels| > 1 {
      assert levels[|levels| - 2] == levels[..|levels| - 1][|levels| - 2] == other[|levels| - 2];
    }
  }

  lemma {:induction false} SoundAdvance(keysOf: VisitorKeys, levels: seq<Opened>, e: Option<Tree>)
    requires Sound(keysOf, levels) && |Top(levels).done| < Width(keysOf, Top(levels).tree)
    ensures Sound(keysOf, Advance(levels, e))
    ensures Top(Advance(levels, e)) == Top(levels).(done := Top(levels).done + [e])
    ensures Advance(levels, e)[..|levels| - 1] == levels[..|levels| - 1]
  {
  }

  /** The machine has dealt with one child of the innermost level. */
  lemma {:induction false} SimulatesAdvance(keysOf: VisitorKeys, root: Tree, m: Machine, levels: seq<Opened>,
      e: Option<Tree>, list: EditList)
    requires Simulates(keysOf, root, m, levels) && |Top(levels).done| < Width(keysOf, Top(levels).tree)
    requires Records(keysOf, Top(levels).tree, list, Top(levels).done + [e])
    ensures Simulates(keysOf, root, m.(idx := m.idx + 1, edits := list), Advance(levels, e))
  {
    SoundAdvance(keysOf, levels, e);
    StackedFrame(keysOf, root, m.stack, levels, Advance(levels, e));
  }

  lemma {:induction false} SimulatesChild(keysOf: VisitorKeys, root: Tree, m: Machine, levels: seq<Opened>,
      e: Option<Tree>)
    requires Simulates(keysOf, root, m, levels) && |Top(levels).done| < Width(keysOf, Top(levels).tree)
    ensures var d := Top(levels);
            var list := if e.None? then m.edits else m.edits + [(Some(KeyAt(keysOf, d.tree, |d.done|)), e.value)];
            Simulates(keysOf, root, m.(idx := m.idx + 1, edits := list), Advance(levels, e))
  {
    var d := Top(levels);
    if e.None? {
      RecordsNone(keysOf, d.tree, m.edits, d.done);
      SimulatesAdvance(keysOf, root, m, levels, e, m.edits);
    } else {
      RecordsSome(keysOf, d.tree, m.edits, d.done, e.value);
      SimulatesAdvance(keysOf, root, m, levels, e, m.edits + [(Some(KeyAt(keysOf, d.tree, |d.done|)), e.value)]);
    }
  }

  /** The machine after pushing a frame for the tree `t`, entered with `key`. */
  function Pushed(keysOf: VisitorKeys, m: Machine, t: Tree, key: Option<Key>, list: EditList): Machine
    requires t.Arr? || t.Node?
  {
    Machine(
      Frame(m.inArray, m.idx + 1, m.keys, list, m.stack), t.Arr?, KeysFor(keysOf, t), -1, [], Some(t),
      m.path + (if key.Some? then [key.value] else []),
      m.ancestors + (if m.parent.Some? then [m.parent.value] else []))
  }

  lemma {:induction false} OpenedIsSound(keysOf: VisitorKeys, levels: seq<Opened>, t: Tree, entered: Option<Tree>)
    requires Sound(keysOf, levels) && |Top(levels).done| < Width(keysOf, Top(levels).tree)
    requires (t.Arr? || t.Node?) && (entered.Some? ==> entered.value.Node?)
    ensures var d := Top(levels);
            Sound(keysOf, levels + [Opened(t, ChildPlace(d.tree, d.at, KeyAt(keysOf, d.tree, |d.done|)), [], entered)])
  {
    var d := Top(levels);
    var next := levels + [Opened(t, ChildPlace(d.tree, d.at, KeyAt(keysOf, d.tree, |d.done|)), [], entered)];
    assert next[..|levels|] == levels && next[|levels| - 1] == d;
  }

  lemma {:induction false} SimulatesPush(keysOf: VisitorKeys, root: Tree, m: Machine, levels: seq<Opened>, t: Tree,
      entered: Option<Tree>)
    returns (next: seq<Opened>)
    requires Simulates(keysOf, root, m, levels) && |Top(levels).done| < Width(keysOf, Top(levels).tree)
    requires t.Arr? || t.Node?
    requires entered.Some? ==> entered.value.Node?
    ensures var d := Top(levels);
            var key := KeyAt(keysOf, d.tree, |d.done|);
            var list := m.edits + OnEnter(Some(key), entered);
            && next == levels + [Opened(t, ChildPlace(d.tree, d.at, key), [], entered)]
            && Simulates(keysOf, root, Pushed(keysOf, m, t, Some(key), list), next)
  {
    var d := Top(levels);
    var key := KeyAt(keysOf, d.tree, |d.done|);
    var list := m.edits + OnEnter(Some(key), entered);
    RecordsEnter(keysOf, d.tree, m.edits, d.done, key, entered);
    PushedAtTop(keysOf, m, d, t, entered, list);
    OpenedIsSound(keysOf, levels, t, entered);
    hide Records, RecordsEntered, Sound, OnEnter, AtTop, Stacked, Pushed;
    next := levels + [Opened(t, ChildPlace(d.tree, d.at, key), [], entered)];
    assert next[..|next| - 1] == levels && next[|next| - 2] == d;
    StackedPush(keysOf, root, Frame(m.inArray, m.idx + 1, m.keys, list, m.stack), next);
  }

  lemma {:induction false} PushedAtTop(keysOf: VisitorKeys, m: Machine, d: Opened, t: Tree, entered: Option<Tree>,
      list: EditList)
    requires (d.tree.Arr? || d.tree.Node?) && |d.done| < Width(keysOf, d.tree) && AtTop(keysOf, m, d)
    requires t.Arr? || t.Node?
    ensures m.inArray == d.tree.Arr? && m.keys == KeysFor(keysOf, d.tree) && m.idx + 1 == |d.done|
    ensures var key := KeyAt(keysOf, d.tree, |d.done|);
            var pushed := Pushed(keysOf, m, t, Some(key), list);
            && pushed.stack == Frame(m.inArray, m.idx + 1, m.keys, list, m.stack)
            && AtTop(keysOf, pushed, Opened(t, ChildPlace(d.tree, d.at, key), [], entered))
  {
    RecordsNothing(keysOf, t);
    hide Records;
  }

  lemma {:induction false} StackedPush(keysOf: VisitorKeys, root: Tree, stack: Stack, levels: seq<Opened>)
    requires Sound(keysOf, levels) && |levels| > 1 && stack.Frame?
    requires var c, d := levels[|levels| - 2], levels[|levels| - 1];
             var key := KeyAt(keysOf, c.tree, |c.done|);
             && stack.inArray == c.tree.Arr? && stack.keys == KeysFor(keysOf, c.tree) && stack.idx == |c.done|
             && d.at == ChildPlace(c.tree, c.at, key)
             && RecordsEntered(keysOf, c.tree, stack.edits, c.done, key, d.entered)
    requires Sound(keysOf, levels[..|levels| - 1]) && Stacked(keysOf, root, stack.prev, levels[..|levels| - 1])
    ensures Stacked(keysOf, root, stack, levels)
  {
    hide RecordsEntered, Sound;
  }

  lemma {:induction false} RecordsEnter(keysOf: VisitorKeys, t: Tree, list: EditList, done: Edits, key: Key,
      entered: Option<Tree>)
    requires |done| <= Width(keysOf, t) && Records(keysOf, t, list, done)
    requires entered.Some? ==> entered.value.Node?
    ensures RecordsEntered(keysOf, t, list + OnEnter(Some(key), entered), done, key, entered)
  {
    if entered.None? {
      assert list + [] == list;
    } else {
      assert (list + [(Some(key), entered.value)])[..|list|] == list;
    }
  }

  lemma {:induction false} RecordsNothing(keysOf: VisitorKeys, t: Tree)
    ensures Records(keysOf, t, [], [])
  {
  }

  lemma {:induction false} SimulatesRoot(keysOf: VisitorKeys, root: Tree, t: Tree, entered: Option<Tree>)
    requires t.Node? && (entered.Some? ==> entered.value.Node?)
    ensures Simulates(keysOf, root,
                      Pushed(keysOf, Machine(Bottom, false, Items([root]), -1, [], None, [], []), t, None,
                             OnEnter(None, entered)),
                      [Opened(t, ROOT_PLACE, [], entered)])
  {
  }

  /** The machine after popping the frame of the innermost level. */
  function Popped(m: Machine, parent: Option<Tree>, list: EditList, path: seq<Key>, ancestors: seq<Tree>): Machine
    requires m.stack.Frame?
  {
    Machine(m.stack.prev, m.stack.inArray, m.stack.keys, m.stack.idx, list, parent, path, ancestors)
  }

  lemma {:induction false} SimulatesPop(keysOf: VisitorKeys, root: Tree, m: Machine, levels: seq<Opened>,
      e: Option<Tree>, list: EditList)
    requires Simulates(keysOf, root, m, levels) && |levels| > 1
    requires var c := levels[|levels| - 2]; Records(keysOf, c.tree, list, c.done + [e])
    ensures var c := levels[|levels| - 2];
            Simulates(keysOf, root, Popped(m, Some(c.tree), list, c.at.path, Inner(c.at)),
                      Advance(levels[..|levels| - 1], e))
  {
    var outer := levels[..|levels| - 1];
    assert Top(outer) == levels[|levels| - 2];
    SoundAdvance(keysOf, outer, e);
    StackedFrame(keysOf, root, m.stack.prev, outer, Advance(outer, e));
  }

  // ---------------------------------------------------------------------------
  // How a step changes what is left to do
  // ---------------------------------------------------------------------------

  lemma {:induction false} AfterAfter<S, R>(j: nat, k: nat, o: Outcome<S, R>)
    ensures After(j, After(k, o)) == After(j + k, o)
  {
  }

  /** An outcome that ends the traversal, at another type. */
  function Recast<S, Q, R>(o: Outcome<S, Q>): Outcome<S, R>
    requires !o.Done?
  {
    match o
    case Stopped(s, e, n) => Stopped(s, e, n)
    case Raised(s, e, n) => Raised(s, e, n)
    case Endless => Endless
  }

  lemma {:induction false} LeaveTopAfter<S>(keysOf: VisitorKeys, v: Visitor<S>, k: nat, o: Outcome<S, Edits>,
      levels: seq<Opened>)
    requires Sound(keysOf, levels)
    requires o.Done? ==> |o.result| == Width(keysOf, Top(levels).tree)
    ensures LeaveTop(keysOf, v, After(k, o), levels) == After(k, LeaveTop(keysOf, v, o, levels))
  {
  }

  lemma {:induction false} ReturnAfter<S>(depth: nat, keysOf: VisitorKeys, v: Visitor<S>, k: nat,
      o: Outcome<S, Option<Tree>>, outer: seq<Opened>)
    requires outer == [] || (Sound(keysOf, outer) && |Top(outer).done| < Width(keysOf, Top(outer).tree))
    requires |outer| < depth
    ensures Return(depth, keysOf, v, After(k, o), outer) == After(k, Return(depth, keysOf, v, o, outer))
  {
    hide Resume;
  }

  /** If the rest of the level is `k` steps further on with one more edit, so is everything. */
  lemma {:induction false} ResumeAdvance<S>(depth: nat, keysOf: VisitorKeys, v: Visitor<S>, s: S, s': S,
      levels: seq<Opened>, e: Option<Tree>, k: nat)
    requires Sound(keysOf, levels) && |levels| <= depth
    requires var d := Top(levels);
             && |d.done| < Width(keysOf, d.tree)
             && Level(depth - |levels|, keysOf, v, s, d.tree, d.at, d.done) ==
                After(k, Level(depth - |levels|, keysOf, v, s', d.tree, d.at, d.done + [e]))
    ensures Sound(keysOf, Advance(levels, e))
    ensures Resume(depth, keysOf, v, s, levels) == After(k, Resume(depth, keysOf, v, s', Advance(levels, e)))
  {
    var d := Top(levels);
    var next := Advance(levels, e);
    SoundAdvance(keysOf, levels, e);
    hide Level, Sound;
    var o := Level(depth - |levels|, keysOf, v, s', d.tree, d.at, d.done + [e]);
    SameElder(keysOf, v, o, levels, next);
    LeaveTopAfter(keysOf, v, k, o, levels);
    SoundOuter(keysOf, levels);
    ReturnAfter(depth, keysOf, v, k, LeaveTop(keysOf, v, o, levels), levels[..|levels| - 1]);
  }

  lemma {:induction false} SoundOuter(keysOf: VisitorKeys, levels: seq<Opened>)
    requires Sound(keysOf, levels)
    ensures var outer := levels[..|levels| - 1];
            outer == [] || (Sound(keysOf, outer) && |Top(outer).done| < Width(keysOf, Top(outer).tree))
  {
  }

  lemma {:induction false} SameElder<S>(keysOf: VisitorKeys, v: Visitor<S>, o: Outcome<S, Edits>,
      levels: seq<Opened>, other: seq<Opened>)
    requires Sound(keysOf, levels) && Sound(keysOf, other)
    requires |levels| == |other| && levels[..|levels| - 1] == other[..|other| - 1]
    requires Top(levels).tree == Top(other).tree && Top(levels).at == Top(other).at
    requires Top(levels).entered == Top(other).entered
    requires o.Done? ==> |o.result| == Width(keysOf, Top(levels).tree)
    ensures LeaveTop(keysOf, v, o, levels) == LeaveTop(keysOf, v, o, other)
  {
    if |levels| > 1 {
      assert levels[|levels| - 2] == levels[..|levels| - 1][|levels| - 2] == other[|levels| - 2];
    }
  }

  /** One child of the innermost level ends the whole traversal. */
  lemma {:induction false} ResumeEnds<S>(depth: nat, keysOf: VisitorKeys, v: Visitor<S>, s: S, levels: seq<Opened>)
    requires Sound(keysOf, levels) && |levels| <= depth
    requires var d := Top(levels); !Level(depth - |levels|, keysOf, v, s, d.tree, d.at, d.done).Done?
    ensures var d := Top(levels);
            Resume(depth, keysOf, v, s, levels) ==
            Recast(Level(depth - |levels|, keysOf, v, s, d.tree, d.at, d.done))
  {
  }

  /** Descending into a child opens a level of its own. */
  lemma {:induction false} ResumeDescend<S>(depth: nat, keysOf: VisitorKeys, v: Visitor<S>, s: S, s': S,
      levels: seq<Opened>, t: Tree, entered: Option<Tree>)
    requires Sound(keysOf, levels) && |levels| <= depth
    requires t.Arr? || t.Node?
    requires entered.Some? ==> entered.value.Node?
    requires var d := Top(levels);
             var i := |d.done|;
             && i < Width(keysOf, d.tree)
             && var child, at := ChildAt(keysOf, d.tree, i), ChildPlace(d.tree, d.at, KeyAt(keysOf, d.tree, i));
             && !child.Absent?
             && VisitItem(depth - |levels|, keysOf, v, s, child, at, LastEdit(d.done)) ==
                Descend(depth - |levels|, keysOf, v, s', t, at, entered, LastEdit(d.done))
    requires !Resume(depth, keysOf, v, s, levels).Endless?
    ensures var d := Top(levels);
            var next := levels + [Opened(t, ChildPlace(d.tree, d.at, KeyAt(keysOf, d.tree, |d.done|)), [], entered)];
            && |next| <= depth && Sound(keysOf, next)
            && Resume(depth, keysOf, v, s, levels) == After(1, Resume(depth, keysOf, v, s', next))
  {
    var d := Top(levels);
    var at := ChildPlace(d.tree, d.at, KeyAt(keysOf, d.tree, |d.done|));
    var item := Descend(depth - |levels|, keysOf, v, s', t, at, entered, LastEdit(d.done));
    ReturnItemDepth(depth, keysOf, v, s, levels, item);
    OpenedIsSound(keysOf, levels, t, entered);
    hide VisitItem, Resume, Return, Sound, LastEdit;
    ReturnItem(depth, keysOf, v, s, levels, item);
    DescentResumes(depth, keysOf, v, s', levels, Opened(t, at, [], entered));
  }

  /** Going on with what a descent gives is going on, one step later, from the level it opens. */
  lemma {:induction false} DescentResumes<S>(depth: nat, keysOf: VisitorKeys, v: Visitor<S>, s: S,
      levels: seq<Opened>, o: Opened)
    requires levels != [] && |levels| < depth && Sound(keysOf, levels + [o]) && o.done == []
    ensures Sound(keysOf, levels) && |Top(levels).done| < Width(keysOf, Top(levels).tree)
    ensures var item := Descend(depth - |levels|, keysOf, v, s, o.tree, o.at, o.entered, LastEdit(Top(levels).done));
            Return(depth, keysOf, v, item, levels) == After(1, Resume(depth, keysOf, v, s, levels + [o]))
  {
    var next := levels + [o];
    assert next[..|levels|] == levels && Top(next) == o;
    SoundOuter(keysOf, next);
    hide Resume, Return, Sound, LastEdit, Level;
    DescendLeft(depth - |levels|, keysOf, v, s, levels, o);
    hide Descend, LeaveTop;
    ResumeTop(depth, keysOf, v, s, next);
    var left := LeaveTop(keysOf, v, Level(depth - |next|, keysOf, v, s, o.tree, o.at, []), next);
    ReturnAfter(depth, keysOf, v, 1, left, levels);
  }

  lemma {:induction false} DescendLeft<S>(depth: nat, keysOf: VisitorKeys, v: Visitor<S>, s: S, outer: seq<Opened>,
      d: Opened)
    requires depth > 0 && outer != [] && Sound(keysOf, outer + [d]) && d.done == []
    ensures Descend(depth, keysOf, v, s, d.tree, d.at, d.entered, LastEdit(Top(outer).done)) ==
            After(1, LeaveTop(keysOf, v, Level(depth - 1, keysOf, v, s, d.tree, d.at, []), outer + [d]))
  {
    hide Level, LeaveAfter, Sound, LastEdit;
  }

  lemma {:induction false} ResumeTop<S>(depth: nat, keysOf: VisitorKeys, v: Visitor<S>, s: S, levels: seq<Opened>)
    requires Sound(keysOf, levels) && |levels| <= depth
    ensures var d := Top(levels);
            var left := LeaveTop(keysOf, v, Level(depth - |levels|, keysOf, v, s, d.tree, d.at, d.done), levels);
            var outer := levels[..|levels| - 1];
            && (outer == [] || (Sound(keysOf, outer) && |Top(outer).done| < Width(keysOf, Top(outer).tree)))
            && Resume(depth, keysOf, v, s, levels) == Return(depth, keysOf, v, left, outer)
  {
    SoundOuter(keysOf, levels);
  }

  /** A child whose visit ends leaves depth for a level of its own. */
  lemma {:induction false} ReturnItemDepth<S>(depth: nat, keysOf: VisitorKeys, v: Visitor<S>, s: S,
      levels: seq<Opened>, item: Outcome<S, Option<Tree>>)
    requires Sound(keysOf, levels) && |levels| <= depth
    requires var d := Top(levels);
             var i := |d.done|;
             && i < Width(keysOf, d.tree) && !ChildAt(keysOf, d.tree, i).Absent?
             && item == VisitItem(depth - |levels|, keysOf, v, s, ChildAt(keysOf, d.tree, i),
                                  ChildPlace(d.tree, d.at, KeyAt(keysOf, d.tree, i)), LastEdit(d.done))
    requires !Resume(depth, keysOf, v, s, levels).Endless?
    ensures !item.Endless?
  {
    hide VisitItem, Level;
    var d := Top(levels);
    LevelItem(depth - |levels|, keysOf, v, s, d.tree, d.at, d.done);
    if item.Endless? {
      ResumeEnds(depth, keysOf, v, s, levels);
    }
  }

  /** A level with a child to visit goes on with what that child gives. */
  lemma {:induction false} LevelItem<S>(depth: nat, keysOf: VisitorKeys, v: Visitor<S>, s: S, t: Tree, at: Place,
      done: Edits)
    requires |done| < Width(keysOf, t) && !ChildAt(keysOf, t, |done|).Absent?
    ensures var i := |done|;
            var item := VisitItem(depth, keysOf, v, s, ChildAt(keysOf, t, i), ChildPlace(t, at, KeyAt(keysOf, t, i)),
                LastEdit(done));
            Level(depth, keysOf, v, s, t, at, done) ==
            if item.Done? then After(item.steps, Level(depth, keysOf, v, item.state, t, at, done + [item.result]))
            else Recast(item)
  {
  }

  lemma {:induction false} ReturnItem<S>(depth: nat, keysOf: VisitorKeys, v: Visitor<S>, s: S, levels: seq<Opened>,
      item: Outcome<S, Option<Tree>>)
    requires Sound(keysOf, levels) && |levels| < depth
    requires var d := Top(levels);
             var i := |d.done|;
             && i < Width(keysOf, d.tree) && !ChildAt(keysOf, d.tree, i).Absent?
             && item == VisitItem(depth - |levels|, keysOf, v, s, ChildAt(keysOf, d.tree, i),
                                  ChildPlace(d.tree, d.at, KeyAt(keysOf, d.tree, i)), LastEdit(d.done))
    ensures Resume(depth, keysOf, v, s, levels) == Return(depth, keysOf, v, item, levels)
  {
    hide VisitItem, Level;
    var d := Top(levels);
    LevelItem(depth - |levels|, keysOf, v, s, d.tree, d.at, d.done);
    if item.Done? {
      ResumeAdvance(depth, keysOf, v, s, item.state, levels, item.result, item.steps);
    } else {
      ResumeEnds(depth, keysOf, v, s, levels);
    }
  }

  /** Leaving the innermost level: its tree's edit goes to the level around it. */
  lemma {:induction false} ResumeLeave<S>(depth: nat, keysOf: VisitorKeys, v: Visitor<S>, s: S, levels: seq<Opened>)
    requires Sound(keysOf, levels) && |levels| <= depth
    requires |Top(levels).done| == Width(keysOf, Top(levels).tree)
    ensures var left := LeaveTop(keysOf, v, Done(s, Top(levels).done, 0), levels);
            var outer := levels[..|levels| - 1];
            && (outer == [] || (Sound(keysOf, outer) && |Top(outer).done| < Width(keysOf, Top(outer).tree)))
            && Resume(depth, keysOf, v, s, levels) == Return(depth, keysOf, v, left, outer)
  {
    SoundOuter(keysOf, levels);
  }

  // ---------------------------------------------------------------------------
  // The loop invariant and its preservation, one lemma a branch
  // ---------------------------------------------------------------------------

  /** What a run is about: the arguments of `visit` and how the recursive traversal ends. */
  datatype Run<!S> = Run(depth: nat, keysOf: VisitorKeys, v: Visitor<S>, root: Tree, whole: Outcome<S, Option<Tree>>)

  ghost predicate Holds<S>(run: Run<S>, m: Machine, s: S, levels: seq<Opened>, steps: nat) {
    && !run.whole.Endless?
    && |levels| <= run.depth
    && Simulates(run.keysOf, run.root, m, levels)
    && run.whole == After(steps, Resume(run.depth, run.keysOf, run.v, s, levels))
  }

  /** There is another child to look at. */
  ghost predicate HasChild<S>(run: Run<S>, levels: seq<Opened>)
    requires Sound(run.keysOf, levels)
  {
    |Top(levels).done| < Width(run.keysOf, Top(levels).tree)
  }

  ghost function Child<S>(run: Run<S>, levels: seq<Opened>): Tree
    requires Sound(run.keysOf, levels) && HasChild(run, levels)
  {
    ChildAt(run.keysOf, Top(levels).tree, |Top(levels).done|)
  }

  ghost function NextKey<S>(run: Run<S>, levels: seq<Opened>): Key
    requires Sound(run.keysOf, levels) && HasChild(run, levels)
  {
    KeyAt(run.keysOf, Top(levels).tree, |Top(levels).done|)
  }

  ghost function NextPlace<S>(run: Run<S>, levels: seq<Opened>): Place
    requires Sound(run.keysOf, levels) && HasChild(run, levels)
  {
    ChildPlace(Top(levels).tree, Top(levels).at, NextKey(run, levels))
  }

  ghost function ItemOutcome<S>(run: Run<S>, s: S, levels: seq<Opened>): Outcome<S, Option<Tree>>
    requires Sound(run.keysOf, levels) && HasChild(run, levels) && |levels| <= run.depth
  {
    VisitItem(run.depth - |levels|, run.keysOf, run.v, s, Child(run, levels), NextPlace(run, levels),
        LastEdit(Top(levels).done))
  }

  /** From the open levels before a step to those after it, `k` iterations further on. */
  lemma {:induction false} HoldsOn<S>(run: Run<S>, m: Machine, s: S, levels: seq<Opened>, steps: nat, m': Machine,
      s': S, levels': seq<Opened>)
    requires Holds(run, m, s, levels, steps)
    requires Sound(run.keysOf, levels) && |levels| <= run.depth
    requires Sound(run.keysOf, levels') && Simulates(run.keysOf, run.root, m', levels') && |levels'| <= run.depth
    requires Resume(run.depth, run.keysOf, run.v, s, levels) ==
             After(1, Resume(run.depth, run.keysOf, run.v, s', levels'))
    ensures Holds(run, m', s', levels', steps + 1)
  {
    hide Resume, Simulates, After;
    AfterAfter(steps, 1, Resume(run.depth, run.keysOf, run.v, s', levels'));
  }

  lemma {:induction false} HoldsGives<S>(run: Run<S>, m: Machine, s: S, levels: seq<Opened>, steps: nat)
    requires Holds(run, m, s, levels, steps)
    ensures !run.whole.Endless? && |levels| <= run.depth && Sound(run.keysOf, levels)
    ensures Simulates(run.keysOf, run.root, m, levels)
    ensures run.whole == After(steps, Resume(run.depth, run.keysOf, run.v, s, levels))
  {
    hide Resume, Stacked, AtTop;
  }

  lemma {:induction false} StepAbsent<S>(run: Run<S>, m: Machine, s: S, levels: seq<Opened>, steps: nat)
    requires Holds(run, m, s, levels, steps) && HasChild(run, levels) && Child(run, levels).Absent?
    ensures Holds(run, m.(idx := m.idx + 1), s, Advance(levels, None), steps + 1)
  {
    HoldsGives(run, m, s, levels, steps);
    SimulatesChild(run.keysOf, run.root, m, levels, None);
    ResumeAbsent(run, s, levels);
    hide Holds, Simulates, Resume;
    assert |Advance(levels, None)| == |levels|;
    HoldsOn(run, m, s, levels, steps, m.(idx := m.idx + 1), s, Advance(levels, None));
  }

  lemma {:induction false} ResumeAbsent<S>(run: Run<S>, s: S, levels: seq<Opened>)
    requires Sound(run.keysOf, levels) && |levels| <= run.depth && HasChild(run, levels) && Child(run, levels).Absent?
    ensures Sound(run.keysOf, Advance(levels, None))
    ensures Resume(run.depth, run.keysOf, run.v, s, levels) ==
            After(1, Resume(run.depth, run.keysOf, run.v, s, Advance(levels, None)))
  {
    hide Resume;
    ResumeAdvance(run.depth, run.keysOf, run.v, s, s, levels, None, 1);
  }

  /** The child was dealt with on enter, in one step: it is skipped, removed or replaced by data. */
  lemma {:induction false} StepDone<S>(run: Run<S>, m: Machine, s: S, levels: seq<Opened>, steps: nat)
    requires Holds(run, m, s, levels, steps) && HasChild(run, levels) && !Child(run, levels).Absent?
    requires var o := ItemOutcome(run, s, levels); o.Done? && o.steps == 1
    ensures var o := ItemOutcome(run, s, levels);
            var list := if o.result.None? then m.edits else m.edits + [(Some(NextKey(run, levels)), o.result.value)];
            Holds(run, m.(idx := m.idx + 1, edits := list), o.state, Advance(levels, o.result), steps + 1)
  {
    HoldsGives(run, m, s, levels, steps);
    var o := ItemOutcome(run, s, levels);
    ResumeDone(run, s, levels);
    SimulatesChild(run.keysOf, run.root, m, levels, o.result);
    hide Holds, Simulates, Resume, ItemOutcome;
    var list := if o.result.None? then m.edits else m.edits + [(Some(NextKey(run, levels)), o.result.value)];
    assert |Advance(levels, o.result)| == |levels|;
    HoldsOn(run, m, s, levels, steps, m.(idx := m.idx + 1, edits := list), o.state, Advance(levels, o.result));
  }

  lemma {:induction false} ResumeDone<S>(run: Run<S>, s: S, levels: seq<Opened>)
    requires Sound(run.keysOf, levels) && |levels| <= run.depth
    requires HasChild(run, levels) && !Child(run, levels).Absent?
    requires var o := ItemOutcome(run, s, levels); o.Done? && o.steps == 1
    ensures var o := ItemOutcome(run, s, levels);
            && Sound(run.keysOf, Advance(levels, o.result))
            && Resume(run.depth, run.keysOf, run.v, s, levels) ==
               After(1, Resume(run.depth, run.keysOf, run.v, o.state, Advance(levels, o.result)))
  {
    var d := Top(levels);
    var o := ItemOutcome(run, s, levels);
    hide VisitItem, Level, Resume;
    LevelItem(run.depth - |levels|, run.keysOf, run.v, s, d.tree, d.at, d.done);
    ResumeAdvance(run.depth, run.keysOf, run.v, s, o.state, levels, o.result, 1);
  }

  /** The child ends the traversal, by BREAK or by an exception. */
  lemma {:induction false} StepEnds<S>(run: Run<S>, m: Machine, s: S, levels: seq<Opened>, steps: nat)
    requires Holds(run, m, s, levels, steps) && HasChild(run, levels) && !Child(run, levels).Absent?
    requires !ItemOutcome(run, s, levels).Done?
    ensures run.whole == After(steps, ItemOutcome(run, s, levels))
    ensures LastEdit(Top(levels).done) == LastValue(m.edits)
  {
    var d := Top(levels);
    hide VisitItem;
    LevelItem(run.depth - |levels|, run.keysOf, run.v, s, d.tree, d.at, d.done);
    ResumeEnds(run.depth, run.keysOf, run.v, s, levels);
    RecordsLast(run.keysOf, d.tree, m.edits, d.done);
  }

  /** The child is descended into, in state `s'`, as the tree `t`. */
  lemma {:induction false} StepDescend<S>(run: Run<S>, m: Machine, s: S, s': S, levels: seq<Opened>, t: Tree,
      entered: Option<Tree>, steps: nat)
    returns (next: seq<Opened>)
    requires Holds(run, m, s, levels, steps) && HasChild(run, levels) && !Child(run, levels).Absent?
    requires t.Arr? || t.Node?
    requires entered.Some? ==> entered.value.Node?
    requires ItemOutcome(run, s, levels) ==
             Descend(run.depth - |levels|, run.keysOf, run.v, s', t, NextPlace(run, levels), entered,
                 LastEdit(Top(levels).done))
    ensures var key := Some(NextKey(run, levels));
            var list := m.edits + OnEnter(key, entered);
            Holds(run, Pushed(run.keysOf, m, t, key, list), s', next, steps + 1)
  {
    HoldsGives(run, m, s, levels, steps);
    hide VisitItem, Descend, Resume, Holds, Simulates, Records;
    next := SimulatesPush(run.keysOf, run.root, m, levels, t, entered);
    ResumeOpens(run, s, s', levels, t, entered);
    hide OnEnter, Pushed, KeyAt, ChildAt, Width, ItemOutcome, Sound, Child, HasChild, LastEdit;
    var key := Some(NextKey(run, levels));
    var list := m.edits + OnEnter(key, entered);
    HoldsOn(run, m, s, levels, steps, Pushed(run.keysOf, m, t, key, list), s', next);
  }

  lemma {:induction false} ResumeOpens<S>(run: Run<S>, s: S, s': S, levels: seq<Opened>, t: Tree,
      entered: Option<Tree>)
    requires Sound(run.keysOf, levels) && |levels| <= run.depth && HasChild(run, levels) && !Child(run, levels).Absent?
    requires (t.Arr? || t.Node?) && (entered.Some? ==> entered.value.Node?)
    requires ItemOutcome(run, s, levels) ==
             Descend(run.depth - |levels|, run.keysOf, run.v, s', t, NextPlace(run, levels), entered,
                     LastEdit(Top(levels).done))
    requires !Resume(run.depth, run.keysOf, run.v, s, levels).Endless?
    ensures var next := levels + [Opened(t, NextPlace(run, levels), [], entered)];
            && |next| <= run.depth && Sound(run.keysOf, next)
            && Resume(run.depth, run.keysOf, run.v, s, levels) ==
               After(1, Resume(run.depth, run.keysOf, run.v, s', next))
  {
    hide VisitItem, Descend, Resume, Sound, LastEdit;
    ResumeDescend(run.depth, run.keysOf, run.v, s, s', levels, t, entered);
  }

  /** The first step: the root is descended into. */
  lemma {:induction false} StepRoot<S>(run: Run<S>, s: S, s': S, t: Tree,
      entered: Option<Tree>) returns (levels: seq<Opened>)
    requires !run.whole.Endless? && t.Node? && (entered.Some? ==> entered.value.Node?)
    requires run.whole == Descend(run.depth, run.keysOf, run.v, s', t, ROOT_PLACE, entered, None)
    ensures Holds(run,
                  Pushed(run.keysOf, Machine(Bottom, false, Items([run.root]), -1, [], None, [], []), t, None,
                         OnEnter(None, entered)),
                  s', levels, 1)
  {
    levels := [Opened(t, ROOT_PLACE, [], entered)];
    SimulatesRoot(run.keysOf, run.root, t, entered);
    assert levels[..0] == [];
  }

  // Leaving -------------------------------------------------------------------

  /** What leaving the innermost level gives. */
  ghost function Left<S>(run: Run<S>, s: S, levels: seq<Opened>): Outcome<S, Option<Tree>>
    requires Sound(run.keysOf, levels) && !HasChild(run, levels)
  {
    LeaveTop(run.keysOf, run.v, Done(s, Top(levels).done, 0), levels)
  }

  /** Leaving anything but the root. */
  lemma {:induction false} StepLeave<S>(run: Run<S>, m: Machine, s: S, levels: seq<Opened>, steps: nat, list: EditList)
    requires Holds(run, m, s, levels, steps) && !HasChild(run, levels) && |levels| > 1
    requires Left(run, s, levels).Done?
    requires var c := levels[|levels| - 2];
             var e := Left(run, s, levels).result;
             && |c.done| < Width(run.keysOf, c.tree)
             && Records(run.keysOf, c.tree, list, c.done + [e])
    ensures var c := levels[|levels| - 2];
            var o := Left(run, s, levels);
            Holds(run, Popped(m, Some(c.tree), list, c.at.path, Inner(c.at)), o.state,
                  Advance(levels[..|levels| - 1], o.result), steps + 1)
  {
    var c := levels[|levels| - 2];
    var o := Left(run, s, levels);
    var next := Advance(levels[..|levels| - 1], o.result);
    HoldsGives(run, m, s, levels, steps);
    ResumeLeave(run.depth, run.keysOf, run.v, s, levels);
    assert Resume(run.depth, run.keysOf, run.v, s, levels) ==
        After(1, Resume(run.depth, run.keysOf, run.v, o.state, next));
    hide Holds, Resume, Left;
    SimulatesPop(run.keysOf, run.root, m, levels, o.result, list);
    hide Simulates, Records;
    HoldsOn(run, m, s, levels, steps, Popped(m, Some(c.tree), list, c.at.path, Inner(c.at)), o.state, next);
  }

  /** Leaving the root, or stopping on a leave. */
  lemma {:induction false} StepLast<S>(run: Run<S>, m: Machine, s: S, levels: seq<Opened>, steps: nat)
    requires Holds(run, m, s, levels, steps) && !HasChild(run, levels)
    requires |levels| == 1 || !Left(run, s, levels).Done?
    ensures run.whole == After(steps, Left(run, s, levels))
  {
    ResumeLeave(run.depth, run.keysOf, run.v, s, levels);
  }

  /** The machine's variables when the innermost level is at its end. */
  lemma {:induction false} AtEnd<S>(run: Run<S>, m: Machine, s: S, levels: seq<Opened>, steps: nat)
    requires Holds(run, m, s, levels, steps)
    ensures HasChild(run, levels) <==> m.idx + 1 < m.keys.Count()
    ensures !HasChild(run, levels) <==> m.idx + 1 == m.keys.Count()
    ensures levels != [] && Sound(run.keysOf, levels) && |levels| <= run.depth
    ensures m.parent == Some(Top(levels).tree) && m.inArray == Top(levels).tree.Arr?
    ensures m.keys == KeysFor(run.keysOf, Top(levels).tree) && m.idx == |Top(levels).done| - 1
    ensures Records(run.keysOf, Top(levels).tree, m.edits, Top(levels).done)
    ensures run.whole == After(steps, Resume(run.depth, run.keysOf, run.v, s, levels))
    ensures m.ancestors != [] <==> |levels| > 1
    ensures m.stack.Frame? && (m.stack.prev.Bottom? <==> |levels| == 1)
    ensures |levels| == 1 ==> Top(levels).at == ROOT_PLACE && m.path == [] && m.ancestors == []
    ensures |levels| > 1 ==>
              var c := levels[|levels| - 2];
              && |c.done| < Width(run.keysOf, c.tree)
              && Top(levels).at == ChildPlace(c.tree, c.at, KeyAt(run.keysOf, c.tree, |c.done|))
              && m.path == c.at.path + [KeyAt(run.keysOf, c.tree, |c.done|)]
              && m.ancestors == Inner(c.at) + [c.tree]
  {
    if |levels| > 1 {
      assert Stacked(run.keysOf, run.root, m.stack.prev, levels[..|levels| - 1]);
    }
  }

  /** How the visit of a node goes on once `enter` has answered. */
  ghost function Entering<S>(depth: nat, run: Run<S>, s: S, action: Action, t: Tree, at: Place, sofar: Option<Tree>)
    : Outcome<S, Option<Tree>>
  {
    match action
    case Idle => Descend(depth, run.keysOf, run.v, s, t, at, None, sofar)
    case Break => Stopped(s, sofar, 1)
    case Skip => if at.path == [] then Raised(s, EmptyPath, 1) else Done(s, None, 1)
    case Put(x) =>
      if x.Node? then Descend(depth, run.keysOf, run.v, s, x, at, Some(x), sofar)
      else if at.path == [] then Raised(s, EmptyPath, 1)
      else Done(s, Some(x), 1)
  }

  /** How a tree is left once `leave`, if it is called at all, has answered. */
  ghost function Leaving<S>(s: S, action: Action, t: Tree, edited: bool, entered: Option<Tree>, sofar: Option<Tree>)
    : Outcome<S, Option<Tree>>
  {
    match action
    case Idle => Done(s, if edited then Some(t) else entered, 1)
    case Break => Stopped(s, if entered.Some? then entered else sofar, 1)
    case Skip => Done(s, entered, 1)
    case Put(x) => Done(s, Some(x), 1)
  }

  /** The tree about to be entered: the root, or the next child of the innermost level. */
  ghost predicate Enters<S>(run: Run<S>, m: Machine, s: S, levels: seq<Opened>, steps: nat, t: Tree, at: Place) {
    && !run.whole.Endless?
    && if levels == [] then
         && m == Started(run.root) && steps == 0 && t == run.root && t.Node? && at == ROOT_PLACE
         && run.whole == VisitItem(run.depth, run.keysOf, run.v, s, t, at, None)
       else
         && Holds(run, m, s, levels, steps) && HasChild(run, levels)
         && t == Child(run, levels) && !t.Absent? && at == NextPlace(run, levels)
  }

  /** Entering goes on as the recursive visit of the tree does. */
  ghost function EnterOutcome<S>(run: Run<S>, m: Machine, s: S, levels: seq<Opened>, t: Tree,
      at: Place): Outcome<S, Option<Tree>>
    requires |levels| <= run.depth
  {
    VisitItem(run.depth - |levels|, run.keysOf, run.v, s, t, at, LastValue(m.edits))
  }

  lemma {:induction false} EnterSofar<S>(run: Run<S>, m: Machine, s: S, levels: seq<Opened>, steps: nat, t: Tree,
      at: Place)
    requires Enters(run, m, s, levels, steps, t, at)
    ensures |levels| <= run.depth
    ensures levels != [] ==> LastEdit(Top(levels).done) == LastValue(m.edits)
    ensures levels == [] ==> run.whole == EnterOutcome(run, m, s, levels, t, at)
    ensures levels != [] ==> ItemOutcome(run, s, levels) == EnterOutcome(run, m, s, levels, t, at)
    ensures levels == [] <==> at.path == []
  {
    hide VisitItem, Resume, Stacked;
    if levels != [] {
      RecordsLast(run.keysOf, Top(levels).tree, m.edits, Top(levels).done);
    }
  }

  /** Unfolds the visit of a tree into what `enter` answers. */
  lemma {:induction false} EnterAnswer<S>(run: Run<S>, m: Machine, s: S, levels: seq<Opened>, t: Tree, at: Place)
    requires |levels| <= run.depth
    ensures var depth, sofar := run.depth - |levels|, LastValue(m.edits);
            var o := EnterOutcome(run, m, s, levels, t, at);
            if t.Arr? then o == Descend(depth, run.keysOf, run.v, s, t, at, None, sofar)
            else if t.Node? then o == Entering(depth, run, run.v.enter(s, t, at).0, run.v.enter(s, t, at).1, t, at,
                sofar)
            else o == Raised(s, NotANode, 1)
  {
    hide Descend;
  }

  /** The traversal ends on entering a tree. */
  lemma {:induction false} EntersEnd<S>(run: Run<S>, m: Machine, s: S, s': S, levels: seq<Opened>, steps: nat,
      t: Tree, at: Place, turn: Turn)
    requires Enters(run, m, s, levels, steps, t, at) && |levels| <= run.depth
    requires EnterOutcome(run, m, s, levels, t, at) ==
             if turn.Throws? then Raised(s', turn.error, 1) else Stopped(s', LastValue(m.edits), 1)
    ensures Conclude(run.whole, run.root) == Answer(m, s', turn, run.root)
  {
    EnterSofar(run, m, s, levels, steps, t, at);
    hide EnterOutcome, Resume, Stacked, LastEdit, VisitItem, Records;
    if levels != [] {
      StepEnds(run, m, s, levels, steps);
    }
  }

  /** A child is dealt with on enter. */
  lemma {:induction false} EntersDone<S>(run: Run<S>, m: Machine, s: S, s': S, levels: seq<Opened>, steps: nat,
      t: Tree, at: Place, e: Option<Tree>)
    returns (next: seq<Opened>)
    requires Enters(run, m, s, levels, steps, t, at) && 0 < |levels| <= run.depth
    requires EnterOutcome(run, m, s, levels, t, at) == Done(s', e, 1)
    ensures var list := if e.None? then m.edits else m.edits + [(at.key, e.value)];
            next != [] && Holds(run, m.(idx := m.idx + 1, edits := list), s', next, steps + 1)
  {
    EnterSofar(run, m, s, levels, steps, t, at);
    hide EnterOutcome, Resume, Stacked, LastEdit, VisitItem, Records, ItemOutcome;
    StepDone(run, m, s, levels, steps);
    next := Advance(levels, e);
  }

  /** A tree is descended into, perhaps as a replacement. */
  lemma {:induction false} EntersDescend<S>(run: Run<S>, m: Machine, s: S, s': S, levels: seq<Opened>, steps: nat,
      t: Tree, at: Place, t': Tree, entered: Option<Tree>)
    returns (next: seq<Opened>)
    requires Enters(run, m, s, levels, steps, t, at) && |levels| <= run.depth
    requires t'.Arr? || t'.Node?
    requires entered.Some? ==> entered.value.Node?
    requires levels == [] ==> t'.Node?
    requires EnterOutcome(run, m, s, levels, t, at) ==
             Descend(run.depth - |levels|, run.keysOf, run.v, s', t', at, entered, LastValue(m.edits))
    ensures var list := m.edits + OnEnter(at.key, entered);
            next != [] && Holds(run, Pushed(run.keysOf, m, t', at.key, list), s', next, steps + 1)
  {
    EnterSofar(run, m, s, levels, steps, t, at);
    hide EnterOutcome, Resume, Stacked, LastEdit, VisitItem, Descend, Records, ItemOutcome, Holds;
    if levels == [] {
      next := StepRoot(run, s, s', t', entered);
    } else {
      HoldsNow(run, m, s, levels, steps, t, at);
      next := StepDescend(run, m, s, s', levels, t', entered, steps);
    }
  }

  lemma {:induction false} HoldsNow<S>(run: Run<S>, m: Machine, s: S, levels: seq<Opened>, steps: nat, t: Tree,
      at: Place)
    requires Enters(run, m, s, levels, steps, t, at) && levels != []
    ensures Holds(run, m, s, levels, steps) && Sound(run.keysOf, levels) && |levels| <= run.depth &&
            HasChild(run, levels)
    ensures at == NextPlace(run, levels) && t == Child(run, levels)
  {
  }

  /** The place at which a tree is left is the place at which it was entered. */
  lemma {:induction false} LeavePlace<S>(run: Run<S>, m: Machine, s: S, levels: seq<Opened>, steps: nat, at: Place)
    requires Holds(run, m, s, levels, steps)
    requires at.path == m.path
    requires m.ancestors == [] ==> at == ROOT_PLACE
    requires m.ancestors != [] ==>
               && at.key == (if m.path == [] then None else Some(m.path[|m.path| - 1]))
               && at.parent == Some(m.ancestors[|m.ancestors| - 1])
               && at.ancestors == m.ancestors[..|m.ancestors| - 1]
    ensures at == Top(levels).at
  {
    AtEnd(run, m, s, levels, steps);
  }

  /** What is left is the tree with the edits of its children applied. */
  lemma {:induction false} LeaveTree<S>(run: Run<S>, m: Machine, s: S, levels: seq<Opened>, steps: nat)
    requires Holds(run, m, s, levels, steps) && !HasChild(run, levels)
    ensures m.edits != [] <==> LastEdit(Top(levels).done).Some?
    ensures m.edits == [] ==> Rebuild(run.keysOf, Top(levels).tree, Top(levels).done) == Top(levels).tree
    ensures Top(levels).tree.Arr? || Top(levels).tree.Node?
  {
    var d := Top(levels);
    hide Resume, Stacked;
    RecordsLast(run.keysOf, d.tree, m.edits, d.done);
    if m.edits == [] {
      RebuildUnedited(run.keysOf, d.tree, d.done);
    }
  }

  lemma {:induction false} LeaveOutcome<S>(run: Run<S>, s: S, levels: seq<Opened>)
    requires Sound(run.keysOf, levels) && !HasChild(run, levels)
    ensures var d := Top(levels);
            var t := Rebuild(run.keysOf, d.tree, d.done);
            var (s', action) := if t.Node? then run.v.leave(s, t, d.at) else (s, Idle);
            Left(run, s, levels) == Leaving(s', action, t, LastEdit(d.done).Some?, d.entered, Elder(levels))
  {
  }

  /** The last edit of the level around the tree being left, its own edit on enter included. */
  lemma {:induction false} LeaveElder<S>(run: Run<S>, m: Machine, s: S, levels: seq<Opened>, steps: nat)
    requires Holds(run, m, s, levels, steps)
    ensures LastValue(m.stack.edits) == if Top(levels).entered.Some? then Top(levels).entered else Elder(levels)
  {
    hide Resume;
    if |levels| > 1 {
      var c := levels[|levels| - 2];
      assert |c.done| < Width(run.keysOf, c.tree);
      RecordsKept(run.keysOf, c.tree, m.stack.edits, c.done, Top(levels).entered);
    }
  }

  /** The machine after a tree has been left. */
  function MachineLeft(m: Machine, key: Option<Key>, parent: Option<Tree>, action: Action, t: Tree): Machine
    requires m.stack.Frame?
  {
    Machine(m.stack.prev, m.stack.inArray, m.stack.keys, m.stack.idx,
            if action.Put? then m.stack.edits + [(key, action.value)]
            else if action.Idle? && m.edits != [] then m.stack.edits + [(key, t)]
            else m.stack.edits,
            parent,
            if m.path != [] then m.path[..|m.path| - 1] else m.path,
            if m.ancestors != [] then m.ancestors[..|m.ancestors| - 1] else m.ancestors)
  }

  /** The root has been left, or `leave` asked to stop. */
  lemma {:induction false} LeavesLast<S>(run: Run<S>, m: Machine, s: S, s': S, levels: seq<Opened>, steps: nat,
      action: Action, t: Tree, at: Place)
    requires Holds(run, m, s, levels, steps) && !HasChild(run, levels) && m.stack.Frame?
    requires at == Top(levels).at && t == Rebuild(run.keysOf, Top(levels).tree, Top(levels).done)
    requires (s', action) == if t.Node? then run.v.leave(s, t, at) else (s, Idle)
    requires action.Break? || |levels| == 1
    ensures !run.whole.Endless?
    ensures Conclude(run.whole, run.root) ==
            Answer(MachineLeft(m, at.key, at.parent, action, t), s', if action.Break? then Out else Next, run.root)
  {
    AtEnd(run, m, s, levels, steps);
    LeaveTree(run, m, s, levels, steps);
    LeaveOutcome(run, s, levels);
    LeaveElder(run, m, s, levels, steps);
    hide Resume, Rebuild, LastEdit, Left, Records, Holds, Conclude, Leaving, Answer, MachineLeft;
    StepLast(run, m, s, levels, steps);
    var d := Top(levels);
    var sofar := Elder(levels);
    var o := Leaving(s', action, t, m.edits != [], d.entered, sofar);
    LeavingAnswer(m, s', action, t, at, d.entered, sofar, run.root);
    ConcludeAfter(steps, o, run.root);
  }

  lemma {:induction false} ConcludeAfter<S>(k: nat, o: Outcome<S, Option<Tree>>, root: Tree)
    requires !o.Endless?
    ensures !After(k, o).Endless? && Conclude(After(k, o), root) == Conclude(o, root)
  {
  }

  lemma {:induction false} LeavingAnswer<S>(m: Machine, s: S, action: Action, t: Tree, at: Place,
      entered: Option<Tree>, sofar: Option<Tree>, root: Tree)
    requires m.stack.Frame? && LastValue(m.stack.edits) == if entered.Some? then entered else sofar
    requires sofar.Some? ==> action.Break?
    ensures !Leaving(s, action, t, m.edits != [], entered, sofar).Endless?
    ensures Conclude(Leaving(s, action, t, m.edits != [], entered, sofar), root) ==
            Answer(MachineLeft(m, at.key, at.parent, action, t), s, if action.Break? then Out else Next, root)
  {
  }

  /** Any other tree has been left. */
  lemma {:induction false} LeavesInner<S>(run: Run<S>, m: Machine, s: S, s': S, levels: seq<Opened>, steps: nat,
      action: Action, t: Tree, at: Place)
    returns (next: seq<Opened>)
    requires Holds(run, m, s, levels, steps) && !HasChild(run, levels) && m.stack.Frame?
    requires at == Top(levels).at && t == Rebuild(run.keysOf, Top(levels).tree, Top(levels).done)
    requires (s', action) == if t.Node? then run.v.leave(s, t, at) else (s, Idle)
    requires !action.Break? && |levels| > 1
    ensures next != [] && Holds(run, MachineLeft(m, at.key, at.parent, action, t), s', next, steps + 1)
    ensures m.stack.prev.Frame?
  {
    AtEnd(run, m, s, levels, steps);
    LeaveTree(run, m, s, levels, steps);
    LeaveOutcome(run, s, levels);
    hide Resume, Holds, Rebuild, LastEdit, Elder, Left, Records;
    var m' := MachineLeft(m, at.key, at.parent, action, t);
    var c := levels[|levels| - 2];
    LeaveEdits(run, m, s, levels, steps, m'.edits);
    StepLeave(run, m, s, levels, steps, m'.edits);
    next := Advance(levels[..|levels| - 1], Left(run, s, levels).result);
    assert m.path[..|m.path| - 1] == c.at.path;
    assert m.ancestors[..|m.ancestors| - 1] == Inner(c.at);
  }

  lemma {:induction false} Leaves<S>(run: Run<S>, m: Machine, s: S, s': S, levels: seq<Opened>, steps: nat,
      action: Action, t: Tree, at: Place)
    returns (next: seq<Opened>)
    requires Holds(run, m, s, levels, steps) && !HasChild(run, levels) && m.stack.Frame?
    requires at == Top(levels).at && t == Rebuild(run.keysOf, Top(levels).tree, Top(levels).done)
    requires (s', action) == if t.Node? then run.v.leave(s, t, at) else (s, Idle)
    ensures Continues(run, MachineLeft(m, at.key, at.parent, action, t), s',
                      if action.Break? then Out else Next, next, steps + 1)
  {
    AtEnd(run, m, s, levels, steps);
    hide Holds, Rebuild, Conclude;
    next := levels;
    if action.Break? || |levels| == 1 {
      LeavesLast(run, m, s, s', levels, steps, action, t, at);
    } else {
      next := LeavesInner(run, m, s, s', levels, steps, action, t, at);
    }
  }

  /** The edit list after leaving a tree records what leaving it gives. */
  lemma {:induction false} LeaveEdits<S>(run: Run<S>, m: Machine, s: S, levels: seq<Opened>, steps: nat, list: EditList)
    requires Holds(run, m, s, levels, steps) && !HasChild(run, levels) && |levels| > 1
    requires Left(run, s, levels).Done?
    requires var e := Left(run, s, levels).result;
             || (list == m.stack.edits && e == Top(levels).entered)
             || (e.Some? && list == m.stack.edits + [(Some(m.path[|m.path| - 1]), e.value)])
    ensures var c := levels[|levels| - 2];
            && |c.done| < Width(run.keysOf, c.tree)
            && Records(run.keysOf, c.tree, list, c.done + [Left(run, s, levels).result])
  {
    var c := levels[|levels| - 2];
    var e := Left(run, s, levels).result;
    AtEnd(run, m, s, levels, steps);
    if list == m.stack.edits && e == Top(levels).entered {
      RecordsKept(run.keysOf, c.tree, list, c.done, e);
    } else {
      RecordsLeft(run.keysOf, c.tree, m.stack.edits, c.done, Top(levels).entered, e.value);
    }
  }

  // ---------------------------------------------------------------------------
  // The loop
  // ---------------------------------------------------------------------------

  /** How an iteration ends: on to the next one, out of the loop, or with an exception. */
  datatype Turn = Next | Out | Throws(error: VisitError)

  function Answer<S>(m: Machine, s: S, turn: Turn, root: Tree): VisitResult<S> {
    if turn.Throws? then Failed(s, turn.error)
    else Returned(s, if m.edits != [] then m.edits[|m.edits| - 1].1 else root)
  }

  /** After an iteration: the invariant again, or the loop ends with the right answer. */
  ghost predicate Continues<S>(run: Run<S>, m: Machine, s: S, turn: Turn, levels: seq<Opened>, steps: nat) {
    && !run.whole.Endless?
    && if turn.Next? && m.stack.Frame? then levels != [] && Holds(run, m, s, levels, steps)
       else Conclude(run.whole, run.root) == Answer(m, s, turn, run.root)
  }

  function Started(root: Tree): Machine {
    Machine(Bottom, false, Items([root]), -1, [], None, [], [])
  }

  /**
   `visit`: whatever the visitor does, the loop returns, raises and calls back exactly as
   the recursive traversal does, and it terminates whenever the recursive traversal is
   finite.
   */
  method Visit<S>(root: Tree, v: Visitor<S>, keysOf: VisitorKeys, s0: S, ghost depth: nat) returns (r: VisitResult<S>)
    requires !Traverse(depth, keysOf, v, s0, root).Endless?
    ensures r == Conclude(Traverse(depth, keysOf, v, s0, root), root)
  {
    hide Holds;
    if !root.Node? {
      return Failed(s0, NotANode);
    }
    ghost var run := Run(depth, keysOf, v, root, Traverse(depth, keysOf, v, s0, root));
    ghost var levels: seq<Opened> := [];
    ghost var steps: nat := 0;
    var s, m, turn := s0, Started(root), Next;
    while true
      invariant levels == [] ==> steps == 0 && s == s0 && m == Started(root)
      invariant levels != [] ==> Holds(run, m, s, levels, steps)
      decreases run.whole.steps - steps
    {
      StepsLeft(run, m, s, levels, steps);
      m := m.(idx := m.idx + 1);
      if m.idx == m.keys.Count() {
        s, m, turn, levels := LeaveItem(v, keysOf, m, s, run, levels, steps);
      } else {
        s, m, turn, levels := EnterItem(v, keysOf, root, m, s, run, levels, steps);
      }
      steps := steps + 1;
      if !turn.Next? || m.stack.Bottom? {
        break;
      }
    }
    r := Answer(m, s, turn, root);
  }

  lemma {:induction false} StepsLeft<S>(run: Run<S>, m: Machine, s: S, levels: seq<Opened>, steps: nat)
    requires levels == [] ==> !run.whole.Endless? && steps == 0 && m == Started(run.root)
    requires levels == [] ==> run.whole == VisitItem(run.depth, run.keysOf, run.v, s, run.root, ROOT_PLACE, None)
    requires levels != [] ==> Holds(run, m, s, levels, steps)
    ensures steps < run.whole.steps
    ensures levels == [] ==> m.idx + 1 != m.keys.Count()
    ensures levels != [] ==> (m.idx + 1 == m.keys.Count() <==> !HasChild(run, levels))
  {
    if levels != [] {
      ResumeSteps(run.depth, run.keysOf, run.v, s, levels);
      AtEnd(run, m, s, levels, steps);
    }
  }

  lemma {:induction false} ResumeSteps<S>(depth: nat, keysOf: VisitorKeys, v: Visitor<S>, s: S, levels: seq<Opened>)
    requires Sound(keysOf, levels) && |levels| <= depth
    requires !Resume(depth, keysOf, v, s, levels).Endless?
    ensures Resume(depth, keysOf, v, s, levels).steps > 0
    decreases |levels|
  {
    var n := |levels|;
    var d := levels[n - 1];
    var o := LeaveTop(keysOf, v, Level(depth - n, keysOf, v, s, d.tree, d.at, d.done), levels);
    SoundOuter(keysOf, levels);
    hide Level;
  }

  /** The iteration that leaves a tree whose children are done. */
  method LeaveItem<S>(v: Visitor<S>, keysOf: VisitorKeys, m: Machine, s: S, ghost run: Run<S>,
      ghost levels: seq<Opened>, ghost steps: nat)
    returns (s': S, m': Machine, turn: Turn, ghost levels': seq<Opened>)
    requires run.v == v && run.keysOf == keysOf
    requires levels != [] && Holds(run, m.(idx := m.idx - 1), s, levels, steps) && !HasChild(run, levels)
    ensures Continues(run, m', s', turn, levels', steps + 1)
  {
    ghost var before := m.(idx := m.idx - 1);
    AtEnd(run, before, s, levels, steps);
    LeaveTree(run, before, s, levels, steps);
    hide Resume, Records, Rebuild, LastEdit, Holds, Continues, Inner;
    var isEdited := m.edits != [];
    var key := if m.ancestors != [] then Some(m.path[|m.path| - 1]) else None;
    var node := m.parent.value;
    var parent, ancestors := None, m.ancestors;
    if m.ancestors != [] {
      parent, ancestors := Some(m.ancestors[|m.ancestors| - 1]), m.ancestors[..|m.ancestors| - 1];
    }
    if isEdited {
      node := ApplyEdits(keysOf, node, m.edits, Top(levels).done);
    }
    LeavePlace(run, before, s, levels, steps, Place(key, parent, m.path, ancestors));
    var action: Action := Idle;
    s' := s;
    if node.Node? {
      var (s1, answer) := v.leave(s, node, Place(key, parent, m.path, ancestors));
      s', action := s1, answer;
    }
    var edits := m.stack.edits;
    if action.Put? {
      edits := edits + [(key, action.value)];
    } else if action.Idle? && isEdited {
      edits := edits + [(key, node)];
    }
    m' := Machine(m.stack.prev, m.stack.inArray, m.stack.keys, m.stack.idx, edits, parent,
                  if m.path != [] then m.path[..|m.path| - 1] else m.path, ancestors);
    turn := if action.Break? then Out else Next;
    levels' := Leaves(run, before, s, s', levels, steps, action, node, Place(key, parent, m.path, ancestors));
  }

  /** The key and the tree an entering iteration is about. */
  method NextChild<S>(keysOf: VisitorKeys, root: Tree, m: Machine, ghost run: Run<S>, ghost levels: seq<Opened>)
    returns (key: Option<Key>, node: Tree)
    requires run.keysOf == keysOf
    requires levels == [] ==> m.parent.None?
    requires levels != [] ==>
               && Sound(run.keysOf, levels) && HasChild(run, levels)
               && m.parent == Some(Top(levels).tree) && m.inArray == Top(levels).tree.Arr?
               && m.keys == KeysFor(keysOf, Top(levels).tree) && m.idx == |Top(levels).done|
    ensures levels == [] ==> key == None && node == root
    ensures levels != [] ==> key == Some(NextKey(run, levels)) && node == Child(run, levels)
  {
    key, node := None, root;
    if m.parent.Some? {
      if m.inArray {
        key := Some(Index(m.idx));
        node := m.parent.value.items[m.idx];
      } else {
        key := Some(Name(m.keys.names[m.idx]));
        node := Attribute(m.parent.value, m.keys.names[m.idx]);
      }
    }
  }

  /** The iteration that looks at the next child, or at the root. */
  method EnterItem<S>(v: Visitor<S>, keysOf: VisitorKeys, root: Tree, m: Machine, s: S, ghost run: Run<S>,
      ghost levels: seq<Opened>, ghost steps: nat)
    returns (s': S, m': Machine, turn: Turn, ghost levels': seq<Opened>)
    requires run.v == v && run.keysOf == keysOf && run.root == root && root.Node? && !run.whole.Endless?
    requires levels == [] ==>
               && m.(idx := m.idx - 1) == Started(root) && steps == 0
               && run.whole == VisitItem(run.depth, keysOf, v, s, root, ROOT_PLACE, None)
    requires levels != [] ==> Holds(run, m.(idx := m.idx - 1), s, levels, steps) && HasChild(run, levels)
    ensures Continues(run, m', s', turn, levels', steps + 1)
  {
    ghost var before := m.(idx := m.idx - 1);
    s', m', turn, levels' := s, m, Next, levels;
    if levels != [] {
      AtEnd(run, before, s, levels, steps);
    }
    hide HasChild, Child, NextKey, NextPlace, Advance, Resume, Records, Holds, Stacked, VisitItem, Conclude,
        ItemOutcome, Inner, ChildAt, KeyAt, Width, Sound;
    var key, node := NextChild(keysOf, root, m, run, levels);
    assert levels != [] ==> |levels| <= run.depth;
    if node.Absent? {
      StepAbsent(run, before, s, levels, steps);
      levels' := Advance(levels, None);
      return;
    }
    var path := m.path + if key.Some? then [key.value] else [];
    var at := Place(key, m.parent, path, m.ancestors);
    EnterPlace(run, before, s, levels, steps, node, at);
    EnterSofar(run, before, s, levels, steps, node, at);
    EnterAnswer(run, before, s, levels, node, at);
    hide EnterOutcome, Enters, LastEdit, Descend;
    var action: Action := Idle;
    if !node.Arr? {
      if !node.Node? {
        turn := Throws(NotANode);
        EntersEnd(run, before, s, s, levels, steps, node, at, turn);
        return;
      }
      var (s1, answer) := v.enter(s, node, at);
      s', action := s1, answer;
    }
    var edits := m.edits;
    if action.Break? {
      turn := Out;
      EntersEnd(run, before, s, s', levels, steps, node, at, turn);
      return;
    }
    if action.Put? {
      edits := edits + [(key, action.value)];
    }
    if action.Skip? || (action.Put? && !action.value.Node?) {
      if path == [] {
        m' := m.(edits := edits);
        turn := Throws(EmptyPath);
        EntersEnd(run, before, s, s', levels, steps, node, at, turn);
        return;
      }
      m' := m.(edits := edits);
      levels' := EntersDone(run, before, s, s', levels, steps, node, at,
          if action.Put? then Some(action.value) else None);
      return;
    }
    ghost var entered := if action.Put? then Some(action.value) else None;
    levels' := EntersDescend(run, before, s, s', levels, steps, node, at, if action.Put? then action.value else node,
        entered);
    if action.Put? {
      node := action.value;
    }
    m' := Machine(
      Frame(m.inArray, m.idx, m.keys, edits, m.stack), node.Arr?, KeysFor(keysOf, node), -1, [], Some(node), path,
      m.ancestors + if m.parent.Some? then [m.parent.value] else []);
    assert edits == before.edits + OnEnter(key, entered);
    assert m' == Pushed(keysOf, before, node, key, edits);
  }

  lemma {:induction false} EnterPlace<S>(run: Run<S>, m: Machine, s: S, levels: seq<Opened>, steps: nat, t: Tree,
      at: Place)
    requires !run.whole.Endless?
    requires levels == [] ==>
               && m == Started(run.root) && steps == 0 && t == run.root && t.Node? && at == ROOT_PLACE
               && run.whole == VisitItem(run.depth, run.keysOf, run.v, s, t, at, None)
    requires levels != [] ==>
               && Holds(run, m, s, levels, steps) && HasChild(run, levels)
               && t == Child(run, levels) && !t.Absent?
               && at == Place(Some(NextKey(run, levels)), m.parent, m.path + [NextKey(run, levels)], m.ancestors)
    ensures Enters(run, m, s, levels, steps, t, at)
  {
    hide Resume, Stacked, Records, VisitItem;
  }
}
