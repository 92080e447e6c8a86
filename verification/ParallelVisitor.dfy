/**
 `ParallelVisitor`: many visitors over one traversal.  When none of them edits, each ends
 in the very state it would reach alone, whatever the others do; since the state of a
 visitor can hold the list of its calls, each receives exactly the calls it would alone.
 */
module ParallelVisitor {
  import opened Options
  import opened Visitor
  import opened VisitorProperties

  /** An entry of `skipping`: None, a node, or BREAK. */
  datatype Mark = Active | Skipping(node: Tree) | Broken

  /** The states of the visitors and the list `skipping`. */
  datatype Parallel<+S> = Parallel(states: seq<S>, skipping: seq<Mark>)

  predicate Fits<S>(vs: seq<Visitor<S>>, p: Parallel<S>) {
    |p.states| == |vs| && |p.skipping| == |vs|
  }

  /** One visitor's part in `enter`: its state and mark afterwards, and what it returned. */
  function EnterOne<S>(v: Visitor<S>, s: S, mark: Mark, t: Tree, at: Place): (S, Mark, Action) {
    if !mark.Active? then (s, mark, Idle)
    else
      var (s', action) := v.enter(s, t, at);
      (s', (match action case Skip => Skipping(t) case Break => Broken case _ => Active), action)
  }

  function LeaveOne<S>(v: Visitor<S>, s: S, mark: Mark, t: Tree, at: Place): (S, Mark, Action) {
    if mark.Active? then
      var (s', action) := v.leave(s, t, at);
      (s', if action.Break? then Broken else Active, action)
    else (s, if mark == Skipping(t) then Active else mark, Idle)
  }

  /** The visitors from the `i`-th on are asked in turn until one edits. */
  function EnterFrom<S>(vs: seq<Visitor<S>>, p: Parallel<S>, i: nat, t: Tree, at: Place): (r: (Parallel<S>, Action))
    ensures Fits(vs, p) ==> Fits(vs, r.0)
    ensures r.1.Idle? || r.1.Put?
    decreases |vs| - i
  {
    if i >= |vs| || !Fits(vs, p) then (p, Idle)
    else
      var (s, mark, action) := EnterOne(vs[i], p.states[i], p.skipping[i], t, at);
      var p' := Parallel(p.states[i := s], p.skipping[i := mark]);
      if action.Put? then (p', action) else EnterFrom(vs, p', i + 1, t, at)
  }

  function LeaveFrom<S>(vs: seq<Visitor<S>>, p: Parallel<S>, i: nat, t: Tree, at: Place): (r: (Parallel<S>, Action))
    ensures Fits(vs, p) ==> Fits(vs, r.0)
    ensures r.1.Idle? || r.1.Put?
    decreases |vs| - i
  {
    if i >= |vs| || !Fits(vs, p) then (p, Idle)
    else
      var (s, mark, action) := LeaveOne(vs[i], p.states[i], p.skipping[i], t, at);
      var p' := Parallel(p.states[i := s], p.skipping[i := mark]);
      if action.Put? then (p', action) else LeaveFrom(vs, p', i + 1, t, at)
  }

  /** The visitor that delegates to all of them. */
  function Together<S>(vs: seq<Visitor<S>>): Visitor<Parallel<S>> {
    Visitor((p, t, at) => EnterFrom(vs, p, 0, t, at), (p, t, at) => LeaveFrom(vs, p, 0, t, at))
  }

  // ---------------------------------------------------------------------------
  // The class
  // ---------------------------------------------------------------------------

  class ParallelVisitor<S> {
    const visitors: seq<Visitor<S>>
    var states: seq<S>
    var skipping: seq<Mark>

    ghost predicate Valid()
      reads this
    {
      Fits(visitors, Parallel(states, skipping))
    }

    constructor (visitors: seq<Visitor<S>>, states: seq<S>)
      requires |states| == |visitors|
      ensures Valid() && this.visitors == visitors && this.states == states
      ensures skipping == Fresh(|visitors|)
    {
      this.visitors := visitors;
      this.states := states;
      this.skipping := Fresh(|visitors|);
    }

    method Enter(t: Tree, at: Place) returns (r: Action)
      requires Valid()
      modifies this
      ensures Valid()
      ensures (Parallel(states, skipping), r) == Together(visitors).enter(old(Parallel(states, skipping)), t, at)
    {
      for i := 0 to |visitors|
        invariant Valid()
        invariant EnterFrom(visitors, old(Parallel(states, skipping)), 0, t, at) ==
                  EnterFrom(visitors, Parallel(states, skipping), i, t, at)
      {
        ghost var p := Parallel(states, skipping);
        ghost var (s', mark, action) := EnterOne(visitors[i], p.states[i], p.skipping[i], t, at);
        assert p.states[i := p.states[i]] == p.states && p.skipping[i := p.skipping[i]] == p.skipping;
        if skipping[i].Active? {
          var (s, result) := visitors[i].enter(states[i], t, at);
          states := states[i := s];
          if result.Skip? {
            skipping := skipping[i := Skipping(t)];
          } else if result.Break? {
            skipping := skipping[i := Broken];
          } else if result.Put? {
            return result;
          }
        }
      }
      return Idle;
    }

    method Leave(t: Tree, at: Place) returns (r: Action)
      requires Valid()
      modifies this
      ensures Valid()
      ensures (Parallel(states, skipping), r) == Together(visitors).leave(old(Parallel(states, skipping)), t, at)
    {
      for i := 0 to |visitors|
        invariant Valid()
        invariant LeaveFrom(visitors, old(Parallel(states, skipping)), 0, t, at) ==
                  LeaveFrom(visitors, Parallel(states, skipping), i, t, at)
      {
        ghost var p := Parallel(states, skipping);
        ghost var (s', mark, action) := LeaveOne(visitors[i], p.states[i], p.skipping[i], t, at);
        assert p.states[i := p.states[i]] == p.states && p.skipping[i := p.skipping[i]] == p.skipping;
        if skipping[i].Active? {
          var (s, result) := visitors[i].leave(states[i], t, at);
          states := states[i := s];
          if result.Break? {
            skipping := skipping[i := Broken];
          } else if result.Put? {
            return result;
          }
        } else if skipping[i] == Skipping(t) {
          skipping := skipping[i := Active];
        }
      }
      return Idle;
    }
  }

  function Fresh(n: nat): seq<Mark> {
    seq(n, _ => Active)
  }

  // ---------------------------------------------------------------------------
  // Each visitor on its own
  // ---------------------------------------------------------------------------

  ghost predicate AllReadOnly<S(!new)>(vs: seq<Visitor<S>>) {
    forall k | 0 <= k < |vs| :: ReadOnly(vs[k])
  }

  /** In a round of `enter` calls without edits, every visitor has its own turn. */
  lemma {:induction false} EnterTurn<S(!new)>(vs: seq<Visitor<S>>, p: Parallel<S>, j: nat, i: nat, t: Tree, at: Place)
    requires AllReadOnly(vs) && Fits(vs, p) && i < |vs|
    ensures var (p', action) := EnterFrom(vs, p, j, t, at);
            && action.Idle? && Fits(vs, p')
            && (i < j ==> (p'.states[i], p'.skipping[i]) == (p.states[i], p.skipping[i]))
            && (i >= j ==> var (s, mark, _) := EnterOne(vs[i], p.states[i], p.skipping[i], t, at);
                           (p'.states[i], p'.skipping[i]) == (s, mark))
    decreases |vs| - j
  {
    if j < |vs| {
      assert ReadOnly(vs[j]);
      var (s, mark, action) := EnterOne(vs[j], p.states[j], p.skipping[j], t, at);
      EnterTurn(vs, Parallel(p.states[j := s], p.skipping[j := mark]), j + 1, i, t, at);
    }
  }

  lemma {:induction false} LeaveTurn<S(!new)>(vs: seq<Visitor<S>>, p: Parallel<S>, j: nat, i: nat, t: Tree, at: Place)
    requires AllReadOnly(vs) && Fits(vs, p) && i < |vs|
    ensures var (p', action) := LeaveFrom(vs, p, j, t, at);
            && action.Idle? && Fits(vs, p')
            && (i < j ==> (p'.states[i], p'.skipping[i]) == (p.states[i], p.skipping[i]))
            && (i >= j ==> var (s, mark, _) := LeaveOne(vs[i], p.states[i], p.skipping[i], t, at);
                           (p'.states[i], p'.skipping[i]) == (s, mark))
    decreases |vs| - j
  {
    if j < |vs| {
      assert ReadOnly(vs[j]);
      var (s, mark, action) := LeaveOne(vs[j], p.states[j], p.skipping[j], t, at);
      LeaveTurn(vs, Parallel(p.states[j := s], p.skipping[j := mark]), j + 1, i, t, at);
    }
  }

  /** The round is one of a visitor that does not edit, skip or break off. */
  lemma {:induction false} TogetherReadOnly<S(!new)>(vs: seq<Visitor<S>>)
    requires AllReadOnly(vs)
    ensures ReadOnly(Together(vs)) && NoReplacement(Together(vs))
  {
    var w := Together(vs);
    forall p: Parallel<S>, t, at ensures !w.enter(p, t, at).1.Put? && !w.leave(p, t, at).1.Put? {
      if Fits(vs, p) && vs != [] {
        EnterTurn(vs, p, 0, 0, t, at);
        LeaveTurn(vs, p, 0, 0, t, at);
      }
    }
  }

  /** How a traversal without edits ends, and in what state. */
  datatype End<+S> = Through(state: S) | BrokeOff(state: S) | Refused(state: S) | Malformed(state: S) | Infinite

  function EndOf<S, R>(o: Outcome<S, R>): End<S> {
    match o
    case Done(s, _, _) => Through(s)
    case Stopped(s, _, _) => BrokeOff(s)
    case Raised(s, EmptyPath, _) => Refused(s)
    case Raised(s, NotANode, _) => Malformed(s)
    case Endless => Infinite
  }

  /** The end of visiting a node, given what `enter` answered and how its children's visit ends. */
  ghost function NodeEnd<S>(v: Visitor<S>, s: S, action: Action, t: Tree, at: Place, below: End<S>): End<S> {
    if action.Break? then BrokeOff(s)
    else if action.Skip? then if at.path == [] then Refused(s) else Through(s)
    else if !below.Through? then below
    else
      var (s', answer) := v.leave(below.state, t, at);
      if answer.Break? then BrokeOff(s') else Through(s')
  }

  lemma {:induction false} NodeEnds<S(!new)>(depth: nat, keysOf: VisitorKeys, v: Visitor<S>, s: S, t: Tree, at: Place)
    requires ReadOnly(v) && WellFormed(keysOf, t) && t.Node? && depth > 0
    ensures var (s', action) := v.enter(s, t, at);
            EndOf(VisitItem(depth, keysOf, v, s, t, at, None)) ==
            NodeEnd(v, s', action, t, at, EndOf(Level(depth - 1, keysOf, v, s', t, at, [])))
  {
    var s' := v.enter(s, t, at).0;
    LevelUnedited(depth - 1, keysOf, v, s', t, at, []);
    hide Level, WellFormed, Rebuild, LastEdit;
    var o := Level(depth - 1, keysOf, v, s', t, at, []);
    if o.Done? {
      RebuildUnedited(keysOf, t, o.result);
    }
  }

  /** The end of visiting a level goes by its children one after the other. */
  lemma {:induction false} LevelEnds<S(!new)>(depth: nat, keysOf: VisitorKeys, v: Visitor<S>, s: S, t: Tree,
      at: Place, edits: Edits)
    requires ReadOnly(v) && WellFormed(keysOf, t) && |edits| < Width(keysOf, t) && LastEdit(edits).None?
    ensures LastEdit(edits + [None]).None?
    ensures var child := ChildAt(keysOf, t, |edits|);
            var item := VisitItem(depth, keysOf, v, s, child, ChildPlace(t, at, KeyAt(keysOf, t, |edits|)), None);
            && (child.Absent? ==>
                  EndOf(Level(depth, keysOf, v, s, t, at, edits)) ==
                      EndOf(Level(depth, keysOf, v, s, t, at, edits + [None])))
            && (!child.Absent? && item.Done? ==>
                  EndOf(Level(depth, keysOf, v, s, t, at, edits)) ==
                      EndOf(Level(depth, keysOf, v, item.state, t, at, edits + [None])))
            && (!child.Absent? && !item.Done? ==>
                  EndOf(Level(depth, keysOf, v, s, t, at, edits)) == EndOf(item))
  {
    var child := ChildAt(keysOf, t, |edits|);
    assert (edits + [None])[..|edits|] == edits;
    if !child.Absent? {
      ItemUnedited(depth, keysOf, v, s, child, ChildPlace(t, at, KeyAt(keysOf, t, |edits|)));
      hide VisitItem, WellFormed, Level;
      LevelUnfolds(depth, keysOf, v, s, t, at, edits);
    }
  }

  lemma {:induction false} LevelUnfolds<S>(depth: nat, keysOf: VisitorKeys, v: Visitor<S>, s: S, t: Tree, at: Place,
      edits: Edits)
    requires |edits| < Width(keysOf, t) && LastEdit(edits).None? && !ChildAt(keysOf, t, |edits|).Absent?
    ensures var place := ChildPlace(t, at, KeyAt(keysOf, t, |edits|));
            var item := VisitItem(depth, keysOf, v, s, ChildAt(keysOf, t, |edits|), place, None);
            EndOf(Level(depth, keysOf, v, s, t, at, edits)) ==
            if item.Done? then EndOf(Level(depth, keysOf, v, item.state, t, at, edits + [item.result])) else EndOf(item)
  {
    hide VisitItem;
  }

  /** How the end of visitor `i` alone shows in the end of the parallel visitor. */
  ghost predicate Agrees<S>(alone: End<S>, s: S, mark: Mark) {
    match alone
    case Through(s') => s == s' && mark.Active?
    case BrokeOff(s') => s == s' && mark.Broken?
    case Refused(s') => s == s' && mark.Active?
    case _ => false
  }

  ghost predicate Unmoved<S>(p: Parallel<S>, p': Parallel<S>, i: nat)
    requires i < |p.states| && i < |p.skipping| && i < |p'.states| && i < |p'.skipping|
  {
    p'.states[i] == p.states[i] && p'.skipping[i] == p.skipping[i]
  }

  /** A visitor that has broken off, or skips a tree around or equal to `t`, takes no part below `t`. */
  ghost predicate Idling(mark: Mark, t: Tree) {
    mark.Broken? || (mark.Skipping? && (t == mark.node || t < mark.node))
  }

  /** The same, but the tree being skipped is not `t` itself. */
  ghost predicate IdlingAround(mark: Mark, t: Tree) {
    mark.Broken? || (mark.Skipping? && t < mark.node)
  }

  /** One visitor's way through a node, in company and alone. */
  lemma {:induction false} NodeTurn<S(!new)>(v: Visitor<S>, s: S, mark: Mark, t: Tree, at: Place, below: End<S>,
      sb: S, mb: Mark)
    requires ReadOnly(v)
    requires var (s1, m1, _) := EnterOne(v, s, mark, t, at);
             && (m1.Active? ==> Agrees(below, sb, mb))
             && (Idling(m1, t) ==> (sb, mb) == (s1, m1))
    requires !below.Refused?
    ensures var (s', action) := v.enter(s, t, at);
            var (se, me, _) := LeaveOne(v, sb, mb, t, at);
            && (mark.Active? ==> Agrees(NodeEnd(v, s', action, t, at, below), se, me))
            && (IdlingAround(mark, t) ==> (se, me) == (s, mark))
  {
  }

  lemma {:induction false} TogetherIs<S>(vs: seq<Visitor<S>>, p: Parallel<S>, t: Tree, at: Place)
    ensures Together(vs).enter(p, t, at) == EnterFrom(vs, p, 0, t, at)
    ensures Together(vs).leave(p, t, at) == LeaveFrom(vs, p, 0, t, at)
  {
  }

  lemma {:induction false} ItemTogether<S(!new)>(depth: nat, keysOf: VisitorKeys, vs: seq<Visitor<S>>, i: nat,
      p: Parallel<S>, t: Tree, at: Place)
    requires AllReadOnly(vs) && Fits(vs, p) && i < |vs| && WellFormed(keysOf, t) && Height(keysOf, t) <= depth
    ensures var o := VisitItem(depth, keysOf, Together(vs), p, t, at, None);
            && o.Done? && Fits(vs, o.state)
            && (p.skipping[i].Active? ==>
                  Agrees(EndOf(VisitItem(depth, keysOf, vs[i], p.states[i], t, at, None)),
                         o.state.states[i], o.state.skipping[i]))
            && (IdlingAround(p.skipping[i], t) ==> Unmoved(p, o.state, i))
    decreases depth, 1, 0
  {
    TogetherReadOnly(vs);
    assert ReadOnly(vs[i]);
    if t.Arr? {
      LevelTogether(depth - 1, keysOf, vs, i, p, t, at, []);
    } else {
      NodeTogether(depth, keysOf, vs, i, p, t, at);
    }
  }

  lemma {:induction false} NodeTogether<S(!new)>(depth: nat, keysOf: VisitorKeys, vs: seq<Visitor<S>>, i: nat,
      p: Parallel<S>, t: Tree, at: Place)
    requires AllReadOnly(vs) && Fits(vs, p) && i < |vs| && WellFormed(keysOf, t) && Height(keysOf, t) <= depth &&
             t.Node?
    ensures var o := VisitItem(depth, keysOf, Together(vs), p, t, at, None);
            && o.Done? && Fits(vs, o.state)
            && (p.skipping[i].Active? ==>
                  Agrees(EndOf(VisitItem(depth, keysOf, vs[i], p.states[i], t, at, None)),
                         o.state.states[i], o.state.skipping[i]))
            && (IdlingAround(p.skipping[i], t) ==> Unmoved(p, o.state, i))
    decreases depth, 0, 0
  {
    var w, v := Together(vs), vs[i];
    TogetherReadOnly(vs);
    assert ReadOnly(v);
    TogetherIs(vs, p, t, at);
    EnterTurn(vs, p, 0, i, t, at);
    var p1 := EnterFrom(vs, p, 0, t, at).0;
    LevelTogether(depth - 1, keysOf, vs, i, p1, t, at, []);
    var o := Level(depth - 1, keysOf, w, p1, t, at, []);
    TogetherIs(vs, o.state, t, at);
    LeaveTurn(vs, o.state, 0, i, t, at);
    NodeEnds(depth, keysOf, w, p, t, at);
    NodeEnds(depth, keysOf, v, p.states[i], t, at);
    var s1 := v.enter(p.states[i], t, at).0;
    LevelUnedited(depth - 1, keysOf, v, s1, t, at, []);
    var below := EndOf(Level(depth - 1, keysOf, v, s1, t, at, []));
    hide Level, VisitItem, Together, WellFormed, EnterFrom, LeaveFrom, ReadOnly, Agrees, NodeEnd, Height;
    NodeTurn(v, p.states[i], p.skipping[i], t, at, below, o.state.states[i], o.state.skipping[i]);
  }

  lemma {:induction false} LevelTogether<S(!new)>(depth: nat, keysOf: VisitorKeys, vs: seq<Visitor<S>>, i: nat,
      p: Parallel<S>, t: Tree, at: Place, edits: Edits)
    requires AllReadOnly(vs) && Fits(vs, p) && i < |vs| && WellFormed(keysOf, t)
    requires HeightBelow(keysOf, t, Width(keysOf, t)) <= depth
    requires |edits| <= Width(keysOf, t) && LastEdit(edits).None?
    ensures var o := Level(depth, keysOf, Together(vs), p, t, at, edits);
            && o.Done? && Fits(vs, o.state)
            && (p.skipping[i].Active? ==>
                  Agrees(EndOf(Level(depth, keysOf, vs[i], p.states[i], t, at, edits)),
                         o.state.states[i], o.state.skipping[i]))
            && (Idling(p.skipping[i], t) ==> Unmoved(p, o.state, i))
    decreases depth, 2, Width(keysOf, t) - |edits|
  {
    var n := |edits|;
    if n < Width(keysOf, t) {
      var w, v := Together(vs), vs[i];
      TogetherReadOnly(vs);
      assert ReadOnly(v);
      LevelEnds(depth, keysOf, w, p, t, at, edits);
      LevelEnds(depth, keysOf, v, p.states[i], t, at, edits);
      var child := ChildAt(keysOf, t, n);
      if child.Absent? {
        LevelTogether(depth, keysOf, vs, i, p, t, at, edits + [None]);
      } else {
        HeightOfChild(keysOf, t, Width(keysOf, t), n);
        var place := ChildPlace(t, at, KeyAt(keysOf, t, n));
        ItemTogether(depth, keysOf, vs, i, p, child, place);
        ItemUnedited(depth, keysOf, v, p.states[i], child, place);
        hide VisitItem, Together, Level, ReadOnly, WellFormed, HeightBelow, LastEdit;
        var o := VisitItem(depth, keysOf, w, p, child, place, None);
        LevelTogether(depth, keysOf, vs, i, o.state, t, at, edits + [None]);
      }
    }
  }

  /**
   The theorem: visitor `i` ends in the state it would reach alone, whatever the others
   do, and the traversal itself always goes through to the end.
   */
  lemma {:induction false} EachAsIfAlone<S(!new)>(depth: nat, keysOf: VisitorKeys, vs: seq<Visitor<S>>,
      states: seq<S>, root: Tree, i: nat)
    requires AllReadOnly(vs) && |states| == |vs| && i < |vs|
    requires root.Node? && WellFormed(keysOf, root) && Height(keysOf, root) <= depth
    ensures var together := Traverse(depth, keysOf, Together(vs), Parallel(states, Fresh(|vs|)), root);
            var alone := Traverse(depth, keysOf, vs[i], states[i], root);
            && together.Done? && Fits(vs, together.state)
            && !alone.Endless? && together.state.states[i] == alone.state
            && (together.state.skipping[i].Broken? <==> alone.Stopped?)
  {
    var p := Parallel(states, Fresh(|vs|));
    ItemTogether(depth, keysOf, vs, i, p, root, ROOT_PLACE);
    assert ReadOnly(vs[i]);
    hide VisitItem, Together;
  }

  /** In particular each visitor receives exactly the calls it would receive alone. */
  lemma {:induction false} SameCallsAsAlone<S(!new)>(depth: nat, keysOf: VisitorKeys, vs: seq<Visitor<S>>,
      states: seq<S>, root: Tree, i: nat)
    requires AllReadOnly(vs) && |states| == |vs| && i < |vs|
    requires root.Node? && WellFormed(keysOf, root) && Height(keysOf, root) <= depth
    ensures var recorders := seq(|vs|, k requires 0 <= k < |vs| => Recorded(vs[k]));
            var starts := seq(|vs|, k requires 0 <= k < |vs| => (states[k], []));
            var together := Traverse(depth, keysOf, Together(recorders), Parallel(starts, Fresh(|vs|)), root);
            var alone := Traverse(depth, keysOf, Recorded(vs[i]), (states[i], []), root);
            && !together.Endless? && !alone.Endless?
            && |together.state.states| == |vs|
            && together.state.states[i].1 == alone.state.1
  {
    var recorders := seq(|vs|, k requires 0 <= k < |vs| => Recorded(vs[k]));
    var starts: seq<(S, seq<Call>)> := seq(|vs|, k requires 0 <= k < |vs| => (states[k], []));
    forall k | 0 <= k < |vs| ensures ReadOnly(recorders[k]) {
      RecordedReadOnly(vs[k]);
    }
    EachAsIfAlone(depth, keysOf, recorders, starts, root, i);
  }
}
