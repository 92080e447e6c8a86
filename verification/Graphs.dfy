/** Reachability in finite directed graphs, and the sizes of the sets that searches shrink. */
module Graphs {

  type Graph<!N> = map<N, seq<N>>

  lemma {:induction false} SubsetSize<T>(a: set<T>, b: set<T>)
    requires a <= b
    ensures |a| <= |b|
    ensures a != b ==> |a| < |b|
  {
    if a != {} {
      var x :| x in a;
      SubsetSize(a - {x}, b - {x});
    }
  }

  /** Less is left to be found once an element has been. */
  lemma {:induction false} FewerLeft<T>(all: set<T>, before: set<T>, after: set<T>, x: T)
    requires before <= after && x in all && x !in before && x in after
    ensures |all - after| < |all - before|
  {
    SubsetSize(all - after, all - before);
  }

  lemma {:induction false} StillLeft<T>(all: set<T>, before: set<T>, after: set<T>)
    requires before <= after
    ensures |all - after| <= |all - before|
  {
    SubsetSize(all - after, all - before);
  }

  ghost predicate Leads<N>(graph: Graph<N>, from: N, to: N, steps: nat)
    decreases steps
  {
    || from == to
    || (steps > 0 && from in graph && exists k :: 0 <= k < |graph[from]| && Leads(graph, graph[from][k], to, steps - 1))
  }

  /** There is a path, of any length, from one node to the other. */
  ghost predicate LeadsTo<N>(graph: Graph<N>, from: N, to: N) {
    exists steps: nat :: Leads(graph, from, to, steps)
  }

  /** All the successors of the nodes in `among` are in `nodes`. */
  ghost predicate IsClosed<N>(graph: Graph<N>, among: set<N>, nodes: set<N>) {
    forall n, k | n in among && n in graph && 0 <= k < |graph[n]| :: graph[n][k] in nodes
  }

  lemma {:induction false} LeadsToItself<N>(graph: Graph<N>, n: N)
    ensures LeadsTo(graph, n, n)
  {
    assert Leads(graph, n, n, 0);
  }

  lemma {:induction false} StepAndOn<N>(graph: Graph<N>, from: N, k: nat, to: N)
    requires from in graph && k < |graph[from]| && LeadsTo(graph, graph[from][k], to)
    ensures LeadsTo(graph, from, to)
  {
    var steps: nat :| Leads(graph, graph[from][k], to, steps);
    assert Leads(graph, from, to, steps + 1);
  }

  lemma {:induction false} OnAndStep<N>(graph: Graph<N>, from: N, n: N, k: nat)
    requires LeadsTo(graph, from, n) && n in graph && k < |graph[n]|
    ensures LeadsTo(graph, from, graph[n][k])
  {
    var steps: nat :| Leads(graph, from, n, steps);
    LeadsAndStep(graph, from, n, k, steps);
  }

  lemma {:induction false} LeadsAndStep<N>(graph: Graph<N>, from: N, n: N, k: nat, steps: nat)
    requires Leads(graph, from, n, steps) && n in graph && k < |graph[n]|
    ensures LeadsTo(graph, from, graph[n][k])
    decreases steps
  {
    if from == n {
      LeadsToItself(graph, graph[n][k]);
      StepAndOn(graph, from, k, graph[n][k]);
    } else {
      var j :| 0 <= j < |graph[from]| && Leads(graph, graph[from][j], n, steps - 1);
      LeadsAndStep(graph, graph[from][j], n, k, steps - 1);
      StepAndOn(graph, from, j, graph[n][k]);
    }
  }

  /** A path cannot leave a closed set. */
  lemma {:induction false} StaysInside<N>(graph: Graph<N>, nodes: set<N>, from: N, to: N)
    requires IsClosed(graph, nodes, nodes) && from in nodes && LeadsTo(graph, from, to)
    ensures to in nodes
  {
    var steps: nat :| Leads(graph, from, to, steps);
    LeadsInside(graph, nodes, from, to, steps);
  }

  lemma {:induction false} LeadsInside<N>(graph: Graph<N>, nodes: set<N>, from: N, to: N, steps: nat)
    requires IsClosed(graph, nodes, nodes) && from in nodes && Leads(graph, from, to, steps)
    ensures to in nodes
    decreases steps
  {
    if from != to {
      var k :| 0 <= k < |graph[from]| && Leads(graph, graph[from][k], to, steps - 1);
      LeadsInside(graph, nodes, graph[from][k], to, steps - 1);
    }
  }

  lemma {:induction false} ClosedTogether<N>(graph: Graph<N>, a: set<N>, nodes: set<N>, b: set<N>, nodes': set<N>,
      c: set<N>)
    requires IsClosed(graph, a, nodes) && IsClosed(graph, b, nodes') && nodes <= nodes' && c <= a + b
    ensures IsClosed(graph, c, nodes')
  {
  }

  lemma {:induction false} NothingIsClosed<N>(graph: Graph<N>)
    ensures IsClosed(graph, {}, {})
  {
  }
}
