/** Finite directed graphs over names, and walks through them. */
module Digraph {
  import opened Common

  datatype Graph = Graph(edges: map<string, seq<string>>) {
    /** The successors of n in order; a name without an entry has none. */
    function Succ(n: string): seq<string> {
      if n in edges then edges[n] else []
    }
  }

  ghost predicate IsWalk(g: Graph, w: seq<string>) {
    && w != []
    && forall i :: 0 <= i < |w| - 1 ==> w[i + 1] in g.Succ(w[i])
  }

  ghost predicate IsWalkFrom(g: Graph, from: string, w: seq<string>) {
    IsWalk(g, w) && w[0] == from
  }

  ghost predicate Reachable(g: Graph, from: string, to: string) {
    exists w :: IsWalkFrom(g, from, w) && w[|w| - 1] == to
  }

  /** Some walk from the node meets a node twice. */
  ghost predicate CycleFrom(g: Graph, from: string) {
    exists w :: IsWalkFrom(g, from, w) && !NoDuplicates(w)
  }

  lemma WalkExtend(g: Graph, w: seq<string>, n: string)
    requires w == [] || (IsWalk(g, w) && n in g.Succ(w[|w| - 1]))
    ensures IsWalk(g, w + [n])
  {
  }

  lemma WalkTail(g: Graph, w: seq<string>)
    requires IsWalk(g, w) && |w| > 1
    ensures IsWalkFrom(g, w[1], w[1..]) && w[1] in g.Succ(w[0])
  {
    forall i | 0 <= i < |w| - 2
      ensures w[1..][i + 1] in g.Succ(w[1..][i])
    {
      assert w[(i + 1) + 1] in g.Succ(w[i + 1]);
    }
    assert w[0 + 1] in g.Succ(w[0]);
  }

  /** Going first to a successor and on from there is still a walk from the start. */
  lemma ReachableVia(g: Graph, from: string, mid: string, to: string)
    requires mid in g.Succ(from) && Reachable(g, mid, to)
    ensures Reachable(g, from, to)
  {
    var w :| IsWalkFrom(g, mid, w) && w[|w| - 1] == to;
    var v := [from] + w;
    forall i | 0 <= i < |v| - 1
      ensures v[i + 1] in g.Succ(v[i])
    {
      if i > 0 {
        assert w[(i - 1) + 1] in g.Succ(w[i - 1]);
      }
    }
    assert IsWalkFrom(g, from, v);
  }

  lemma ReachableSelf(g: Graph, n: string)
    ensures Reachable(g, n, n)
  {
    assert IsWalkFrom(g, n, [n]);
  }
}
