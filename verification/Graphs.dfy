/** Graphs as the kernels of trident-workloads/gapbs see them, and directed distance. */
module Graphs {

  /** CSRGraph: out- and in-neighbour lists; an undirected graph uses one list for both. */
  datatype Graph = Graph(n: nat, outs: seq<seq<nat>>, ins: seq<seq<nat>>)

  ghost predicate Listed(g: Graph, u: nat, v: nat) {
    u < |g.outs| && v in g.outs[u]
  }

  ghost predicate WellFormed(g: Graph) {
    && |g.outs| == g.n && |g.ins| == g.n
    && (forall u: nat, v: nat :: Listed(g, u, v) ==> v < g.n)
    && (forall u: nat, v: nat :: u < g.n && v < g.n ==> (Listed(g, u, v) <==> u in g.ins[v]))
    && (forall u: nat, v: nat :: u < g.n && v in g.ins[u] ==> v < g.n)
  }

  // --------------------------------------------------------------- distance

  ghost predicate StepAt(g: Graph, p: seq<nat>, i: nat) {
    i + 1 < |p| && Listed(g, p[i], p[i + 1])
  }

  /** p is a directed walk from u to v. */
  ghost predicate IsWalk(g: Graph, p: seq<nat>, u: nat, v: nat) {
    && |p| > 0 && p[0] == u && p[|p| - 1] == v
    && forall i: nat {:trigger StepAt(g, p, i)} :: i + 1 < |p| ==> StepAt(g, p, i)
  }

  /** Some walk from s to v has exactly k edges. */
  ghost predicate WalkOf(g: Graph, s: nat, v: nat, k: nat) {
    exists p :: IsWalk(g, p, s, v) && |p| == k + 1
  }

  ghost predicate Reachable(g: Graph, s: nat, v: nat) {
    exists k: nat :: WalkOf(g, s, v, k)
  }

  /** k is the length of a shortest walk from s to v. */
  ghost predicate Distance(g: Graph, s: nat, v: nat, k: nat) {
    WalkOf(g, s, v, k) && forall j: nat :: WalkOf(g, s, v, j) ==> k <= j
  }

  // ------------------------------------------- depths that measure distance

  ghost predicate DepthAt(g: Graph, s: nat, depth: map<nat, nat>, parent: seq<int>, v: nat) {
    && v in depth && v < |parent| && parent[v] >= 0
    && if v == s then depth[v] == 0 && parent[v] == s
       else
         var p: nat := parent[v];
         p in depth && Listed(g, p, v) && depth[v] == depth[p] + 1
  }

  ghost predicate ClosedAt(g: Graph, depth: map<nat, nat>, u: nat) {
    u in depth && forall v: nat {:trigger Listed(g, u, v)} :: Listed(g, u, v) ==> v in depth && depth[v] <= depth[u] + 1
  }

  /** Every vertex with a depth has a parent one closer to s, and no edge skips a depth. */
  ghost predicate DepthTree(g: Graph, s: nat, depth: map<nat, nat>, parent: seq<int>) {
    && s in depth
    && (forall v {:trigger DepthAt(g, s, depth, parent, v)} :: v in depth ==> DepthAt(g, s, depth, parent, v))
    && (forall u {:trigger ClosedAt(g, depth, u)} :: u in depth ==> ClosedAt(g, depth, u))
  }

  lemma {:induction false} DepthHasWalk(g: Graph, s: nat, depth: map<nat, nat>, parent: seq<int>, v: nat) returns (p: seq<nat>)
    requires DepthTree(g, s, depth, parent) && v in depth
    ensures IsWalk(g, p, s, v) && |p| == depth[v] + 1
    decreases depth[v]
  {
    assert DepthAt(g, s, depth, parent, v);
    if v == s {
      p := [s];
    } else {
      var q := DepthHasWalk(g, s, depth, parent, parent[v]);
      p := q + [v];
      forall i: nat | i + 1 < |p|
        ensures StepAt(g, p, i)
      {
        assert i + 1 < |q| ==> StepAt(g, q, i);
      }
    }
  }

  lemma {:induction false} WalkBoundsDepth(g: Graph, s: nat, depth: map<nat, nat>, parent: seq<int>, v: nat, p: seq<nat>)
    requires DepthTree(g, s, depth, parent) && IsWalk(g, p, s, v)
    ensures v in depth && depth[v] <= |p| - 1
    decreases |p|
  {
    if |p| == 1 {
      assert DepthAt(g, s, depth, parent, s);
    } else {
      var q, u := p[..|p| - 1], p[|p| - 2];
      forall i: nat | i + 1 < |q|
        ensures StepAt(g, q, i)
      {
        assert StepAt(g, p, i);
      }
      WalkBoundsDepth(g, s, depth, parent, u, q);
      assert StepAt(g, p, |p| - 2) && ClosedAt(g, depth, u);
    }
  }

  /** The depths are distances, and exactly the reachable vertices have one. */
  lemma DepthIsDistance(g: Graph, s: nat, depth: map<nat, nat>, parent: seq<int>, v: nat)
    requires DepthTree(g, s, depth, parent)
    ensures v in depth <==> Reachable(g, s, v)
    ensures v in depth ==> Distance(g, s, v, depth[v])
  {
    if v in depth {
      var p := DepthHasWalk(g, s, depth, parent, v);
      assert WalkOf(g, s, v, depth[v]);
    }
    forall k: nat | WalkOf(g, s, v, k)
      ensures v in depth && depth[v] <= k
    {
      var p :| IsWalk(g, p, s, v) && |p| == k + 1;
      WalkBoundsDepth(g, s, depth, parent, v, p);
    }
  }

  // -------------------------------------------------------- breadth-first trees

  /** Parents are one step closer to the source, by shortest walks; unreachable vertices have parent -1. */
  ghost predicate BfsTree(g: Graph, s: nat, parent: seq<int>) {
    && |parent| == g.n
    && (forall v: nat :: v < g.n ==> if Reachable(g, s, v) then ShortestParent(g, s, parent[v], v) else parent[v] == -1)
  }

  ghost predicate ShortestParent(g: Graph, s: nat, p: int, v: nat) {
    if v == s then p == s
    else p >= 0 && Listed(g, p, v) && exists k: nat :: Distance(g, s, p, k) && Distance(g, s, v, k + 1)
  }

  /** Depths that measure distance make the parents a breadth-first tree. */
  lemma DepthTreeIsBfsTree(g: Graph, s: nat, depth: map<nat, nat>, parent: seq<int>)
    requires DepthTree(g, s, depth, parent) && |parent| == g.n && (forall v: nat :: v in depth ==> v < g.n)
    requires forall v: nat :: v < g.n && v !in depth ==> parent[v] == -1
    ensures BfsTree(g, s, parent)
  {
    forall v: nat | v < g.n
      ensures if Reachable(g, s, v) then ShortestParent(g, s, parent[v], v) else parent[v] == -1
    {
      DepthIsDistance(g, s, depth, parent, v);
      if v in depth && v != s {
        assert DepthAt(g, s, depth, parent, v);
        var p: nat := parent[v];
        DepthIsDistance(g, s, depth, parent, p);
        assert Distance(g, s, p, depth[p]) && Distance(g, s, v, depth[p] + 1);
      } else if v in depth {
        assert DepthAt(g, s, depth, parent, v);
      }
    }
  }
}
