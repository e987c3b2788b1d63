/** BFSVerifier of trident-workloads/gapbs/src/bfs.cc: a serial search, and which parent arrays it accepts. */
module SerialBFS {
  import opened Graphs
  import opened Frontier

  /** v has no depth, or one more than the vertex it was found from. */
  ghost predicate FoundAt(g: Graph, s: nat, depth: seq<int>, from: seq<int>, v: nat) {
    && v < |depth| && v < |from| && depth[v] >= -1
    && (depth[v] >= 0 ==>
          if v == s then depth[v] == 0 && from[v] == s
          else 0 <= from[v] < |depth| && depth[from[v]] >= 0 && Listed(g, from[v], v) && depth[v] == depth[from[v]] + 1)
  }

  ghost predicate QueuedAt(depth: seq<int>, q: seq<nat>, i: nat) {
    i < |q| && q[i] < |depth| && depth[q[i]] >= 0 && (i > 0 && q[i - 1] < |depth| ==> depth[q[i - 1]] <= depth[q[i]])
  }

  ghost predicate EdgeDone(g: Graph, depth: seq<int>, u: nat, j: nat) {
    && u < |depth| && u < |g.outs| && j < |g.outs[u]| && g.outs[u][j] < |depth|
    && 0 <= depth[g.outs[u][j]] <= depth[u] + 1
  }

  /** The queue q from position it on, where the first j edges of q[it] are done. */
  ghost predicate Searching(g: Graph, s: nat, depth: seq<int>, from: seq<int>, q: seq<nat>, it: nat, j: nat) {
    && |depth| == g.n && |from| == g.n && s < g.n && depth[s] == 0
    && (forall v: nat {:trigger FoundAt(g, s, depth, from, v)} :: v < g.n ==> FoundAt(g, s, depth, from, v))
    && (forall i: nat {:trigger QueuedAt(depth, q, i)} :: i < |q| ==> QueuedAt(depth, q, i))
    && (forall v: nat :: v < g.n && depth[v] >= 0 ==> v in q)
    && Distinct(q) && it <= |q|
    && (it < |q| ==> q[|q| - 1] < g.n && q[it] < g.n && depth[q[|q| - 1]] <= depth[q[it]] + 1)
    && (forall i: nat, e: nat {:trigger EdgeDone(g, depth, q[i], e)} ::
          (i < it || (i == it && e < j)) && i < |q| && q[i] < |g.outs| && e < |g.outs[q[i]]| ==> EdgeDone(g, depth, q[i], e))
  }

  lemma {:induction false} QueueOrder(depth: seq<int>, q: seq<nat>, i: nat, k: nat)
    requires (forall x: nat {:trigger QueuedAt(depth, q, x)} :: x < |q| ==> QueuedAt(depth, q, x)) && i <= k < |q|
    ensures q[i] < |depth| && q[k] < |depth| && depth[q[i]] <= depth[q[k]]
  {
    assert QueuedAt(depth, q, i) && QueuedAt(depth, q, k);
    if i < k {
      QueueOrder(depth, q, i, k - 1);
    }
  }

  lemma SearchStart(g: Graph, s: nat, depth: seq<int>, from: seq<int>)
    requires WellFormed(g) && s < g.n && |depth| == g.n && |from| == g.n && from[s] == s
    requires forall v: nat :: v < g.n ==> depth[v] == if v == s then 0 else -1
    ensures Searching(g, s, depth, from, [s], 0, 0)
  {
    var q := [s];
    forall v: nat | v < g.n
      ensures FoundAt(g, s, depth, from, v)
    {
    }
    forall i: nat | i < |q|
      ensures QueuedAt(depth, q, i)
    {
    }
    assert DistinctAt(q, 0);
  }

  /** An edge to a vertex that has a depth already. */
  lemma OldVertex(g: Graph, s: nat, depth: seq<int>, from: seq<int>, q: seq<nat>, it: nat, j: nat)
    requires WellFormed(g) && Searching(g, s, depth, from, q, it, j) && it < |q| && j < |g.outs[q[it]]|
    requires g.outs[q[it]][j] < g.n && depth[g.outs[q[it]][j]] != -1
    ensures Searching(g, s, depth, from, q, it, j + 1)
  {
    var u, v := q[it], g.outs[q[it]][j];
    assert FoundAt(g, s, depth, from, v);
    var i :| 0 <= i < |q| && q[i] == v;
    QueueOrder(depth, q, i, |q| - 1);
    assert EdgeDone(g, depth, u, j);
  }

  /** An edge to a new vertex, which gets its depth and joins the queue. */
  lemma NewVertex(g: Graph, s: nat, depth: seq<int>, from: seq<int>, q: seq<nat>, it: nat, j: nat)
    requires WellFormed(g) && Searching(g, s, depth, from, q, it, j) && it < |q| && j < |g.outs[q[it]]|
    requires g.outs[q[it]][j] < g.n && depth[g.outs[q[it]][j]] == -1
    ensures var u, v := q[it], g.outs[q[it]][j];
      Searching(g, s, depth[v := depth[u] + 1], from[v := u], q + [v], it, j + 1)
  {
    var u, v := q[it], g.outs[q[it]][j];
    var depth', from', q' := depth[v := depth[u] + 1], from[v := u], q + [v];
    assert QueuedAt(depth, q, it);
    assert Listed(g, u, v);
    forall i: nat | i < |q|
      ensures q[i] != v
    {
      assert QueuedAt(depth, q, i);
    }
    forall x: nat | x < g.n
      ensures FoundAt(g, s, depth', from', x)
    {
      assert FoundAt(g, s, depth, from, x);
    }
    forall i: nat | i < |q'|
      ensures QueuedAt(depth', q', i)
    {
      if i < |q| {
        assert QueuedAt(depth, q, i);
        assert i > 0 ==> QueuedAt(depth, q, i - 1);
      } else {
        assert QueuedAt(depth, q, |q| - 1);
      }
    }
    DistinctAppend(q, v);
    forall i: nat, e: nat | (i < it || (i == it && e < j + 1)) && i < |q'| && q'[i] < |g.outs| && e < |g.outs[q'[i]]|
      ensures EdgeDone(g, depth', q'[i], e)
    {
      if i < it || e < j {
        assert EdgeDone(g, depth, q[i], e);
      }
    }
  }

  /** All edges of q[it] are done: on to the next. */
  lemma NextVertex(g: Graph, s: nat, depth: seq<int>, from: seq<int>, q: seq<nat>, it: nat)
    requires WellFormed(g) && it < |q| && q[it] < |g.outs| && Searching(g, s, depth, from, q, it, |g.outs[q[it]]|)
    ensures Searching(g, s, depth, from, q, it + 1, 0)
  {
    if it + 1 < |q| {
      QueueOrder(depth, q, it, it + 1);
      QueueOrder(depth, q, it + 1, |q| - 1);
    }
  }

  ghost function DepthMap(depth: seq<int>): map<nat, nat> {
    map v: nat | v < |depth| && depth[v] >= 0 :: depth[v]
  }

  lemma SearchDone(g: Graph, s: nat, depth: seq<int>, from: seq<int>, q: seq<nat>)
    requires WellFormed(g) && Searching(g, s, depth, from, q, |q|, 0)
    ensures DepthTree(g, s, DepthMap(depth), from)
  {
    var m := DepthMap(depth);
    forall v | v in m
      ensures DepthAt(g, s, m, from, v)
    {
      assert FoundAt(g, s, depth, from, v);
    }
    forall u | u in m
      ensures ClosedAt(g, m, u)
    {
      var i: nat :| i < |q| && q[i] == u;
      forall v: nat | Listed(g, u, v)
        ensures v in m && m[v] <= m[u] + 1
      {
        var e: nat :| e < |g.outs[u]| && g.outs[u][e] == v;
        assert EdgeDone(g, depth, q[i], e);
      }
    }
  }

  /** The serial search: the distance of every vertex, or -1. */
  method SerialDepths(g: Graph, source: nat) returns (depth: array<int>)
    requires WellFormed(g) && source < g.n
    ensures fresh(depth) && depth.Length == g.n
    ensures forall v: nat {:trigger depth[v]} :: v < g.n ==> DepthIs(g, source, v, depth[v])
  {
    depth := new int[g.n](v => if v == source then 0 else -1);
    ghost var from: seq<int> := seq(g.n, v => source);
    var toVisit := [source];
    SearchStart(g, source, depth[..], from);
    var it := 0;
    while it < |toVisit|
      invariant it <= |toVisit| && Searching(g, source, depth[..], from, toVisit, it, 0)
      decreases g.n - it
    {
      QueueRoom(g, source, depth[..], from, toVisit, it);
      var u := toVisit[it];
      for j := 0 to |g.outs[u]|
        invariant it < |toVisit| && toVisit[it] == u && Searching(g, source, depth[..], from, toVisit, it, j)
      {
        var v := g.outs[u][j];
        assert Listed(g, u, v);
        if depth[v] == -1 {
          NewVertex(g, source, depth[..], from, toVisit, it, j);
          depth[v] := depth[u] + 1;
          from := from[v := u];
          toVisit := toVisit + [v];
        } else {
          OldVertex(g, source, depth[..], from, toVisit, it, j);
        }
      }
      NextVertex(g, source, depth[..], from, toVisit, it);
      it := it + 1;
    }
    SearchDone(g, source, depth[..], from, toVisit);
    forall v: nat | v < g.n
      ensures DepthIs(g, source, v, depth[v])
    {
      DepthIsDistance(g, source, DepthMap(depth[..]), from, v);
      assert FoundAt(g, source, depth[..], from, v);
    }
  }

  lemma QueueRoom(g: Graph, s: nat, depth: seq<int>, from: seq<int>, q: seq<nat>, it: nat)
    requires Searching(g, s, depth, from, q, it, 0) && it < |q|
    ensures it < g.n && q[it] < g.n
  {
    DistinctSize(q);
    forall x | x in Elements(q)
      ensures x in Below(g.n)
    {
      var i :| 0 <= i < |q| && q[i] == x;
      assert QueuedAt(depth, q, i);
    }
    SubsetSize(Elements(q), Below(g.n));
    assert QueuedAt(depth, q, it);
  }

  ghost predicate DepthIs(g: Graph, s: nat, v: nat, d: int) {
    if Reachable(g, s, v) then d >= 0 && Distance(g, s, v, d) else d == -1
  }

  ghost predicate Accepts(g: Graph, s: nat, parent: seq<int>, v: nat) {
    v < |parent| && if Reachable(g, s, v) then ShortestParent(g, s, parent[v], v) else parent[v] == -1
  }

  /** One vertex passes exactly if its parent is one step closer to the source. */
  method CheckVertex(g: Graph, source: nat, parent: seq<int>, depth: array<int>, u: nat) returns (ok: bool)
    requires WellFormed(g) && source < g.n && u < g.n && |parent| == g.n && depth.Length == g.n
    requires forall v: nat {:trigger depth[v]} :: v < g.n ==> DepthIs(g, source, v, depth[v])
    ensures ok <==> Accepts(g, source, parent, u)
  {
    SourceDistance(g, source);
    if depth[u] != -1 && parent[u] != -1 {
      if u == source {
        return parent[u] == u && depth[u] == 0;
      }
      for j := 0 to |g.ins[u]|
        invariant forall i :: 0 <= i < j ==> g.ins[u][i] != parent[u]
      {
        var v := g.ins[u][j];
        if v == parent[u] {
          assert v in g.ins[u] && Listed(g, v, u);
          CloserParent(g, source, v, u, depth[v], depth[u]);
          return depth[v] == depth[u] - 1;
        }
      }
      return false;
    }
    ok := depth[u] == parent[u];
  }

  lemma SourceDistance(g: Graph, s: nat)
    ensures Reachable(g, s, s) && Distance(g, s, s, 0)
  {
    var p := [s];
    assert IsWalk(g, p, s, s);
    assert WalkOf(g, s, s, 0);
  }

  lemma CloserParent(g: Graph, s: nat, p: nat, u: nat, dp: int, du: int)
    requires Reachable(g, s, u) && u != s && Listed(g, p, u) && DepthIs(g, s, p, dp) && DepthIs(g, s, u, du)
    ensures dp == du - 1 <==> ShortestParent(g, s, p, u)
  {
    if dp == du - 1 {
      if dp == -1 {
        assert false;
      }
      assert Distance(g, s, p, dp) && Distance(g, s, u, dp + 1);
    }
  }

  /** BFSVerifier accepts exactly the breadth-first trees. */
  method BFSVerifier(g: Graph, source: nat, parent: seq<int>) returns (ok: bool)
    requires WellFormed(g) && source < g.n && |parent| == g.n
    ensures ok <==> BfsTree(g, source, parent)
  {
    var depth := SerialDepths(g, source);
    for u := 0 to g.n
      invariant forall v: nat {:trigger Accepts(g, source, parent, v)} :: v < u ==> Accepts(g, source, parent, v)
      invariant forall v: nat {:trigger depth[v]} :: v < g.n ==> DepthIs(g, source, v, depth[v])
    {
      ok := CheckVertex(g, source, parent, depth, u);
      if !ok {
        assert !Accepts(g, source, parent, u);
        return false;
      }
    }
    ok := true;
    forall v: nat | v < g.n
      ensures if Reachable(g, source, v) then ShortestParent(g, source, parent[v], v) else parent[v] == -1
    {
      assert Accepts(g, source, parent, v);
    }
  }
}
