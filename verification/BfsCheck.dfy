/** verify_bfs_tree of trident-workloads/graph500/verify.c: which parent arrays it accepts. */
module BfsCheck {
  import opened Frontier
  import opened Graphs
  import opened TreeLevels

  datatype PackedEdge = PackedEdge(v0: int, v1: int)

  // -------------------------------------------------------- the graph of the edge list

  /** The other ends of the edges at u; edges with a negative end are padding. */
  ghost function Neighbours(edges: seq<PackedEdge>, u: nat): seq<nat> {
    if edges == [] then []
    else
      var e, rest := edges[|edges| - 1], Neighbours(edges[..|edges| - 1], u);
      if e.v0 < 0 || e.v1 < 0 then rest
      else rest + (if e.v0 == u then [e.v1] else []) + (if e.v1 == u then [e.v0] else [])
  }

  ghost predicate Joins(e: PackedEdge, u: nat, v: nat) {
    e.v0 >= 0 && e.v1 >= 0 && ((e.v0 == u && e.v1 == v) || (e.v0 == v && e.v1 == u))
  }

  lemma {:induction false} NeighboursAre(edges: seq<PackedEdge>, u: nat, v: nat)
    ensures v in Neighbours(edges, u) <==> exists k :: 0 <= k < |edges| && Joins(edges[k], u, v)
  {
    if edges != [] {
      var m := |edges| - 1;
      NeighboursAre(edges[..m], u, v);
      var rest, e := Neighbours(edges[..m], u), edges[m];
      assert v in Neighbours(edges, u) <==> v in rest || Joins(e, u, v);
      if v in rest {
        var k :| 0 <= k < m && Joins(edges[..m][k], u, v);
        assert Joins(edges[k], u, v);
      }
      forall k | 0 <= k < |edges| && Joins(edges[k], u, v)
        ensures v in Neighbours(edges, u)
      {
        if k < m {
          assert Joins(edges[..m][k], u, v);
        }
      }
    }
  }

  ghost function GraphOf(n: nat, edges: seq<PackedEdge>): Graph {
    var lists := seq(n, u requires 0 <= u < n => Neighbours(edges, u));
    Graph(n, lists, lists)
  }

  /** No edge leads from the vertices below n to those above, which the checker was told to leave out. */
  ghost predicate NoneCrosses(edges: seq<PackedEdge>, n: nat) {
    forall k :: 0 <= k < |edges| ==> edges[k].v0 < 0 || edges[k].v1 < 0 || (edges[k].v0 < n <==> edges[k].v1 < n)
  }

  lemma ListedIs(n: nat, edges: seq<PackedEdge>, u: nat, v: nat)
    requires NoneCrosses(edges, n)
    ensures Listed(GraphOf(n, edges), u, v) <==> u < n && exists k :: 0 <= k < |edges| && Joins(edges[k], u, v)
    ensures Listed(GraphOf(n, edges), u, v) ==> u < n && v < n && Listed(GraphOf(n, edges), v, u)
  {
    NeighboursAre(edges, u, v);
    NeighboursAre(edges, v, u);
    if k :| 0 <= k < |edges| && Joins(edges[k], u, v) {
      assert Joins(edges[k], v, u);
    }
  }

  // ---------------------------------------------------------------- what is checked

  ghost predicate EdgeOk(tree: seq<int>, level: seq<int>, e: PackedEdge) {
    e.v0 < 0 || e.v1 < 0 || (e.v0 >= |tree| && e.v1 >= |tree|) ||
    (&& e.v0 < |tree| && e.v1 < |tree| && |level| == |tree|
     && (tree[e.v0] >= 0 <==> tree[e.v1] >= 0)
     && (tree[e.v0] >= 0 ==> -1 <= level[e.v0] - level[e.v1] <= 1))
  }

  /** The edge joins k to its parent, both in the tree. */
  ghost predicate Shows(tree: seq<int>, e: PackedEdge, k: nat) {
    && k < |tree| && 0 <= e.v0 < |tree| && 0 <= e.v1 < |tree| && e.v0 != e.v1 && tree[e.v0] >= 0 && tree[e.v1] >= 0
    && ((e.v0 == k && tree[k] == e.v1) || (e.v1 == k && tree[k] == e.v0))
  }

  ghost predicate SeenIn(tree: seq<int>, edges: seq<PackedEdge>, k: nat) {
    exists i :: 0 <= i < |edges| && Shows(tree, edges[i], k)
  }

  predicate Traversed(tree: seq<int>, e: PackedEdge) {
    0 <= e.v0 < |tree| && 0 <= e.v1 < |tree| && tree[e.v0] >= 0 && tree[e.v1] >= 0
  }

  /** The number of listed edges with both ends in the tree, repeated edges and loops included. */
  ghost function Inside(tree: seq<int>, edges: seq<PackedEdge>): nat {
    if edges == [] then 0
    else Inside(tree, edges[..|edges| - 1]) + if Traversed(tree, edges[|edges| - 1]) then 1 else 0
  }

  ghost predicate ParentOk(tree: seq<int>, root: nat, edges: seq<PackedEdge>, k: nat) {
    k < |tree| && (k == root || ((tree[k] >= 0 ==> SeenIn(tree, edges, k)) && tree[k] != k))
  }

  ghost predicate EdgesOk(tree: seq<int>, level: seq<int>, edges: seq<PackedEdge>) {
    forall i :: 0 <= i < |edges| ==> EdgeOk(tree, level, edges[i])
  }

  ghost predicate ParentsOk(tree: seq<int>, root: nat, edges: seq<PackedEdge>) {
    forall k: nat {:trigger ParentOk(tree, root, edges, k)} :: k < |tree| ==> ParentOk(tree, root, edges, k)
  }

  // -------------------------------------------- passing the checks makes a BFS tree

  ghost function DepthMap(tree: seq<int>, level: seq<int>): map<nat, nat>
    requires |level| == |tree| && forall k :: 0 <= k < |tree| && tree[k] >= 0 ==> level[k] >= 0
  {
    map k: nat | k < |tree| && tree[k] >= 0 :: level[k]
  }

  lemma InTreeHasLevel(tree: seq<int>, root: nat, level: seq<int>, k: nat)
    requires Levels(tree, root, level) && k < |tree| && tree[root] >= 0
    ensures tree[k] >= 0 <==> level[k] >= 0
  {
    assert LevelAt(tree, root, level, k);
  }

  lemma CheckedIsBfsTree(tree: seq<int>, root: nat, level: seq<int>, edges: seq<PackedEdge>)
    requires Parents(tree) && root < |tree| && tree[root] == root && Levels(tree, root, level)
    requires EdgesOk(tree, level, edges) && ParentsOk(tree, root, edges)
    ensures NoneCrosses(edges, |tree|) && BfsTree(GraphOf(|tree|, edges), root, tree)
  {
    var g := GraphOf(|tree|, edges);
    forall k: nat | k < |edges|
      ensures edges[k].v0 < 0 || edges[k].v1 < 0 || (edges[k].v0 < |tree| <==> edges[k].v1 < |tree|)
    {
      assert EdgeOk(tree, level, edges[k]);
    }
    forall k: nat | k < |tree|
      ensures tree[k] >= 0 <==> level[k] >= 0
    {
      InTreeHasLevel(tree, root, level, k);
    }
    var depth := DepthMap(tree, level);
    forall v | v in depth
      ensures DepthAt(g, root, depth, tree, v)
    {
      assert LevelAt(tree, root, level, v) && ParentOk(tree, root, edges, v);
      if v != root {
        var i :| 0 <= i < |edges| && Shows(tree, edges[i], v);
        assert Joins(edges[i], tree[v], v);
        ListedIs(|tree|, edges, tree[v], v);
      }
    }
    forall u | u in depth
      ensures ClosedAt(g, depth, u)
    {
      forall v: nat | Listed(g, u, v)
        ensures v in depth && depth[v] <= depth[u] + 1
      {
        ListedIs(|tree|, edges, u, v);
        var k :| 0 <= k < |edges| && Joins(edges[k], u, v);
        assert EdgeOk(tree, level, edges[k]);
      }
    }
    DepthTreeIsBfsTree(g, root, depth, tree);
  }

  // ------------------------------------------------- every BFS tree passes the checks

  lemma ExtendWalk(g: Graph, s: nat, u: nat, v: nat, k: nat)
    requires WalkOf(g, s, u, k) && Listed(g, u, v)
    ensures WalkOf(g, s, v, k + 1)
  {
    var p :| IsWalk(g, p, s, u) && |p| == k + 1;
    var q := p + [v];
    forall i: nat | i + 1 < |q|
      ensures StepAt(g, q, i)
    {
      assert i + 1 < |p| ==> StepAt(g, p, i);
    }
    assert IsWalk(g, q, s, v);
  }

  lemma NoWalk(g: Graph, s: nat)
    ensures WalkOf(g, s, s, 0) && Distance(g, s, s, 0)
  {
    var p := [s];
    assert IsWalk(g, p, s, s);
  }

  lemma {:induction false} Shortest(g: Graph, s: nat, v: nat, k: nat) returns (d: nat)
    requires WalkOf(g, s, v, k)
    ensures Distance(g, s, v, d) && d <= k
    decreases k
  {
    if j: nat :| j < k && WalkOf(g, s, v, j) {
      d := Shortest(g, s, v, j);
    } else {
      d := k;
    }
  }

  lemma DistanceOfReachable(g: Graph, s: nat, v: nat) returns (d: nat)
    requires Reachable(g, s, v)
    ensures Distance(g, s, v, d)
  {
    var k: nat :| WalkOf(g, s, v, k);
    d := Shortest(g, s, v, k);
  }

  /** The distance, or -1. */
  ghost function DistanceOr(g: Graph, s: nat, v: nat): int {
    if d: nat :| Distance(g, s, v, d) then d else -1
  }

  lemma DistanceOrIs(g: Graph, s: nat, v: nat)
    ensures Reachable(g, s, v) <==> DistanceOr(g, s, v) >= 0
    ensures Reachable(g, s, v) ==> Distance(g, s, v, DistanceOr(g, s, v))
    ensures forall d: nat :: Distance(g, s, v, d) ==> d == DistanceOr(g, s, v)
  {
    if Reachable(g, s, v) {
      var d := DistanceOfReachable(g, s, v);
    }
  }

  ghost function DistanceLevels(g: Graph, s: nat, n: nat): seq<int> {
    seq(n, v requires 0 <= v < n => DistanceOr(g, s, v))
  }

  /** What a BFS tree says of one vertex, in terms of distances. */
  lemma TreeVertex(g: Graph, s: nat, tree: seq<int>, v: nat)
    requires BfsTree(g, s, tree) && v < g.n && s < g.n
    ensures tree[v] >= 0 <==> Reachable(g, s, v)
    ensures tree[v] >= 0 && v != s ==>
      Listed(g, tree[v], v) && DistanceOr(g, s, tree[v]) >= 0 && DistanceOr(g, s, v) == DistanceOr(g, s, tree[v]) + 1
    ensures DistanceOr(g, s, s) == 0 && Reachable(g, s, s) && tree[s] == s
  {
    NoWalk(g, s);
    DistanceOrIs(g, s, s);
    DistanceOrIs(g, s, v);
    assert if Reachable(g, s, v) then ShortestParent(g, s, tree[v], v) else tree[v] == -1;
    if Reachable(g, s, v) && v != s {
      DistanceOrIs(g, s, tree[v]);
    }
    assert ShortestParent(g, s, tree[s], s);
  }

  lemma BfsTreeLevels(g: Graph, s: nat, tree: seq<int>)
    requires BfsTree(g, s, tree) && Parents(tree) && s < g.n
    ensures Levels(tree, s, DistanceLevels(g, s, g.n))
  {
    var level := DistanceLevels(g, s, g.n);
    forall k: nat | k < g.n
      ensures LevelAt(tree, s, level, k)
    {
      TreeVertex(g, s, tree, k);
      DistanceOrIs(g, s, k);
      if k != s && tree[k] >= 0 {
        var p: nat := tree[k];
        TreeVertex(g, s, tree, p);
        DistanceOrIs(g, s, p);
      }
    }
  }

  lemma {:induction false} LevelsUnique(tree: seq<int>, root: nat, a: seq<int>, b: seq<int>, k: nat)
    requires Parents(tree) && Levels(tree, root, a) && Levels(tree, root, b) && k < |tree|
    ensures a[k] == b[k]
    decreases a[k] + 1
  {
    assert LevelAt(tree, root, a, k) && LevelAt(tree, root, b, k);
    if k != root && tree[k] >= 0 {
      LevelsUnique(tree, root, a, b, tree[k]);
    }
  }

  lemma NextToReachable(g: Graph, s: nat, u: nat, v: nat)
    requires Reachable(g, s, u) && Listed(g, u, v)
    ensures Reachable(g, s, v) && DistanceOr(g, s, v) <= DistanceOr(g, s, u) + 1
  {
    DistanceOrIs(g, s, u);
    ExtendWalk(g, s, u, v, DistanceOr(g, s, u));
    DistanceOrIs(g, s, v);
  }

  lemma BfsTreeEdge(tree: seq<int>, root: nat, edges: seq<PackedEdge>, i: nat)
    requires Parents(tree) && root < |tree| && NoneCrosses(edges, |tree|) && i < |edges|
    requires BfsTree(GraphOf(|tree|, edges), root, tree)
    ensures EdgeOk(tree, DistanceLevels(GraphOf(|tree|, edges), root, |tree|), edges[i])
  {
    var g, e := GraphOf(|tree|, edges), edges[i];
    if 0 <= e.v0 < |tree| && e.v1 >= 0 {
      assert Joins(e, e.v0, e.v1);
      ListedIs(|tree|, edges, e.v0, e.v1);
      TreeVertex(g, root, tree, e.v0);
      TreeVertex(g, root, tree, e.v1);
      if tree[e.v0] >= 0 {
        NextToReachable(g, root, e.v0, e.v1);
      }
      if tree[e.v1] >= 0 {
        NextToReachable(g, root, e.v1, e.v0);
      }
    }
  }

  lemma BfsTreeParent(tree: seq<int>, root: nat, edges: seq<PackedEdge>, k: nat)
    requires Parents(tree) && root < |tree| && NoneCrosses(edges, |tree|) && k < |tree|
    requires BfsTree(GraphOf(|tree|, edges), root, tree)
    ensures ParentOk(tree, root, edges, k)
  {
    var g := GraphOf(|tree|, edges);
    TreeVertex(g, root, tree, k);
    if k != root && tree[k] >= 0 {
      var p: nat := tree[k];
      ListedIs(|tree|, edges, p, k);
      var i :| 0 <= i < |edges| && Joins(edges[i], p, k);
      TreeVertex(g, root, tree, p);
      DistanceOrIs(g, root, p);
      assert Shows(tree, edges[i], k);
    }
  }

  lemma BfsTreeIsChecked(tree: seq<int>, root: nat, edges: seq<PackedEdge>)
    requires Parents(tree) && root < |tree| && NoneCrosses(edges, |tree|)
    requires BfsTree(GraphOf(|tree|, edges), root, tree)
    ensures tree[root] == root && !NoLevels(tree, root) && ParentsOk(tree, root, edges)
    ensures forall level :: Levels(tree, root, level) ==> EdgesOk(tree, level, edges)
  {
    var g := GraphOf(|tree|, edges);
    var dist := DistanceLevels(g, root, |tree|);
    TreeVertex(g, root, tree, root);
    BfsTreeLevels(g, root, tree);
    forall k: nat | k < |tree|
      ensures ParentOk(tree, root, edges, k)
    {
      BfsTreeParent(tree, root, edges, k);
    }
    forall level | Levels(tree, root, level)
      ensures EdgesOk(tree, level, edges)
    {
      forall k: nat | k < |tree|
        ensures level[k] == dist[k]
      {
        LevelsUnique(tree, root, level, dist, k);
      }
      assert level == dist;
      forall i: nat | i < |edges|
        ensures EdgeOk(tree, level, edges[i])
      {
        BfsTreeEdge(tree, root, edges, i);
      }
    }
  }

  // -------------------------------------------------------------------- the checker

  datatype Verdict = Accepted(traversed: nat) | Failed(error: int) | Aborted

  ghost predicate SeenSoFar(tree: seq<int>, edges: seq<PackedEdge>, seen: seq<int>) {
    |seen| == |tree| && forall k: nat :: k < |tree| ==> (seen[k] != 0 <==> SeenIn(tree, edges, k))
  }

  lemma OneMoreSeen(tree: seq<int>, edges: seq<PackedEdge>, i: nat, k: nat)
    requires i < |edges|
    ensures SeenIn(tree, edges[..i + 1], k) <==> SeenIn(tree, edges[..i], k) || Shows(tree, edges[i], k)
  {
    var before, after := edges[..i], edges[..i + 1];
    if x :| 0 <= x < |before| && Shows(tree, before[x], k) {
      assert Shows(tree, after[x], k);
    }
    if Shows(tree, edges[i], k) {
      assert Shows(tree, after[i], k);
    }
    if x :| 0 <= x < |after| && Shows(tree, after[x], k) {
      assert x < i ==> Shows(tree, before[x], k);
    }
  }

  lemma SeenUpdate(tree: seq<int>, edges: seq<PackedEdge>, i: nat, seen: seq<int>, seen': seq<int>)
    requires i < |edges| && SeenSoFar(tree, edges[..i], seen) && |seen'| == |tree|
    requires forall k: nat :: k < |tree| ==> (seen'[k] != 0 <==> seen[k] != 0 || Shows(tree, edges[i], k))
    ensures SeenSoFar(tree, edges[..i + 1], seen')
  {
    forall k: nat | k < |tree|
      ensures seen'[k] != 0 <==> SeenIn(tree, edges[..i + 1], k)
    {
      OneMoreSeen(tree, edges, i, k);
    }
  }

  lemma InsideNext(tree: seq<int>, edges: seq<PackedEdge>, i: nat)
    requires i < |edges|
    ensures Inside(tree, edges[..i + 1]) == Inside(tree, edges[..i]) + if Traversed(tree, edges[i]) then 1 else 0
  {
    assert edges[..i + 1][..i] == edges[..i];
  }

  /** Marks the tree edges that e shows. */
  method MarkSeen(tree: seq<int>, e: PackedEdge, seen: array<int>)
    requires seen.Length == |tree| && Traversed(tree, e)
    modifies seen
    ensures forall k: nat :: k < |tree| ==> (seen[k] != 0 <==> old(seen[k]) != 0 || Shows(tree, e, k))
  {
    if e.v0 != e.v1 {
      if tree[e.v0] == e.v1 {
        seen[e.v0] := 1;
      }
      if tree[e.v1] == e.v0 {
        seen[e.v1] := 1;
      }
    }
  }

  /** The code of the error that edge e shows, 0 if none. */
  function EdgeCode(tree: seq<int>, level: seq<int>, e: PackedEdge): (code: int)
    requires |level| == |tree|
    ensures code == 0 <==> EdgeOk(tree, level, e)
    ensures code == 0 || -14 <= code <= -10
  {
    if e.v0 < 0 || e.v1 < 0 then 0
    else if e.v0 >= |tree| || e.v1 >= |tree| then (if e.v1 < |tree| then -10 else if e.v0 < |tree| then -11 else 0)
    else if tree[e.v0] >= 0 && tree[e.v1] < 0 then -12
    else if tree[e.v1] >= 0 && tree[e.v0] < 0 then -13
    else if tree[e.v0] >= 0 && !(-1 <= level[e.v0] - level[e.v1] <= 1) then -14
    else 0
  }

  /** An edge that leads across max_bfsvtx. */
  predicate Crosses(e: PackedEdge, n: nat) {
    e.v0 >= 0 && e.v1 >= 0 && !(e.v0 < n <==> e.v1 < n)
  }

  /** The code after these edges, in order: the first error stands, unless an edge across max_bfsvtx overwrites it. */
  function Code(tree: seq<int>, level: seq<int>, edges: seq<PackedEdge>): int
    requires |level| == |tree|
  {
    if edges == [] then 0
    else
      var before, e := Code(tree, level, edges[..|edges| - 1]), edges[|edges| - 1];
      if before == 0 || Crosses(e, |tree|) then EdgeCode(tree, level, e) else before
  }

  lemma {:induction false} CodeIs(tree: seq<int>, level: seq<int>, edges: seq<PackedEdge>)
    requires |level| == |tree|
    ensures Code(tree, level, edges) == 0 <==> EdgesOk(tree, level, edges)
  {
    if edges != [] {
      var m := |edges| - 1;
      CodeIs(tree, level, edges[..m]);
      assert forall i :: 0 <= i < m ==> edges[..m][i] == edges[i];
    }
  }

  /** The last edge across max_bfsvtx decides the code, or else the first edge that is not in order. */
  ghost predicate Decides(tree: seq<int>, level: seq<int>, edges: seq<PackedEdge>, i: nat) {
    && i < |edges| && !EdgeOk(tree, level, edges[i])
    && if Crosses(edges[i], |tree|) then forall j :: i < j < |edges| ==> !Crosses(edges[j], |tree|)
       else && (forall j :: 0 <= j < i ==> EdgeOk(tree, level, edges[j]))
            && (forall j :: 0 <= j < |edges| ==> !Crosses(edges[j], |tree|))
  }

  lemma {:induction false} CodeDecided(tree: seq<int>, level: seq<int>, edges: seq<PackedEdge>, i: nat)
    requires |level| == |tree| && Decides(tree, level, edges, i)
    ensures Code(tree, level, edges) == EdgeCode(tree, level, edges[i]) && -14 <= Code(tree, level, edges) <= -10
  {
    var m := |edges| - 1;
    if i < m {
      assert edges[..m][i] == edges[i];
      CodeDecided(tree, level, edges[..m], i);
    } else if !Crosses(edges[m], |tree|) {
      CodeIs(tree, level, edges[..m]);
    }
  }

  lemma {:induction false} SomeDecides(tree: seq<int>, level: seq<int>, edges: seq<PackedEdge>) returns (i: nat)
    requires |level| == |tree| && !EdgesOk(tree, level, edges)
    ensures Decides(tree, level, edges, i)
  {
    var m := |edges| - 1;
    if Crosses(edges[m], |tree|) || EdgesOk(tree, level, edges[..m]) {
      assert forall j :: 0 <= j < m ==> edges[..m][j] == edges[j];
      i := m;
    } else {
      i := SomeDecides(tree, level, edges[..m]);
    }
  }

  lemma CodeNext(tree: seq<int>, level: seq<int>, edges: seq<PackedEdge>, i: nat)
    requires |level| == |tree| && i < |edges|
    ensures Code(tree, level, edges[..i + 1])
      == if Code(tree, level, edges[..i]) == 0 || Crosses(edges[i], |tree|) then EdgeCode(tree, level, edges[i]) else Code(tree, level, edges[..i])
  {
    assert edges[..i + 1][..i] == edges[..i];
  }

  /** The loop over the edges; after an error it only looks for edges across max_bfsvtx. */
  method CheckEdges(tree: seq<int>, level: array<int>, edges: seq<PackedEdge>, seen: array<int>)
    returns (err: int, traversed: nat)
    requires level.Length == |tree| && seen.Length == |tree| && seen != level
    requires forall k :: 0 <= k < |tree| ==> seen[k] == 0
    modifies seen
    ensures err == Code(tree, level[..], edges) && (err == 0 <==> EdgesOk(tree, level[..], edges))
    ensures err == 0 ==> SeenSoFar(tree, edges, seen[..]) && traversed == Inside(tree, edges)
  {
    traversed := 0;
    err := 0;
    assert SeenSoFar(tree, edges[..0], seen[..]);
    for i := 0 to |edges|
      invariant err == Code(tree, level[..], edges[..i])
      invariant err == 0 ==> traversed == Inside(tree, edges[..i]) && SeenSoFar(tree, edges[..i], seen[..])
    {
      var e := edges[i];
      InsideNext(tree, edges, i);
      CodeNext(tree, level[..], edges, i);
      ghost var before := seen[..];
      if e.v0 >= 0 && e.v1 >= 0 && (e.v0 >= |tree| || e.v1 >= |tree|) {
        if e.v1 < |tree| {
          err := -10;
        } else if e.v0 < |tree| {
          err := -11;
        }
      } else if err == 0 && e.v0 >= 0 && e.v1 >= 0 {
        err := if tree[e.v0] >= 0 && tree[e.v1] < 0 then -12 else if tree[e.v1] >= 0 && tree[e.v0] < 0 then -13 else 0;
        if err == 0 && tree[e.v0] >= 0 {
          traversed := traversed + 1;
          MarkSeen(tree, e, seen);
          var lvldiff := level[e.v0] - level[e.v1];
          if lvldiff > 1 || lvldiff < -1 {
            err := -14;
          }
        }
      }
      if err == 0 {
        SeenUpdate(tree, edges, i, before, seen[..]);
      }
    }
    assert edges[..|edges|] == edges;
    CodeIs(tree, level[..], edges);
  }

  /** The first vertex whose parent is not in order. */
  ghost predicate FirstBad(tree: seq<int>, root: nat, edges: seq<PackedEdge>, k: nat) {
    && k < |tree| && !ParentOk(tree, root, edges, k)
    && forall x: nat {:trigger ParentOk(tree, root, edges, x)} :: x < k ==> ParentOk(tree, root, edges, x)
  }

  /** The last loop: every tree edge was seen, and only the root is its own parent. */
  method CheckParents(tree: seq<int>, root: nat, ghost edges: seq<PackedEdge>, seen: array<int>) returns (err: int)
    requires seen.Length == |tree| && SeenSoFar(tree, edges, seen[..])
    ensures err == 0 <==> ParentsOk(tree, root, edges)
    ensures err != 0 ==> exists k: nat :: FirstBad(tree, root, edges, k) && err == if tree[k] == k then -16 else -15
  {
    err := 0;
    for k := 0 to |tree|
      invariant err == 0 && forall x: nat {:trigger ParentOk(tree, root, edges, x)} :: x < k ==> ParentOk(tree, root, edges, x)
    {
      if k != root {
        if tree[k] >= 0 && seen[k] == 0 {
          err := -15;
        }
        if tree[k] == k {
          err := -16;
        }
        if err != 0 {
          assert !ParentOk(tree, root, edges, k);
          assert FirstBad(tree, root, edges, k);
          return;
        }
      }
      assert ParentOk(tree, root, edges, k);
    }
  }

  lemma OnlyLevels(tree: seq<int>, root: nat, a: seq<int>, b: seq<int>)
    requires Parents(tree) && Levels(tree, root, a) && Levels(tree, root, b)
    ensures a == b
  {
    forall k: nat | k < |tree|
      ensures a[k] == b[k]
    {
      LevelsUnique(tree, root, a, b, k);
    }
  }

  /** With these levels, r is the error of the deciding edge, or else of the first vertex that is not in order. */
  ghost predicate Explained(tree: seq<int>, root: nat, level: seq<int>, edges: seq<PackedEdge>, r: Verdict)
    requires |level| == |tree|
  {
    && (forall i: nat :: Decides(tree, level, edges, i) ==> r == Failed(EdgeCode(tree, level, edges[i])))
    && (forall k: nat :: EdgesOk(tree, level, edges) && FirstBad(tree, root, edges, k) ==>
          r == Failed(if tree[k] == k then -16 else -15))
  }

  lemma EdgeExplains(tree: seq<int>, root: nat, level: seq<int>, edges: seq<PackedEdge>)
    requires |level| == |tree| && !EdgesOk(tree, level, edges)
    ensures -14 <= Code(tree, level, edges) <= -10
    ensures Explained(tree, root, level, edges, Failed(Code(tree, level, edges)))
  {
    var d := SomeDecides(tree, level, edges);
    CodeDecided(tree, level, edges, d);
    forall i: nat | Decides(tree, level, edges, i)
      ensures Code(tree, level, edges) == EdgeCode(tree, level, edges[i])
    {
      CodeDecided(tree, level, edges, i);
    }
  }

  lemma ParentExplains(tree: seq<int>, root: nat, level: seq<int>, edges: seq<PackedEdge>, k: nat)
    requires |level| == |tree| && EdgesOk(tree, level, edges) && FirstBad(tree, root, edges, k)
    ensures Explained(tree, root, level, edges, Failed(if tree[k] == k then -16 else -15))
  {
    forall x: nat | FirstBad(tree, root, edges, x)
      ensures x == k
    {
      assert x < k ==> ParentOk(tree, root, edges, x);
      assert k < x ==> ParentOk(tree, root, edges, k);
    }
  }

  lemma NothingToExplain(tree: seq<int>, root: nat, level: seq<int>, edges: seq<PackedEdge>, r: Verdict)
    requires |level| == |tree| && EdgesOk(tree, level, edges) && ParentsOk(tree, root, edges)
    ensures Explained(tree, root, level, edges, r)
  {
  }

  /** What verify_bfs_tree does after compute_levels. */
  method CheckLevelled(tree: seq<int>, root: nat, level: array<int>, edges: seq<PackedEdge>) returns (r: Verdict)
    requires level.Length == |tree|
    ensures r.Accepted? <==> EdgesOk(tree, level[..], edges) && ParentsOk(tree, root, edges)
    ensures r.Accepted? ==> r.traversed == Inside(tree, edges)
    ensures r.Accepted? || (r.Failed? && -16 <= r.error <= -10)
    ensures Explained(tree, root, level[..], edges, r)
  {
    var seen := new int[|tree|](k => 0);
    var err, traversed := CheckEdges(tree, level, edges, seen);
    if err != 0 {
      EdgeExplains(tree, root, level[..], edges);
      return Failed(err);
    }
    err := CheckParents(tree, root, edges, seen);
    if err != 0 {
      ghost var k: nat :| FirstBad(tree, root, edges, k) && err == if tree[k] == k then -16 else -15;
      ParentExplains(tree, root, level[..], edges, k);
      return Failed(err);
    }
    r := Accepted(traversed);
    NothingToExplain(tree, root, level[..], edges, r);
  }

  /** The error of compute_levels. */
  ghost predicate LevelError(tree: seq<int>, root: nat, r: Verdict) {
    || (r == Failed(-1) && Faulty(tree, root, Cycle))
    || (r == Failed(-2) && Faulty(tree, root, OffTheEnd))
    || (r == Aborted && Faulty(tree, root, SelfParent))
  }

  /**
    verify_bfs_tree accepts exactly the breadth-first trees of the root's component, if no edge
    leads out of the vertices up to max_bfsvtx, and then returns the number of listed edges
    inside the tree. Otherwise the error says what was found: a root that is not its own parent, a
    climb that does not end at the root, an edge, or a vertex.
  */
  method VerifyBfsTree(tree: seq<int>, maxBfsvtx: nat, root: nat, edges: seq<PackedEdge>) returns (r: Verdict)
    requires |tree| == maxBfsvtx + 1 && Parents(tree)
    ensures r.Accepted? <==> root <= maxBfsvtx && NoneCrosses(edges, |tree|) && BfsTree(GraphOf(|tree|, edges), root, tree)
    ensures r.Accepted? ==> r.traversed == Inside(tree, edges)
    ensures r.Failed? ==> r.error < 0
    ensures r == Failed(-999) <==> root > maxBfsvtx || tree[root] != root
    ensures root <= maxBfsvtx && tree[root] == root ==>
      if NoLevels(tree, root) then LevelError(tree, root, r)
      else forall level :: Levels(tree, root, level) ==> Explained(tree, root, level, edges, r)
  {
    ghost var good := root <= maxBfsvtx && NoneCrosses(edges, |tree|) && BfsTree(GraphOf(|tree|, edges), root, tree);
    if good {
      BfsTreeIsChecked(tree, root, edges);
    }
    if root > maxBfsvtx || tree[root] != root {
      return Failed(-999);
    }
    var level, outcome := ComputeLevels(tree, root);
    match outcome {
      case Found =>
      case Cycle => return Failed(-1);
      case OffTheEnd => return Failed(-2);
      case SelfParent => return Aborted;
    }
    r := CheckLevelled(tree, root, level, edges);
    forall other | Levels(tree, root, other)
      ensures other == level[..]
    {
      OnlyLevels(tree, root, other, level[..]);
    }
    if r.Accepted? {
      CheckedIsBfsTree(tree, root, level[..], edges);
    }
  }
}
