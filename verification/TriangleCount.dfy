/** Ordered triangle counting and its checker (trident-workloads/gapbs/src/tc.cc). */
module TriangleCount {
  import opened Graphs
  import opened Frontier
  import opened Permutations
  import opened TriangleSets
  import opened Sorting

  // ------------------------------------------------------------------ OrderedCount

  /** The loops have passed t: u, v = outs[u][j] and w = outs[v][k] are next. */
  ghost predicate Passed(g: Graph, t: Triple, u: nat, j: nat, k: nat) {
    || t.0 < u
    || (t.0 == u && u < |g.outs| && j <= |g.outs[u]| && t.1 in g.outs[u][..j])
    || (t.0 == u && u < |g.outs| && j < |g.outs[u]| && t.1 == g.outs[u][j] && t.1 < |g.outs| && k <= |g.outs[t.1]| && t.2 in g.outs[t.1][..k])
  }

  ghost function Found(g: Graph, u: nat, j: nat, k: nat): set<Triple> {
    set t | t in Triangles(g) && Passed(g, t, u, j, k)
  }

  /** One more w: the count grows exactly if (u, v, w) is a triangle. */
  lemma NextW(g: Graph, u: nat, j: nat, k: nat)
    requires Simple(g) && u < g.n && j < |g.outs[u]| && g.outs[u][j] < g.n && k < |g.outs[g.outs[u][j]]|
    ensures var v := g.outs[u][j];
      var w := g.outs[v][k];
      |Found(g, u, j, k + 1)| == |Found(g, u, j, k)| + if (u, v, w) in Triangles(g) then 1 else 0
  {
    var v := g.outs[u][j];
    var w := g.outs[v][k];
    assert ListOk(g, u) && ListOk(g, v);
    assert v !in g.outs[u][..j];
    assert w !in g.outs[v][..k];
    assert g.outs[v][..k + 1] == g.outs[v][..k] + [w];
    var one: set<Triple> := if (u, v, w) in Triangles(g) then {(u, v, w)} else {};
    assert Found(g, u, j, k + 1) == Found(g, u, j, k) + one;
    assert (u, v, w) !in Found(g, u, j, k);
  }

  /** The rest of v's list, from k on, is too large to matter. */
  lemma NextV(g: Graph, u: nat, j: nat, k: nat)
    requires Simple(g) && u < g.n && j < |g.outs[u]| && g.outs[u][j] < g.n && k <= |g.outs[g.outs[u][j]]|
    requires k < |g.outs[g.outs[u][j]]| ==> g.outs[g.outs[u][j]][k] > g.outs[u][j]
    ensures Found(g, u, j + 1, 0) == Found(g, u, j, k)
  {
    var v := g.outs[u][j];
    assert ListOk(g, v);
    assert g.outs[u][..j + 1] == g.outs[u][..j] + [v];
    forall t | t in Triangles(g) && t.0 == u && t.1 == v
      ensures t.2 in g.outs[v][..k]
    {
      InCliques(g, t);
      var i :| 0 <= i < |g.outs[v]| && g.outs[v][i] == t.2;
      assert i < k;
    }
  }

  lemma NextU(g: Graph, u: nat, j: nat)
    requires Simple(g) && u < g.n && j <= |g.outs[u]| && (j < |g.outs[u]| ==> g.outs[u][j] > u)
    ensures Found(g, u + 1, 0, 0) == Found(g, u, j, 0)
  {
    assert ListOk(g, u);
    forall t | t in Triangles(g) && t.0 == u
      ensures t.1 in g.outs[u][..j]
    {
      InCliques(g, t);
      var i :| 0 <= i < |g.outs[u]| && g.outs[u][i] == t.1;
      assert i < j;
    }
  }

  lemma AllFound(g: Graph)
    requires Simple(g)
    ensures Found(g, 0, 0, 0) == {} && Found(g, g.n, 0, 0) == Triangles(g)
  {
  }

  /** Whether w is a neighbour of u, by moving the iterator forward; it never passes position j of v. */
  method Advance(g: Graph, u: nat, j: nat, w: nat, it0: nat) returns (it: nat, hit: bool)
    requires Simple(g) && u < g.n && j < |g.outs[u]| && w <= g.outs[u][j] && it0 <= j
    requires forall i :: 0 <= i < it0 ==> g.outs[u][i] < w
    ensures it0 <= it <= j && (forall i :: 0 <= i < it ==> g.outs[u][i] < w)
    ensures hit <==> w in g.outs[u]
  {
    it := it0;
    while g.outs[u][it] < w
      invariant it0 <= it <= j && forall i :: 0 <= i < it ==> g.outs[u][i] < w
      decreases j - it
    {
      it := it + 1;
    }
    hit := w == g.outs[u][it];
    assert ListOk(g, u);
    if w in g.outs[u] {
      var i :| 0 <= i < |g.outs[u]| && g.outs[u][i] == w;
      assert i >= it;
    }
  }

  /** The loop over the neighbours w of v = outs[u][j]. */
  method CountThird(g: Graph, u: nat, j: nat, total0: nat) returns (total: nat)
    requires Simple(g) && u < g.n && j < |g.outs[u]| && g.outs[u][j] < u && total0 == |Found(g, u, j, 0)|
    ensures total == |Found(g, u, j + 1, 0)|
  {
    var v := g.outs[u][j];
    total := total0;
    var it, k := 0, 0;
    assert ListOk(g, u) && ListOk(g, v) && Listed(g, u, v);
    while k < |g.outs[v]| && g.outs[v][k] <= v
      invariant k <= |g.outs[v]| && total == |Found(g, u, j, k)|
      invariant it <= j && forall i :: 0 <= i < it && k < |g.outs[v]| ==> g.outs[u][i] < g.outs[v][k]
    {
      var w := g.outs[v][k];
      var hit;
      it, hit := Advance(g, u, j, w, it);
      NextW(g, u, j, k);
      TriangleIs(g, u, v, w);
      if hit {
        total := total + 1;
      }
      k := k + 1;
    }
    NextV(g, u, j, k);
  }

  lemma TriangleIs(g: Graph, u: nat, v: nat, w: nat)
    requires Simple(g) && v < u && Listed(g, u, v) && Listed(g, v, w) && w <= v
    ensures (u, v, w) in Triangles(g) <==> Listed(g, u, w)
  {
    ListedFacts(g, v, w);
    InCliques(g, (u, v, w));
  }

  /** OrderedCount: the number of triangles. */
  method OrderedCount(g: Graph) returns (total: nat)
    requires Simple(g)
    ensures total == |Triangles(g)|
  {
    total := 0;
    AllFound(g);
    for u := 0 to g.n
      invariant total == |Found(g, u, 0, 0)|
    {
      assert ListOk(g, u);
      var j := 0;
      while j < |g.outs[u]| && g.outs[u][j] <= u
        invariant j <= |g.outs[u]| && total == |Found(g, u, j, 0)|
      {
        total := CountThird(g, u, j, total);
        j := j + 1;
      }
      NextU(g, u, j);
    }
  }

  // -------------------------------------------------------------------- TCVerifier

  /** x may still turn up: it lies at or beyond position i of a. */
  ghost predicate Ahead(a: seq<nat>, i: nat, x: nat) {
    exists p :: i <= p < |a| && a[p] == x
  }

  /** c has the common elements that are not ahead in both lists. */
  ghost predicate Merged(a: seq<nat>, b: seq<nat>, i: nat, j: nat, c: seq<nat>) {
    && Increasing(c) && (forall p :: 0 <= p < |c| && i < |a| ==> c[p] < a[i])
    && (forall x :: x in c ==> x in a && x in b)
    && forall x {:trigger Ahead(a, i, x), Ahead(b, j, x)} {:trigger x in c} :: x in a && x in b ==> x in c || (Ahead(a, i, x) && Ahead(b, j, x))
  }

  lemma SkipFirst(a: seq<nat>, b: seq<nat>, i: nat, j: nat, c: seq<nat>)
    requires Increasing(a) && Increasing(b) && i < |a| && j < |b| && a[i] < b[j] && Merged(a, b, i, j, c)
    ensures Merged(a, b, i + 1, j, c)
  {
    forall x | x in a && x in b
      ensures x in c || (Ahead(a, i + 1, x) && Ahead(b, j, x))
    {
      if x !in c {
        assert Ahead(a, i, x) && Ahead(b, j, x);
        var q :| j <= q < |b| && b[q] == x;
        assert b[j] <= x;
      }
    }
  }

  lemma SkipSecond(a: seq<nat>, b: seq<nat>, i: nat, j: nat, c: seq<nat>)
    requires Increasing(a) && Increasing(b) && i < |a| && j < |b| && b[j] < a[i] && Merged(a, b, i, j, c)
    ensures Merged(a, b, i, j + 1, c)
  {
    forall x | x in a && x in b
      ensures x in c || (Ahead(a, i, x) && Ahead(b, j + 1, x))
    {
      if x !in c {
        assert Ahead(a, i, x) && Ahead(b, j, x);
        var p :| i <= p < |a| && a[p] == x;
        assert a[i] <= x;
      }
    }
  }

  lemma TakeBoth(a: seq<nat>, b: seq<nat>, i: nat, j: nat, c: seq<nat>)
    requires Increasing(a) && Increasing(b) && i < |a| && j < |b| && a[i] == b[j] && Merged(a, b, i, j, c)
    ensures Merged(a, b, i + 1, j + 1, c + [a[i]])
  {
    var c' := c + [a[i]];
    forall x | x in a && x in b
      ensures x in c' || (Ahead(a, i + 1, x) && Ahead(b, j + 1, x))
    {
      if x !in c' {
        assert x !in c && x != a[i];
        assert Ahead(a, i, x) && Ahead(b, j, x);
      }
    }
  }

  /** std::set_intersection of two sorted lists. */
  method SetIntersection(a: seq<nat>, b: seq<nat>) returns (c: seq<nat>)
    requires Increasing(a) && Increasing(b)
    ensures Increasing(c) && forall x :: x in c <==> x in a && x in b
  {
    c := [];
    var i, j := 0, 0;
    assert Merged(a, b, i, j, c);
    while i < |a| && j < |b|
      invariant i <= |a| && j <= |b| && Merged(a, b, i, j, c)
    {
      if a[i] < b[j] {
        SkipFirst(a, b, i, j, c);
        i := i + 1;
      } else if b[j] < a[i] {
        SkipSecond(a, b, i, j, c);
        j := j + 1;
      } else {
        TakeBoth(a, b, i, j, c);
        c := c + [a[i]];
        i, j := i + 1, j + 1;
      }
    }
  }

  ghost function Counted(g: Graph, u: nat, j: nat): set<Triple> {
    set t | t in Cliques(g) && Passed(g, t, u, j, 0)
  }

  ghost function WithThird(u: nat, v: nat, c: seq<nat>): set<Triple> {
    set i | 0 <= i < |c| :: (u, v, c[i])
  }

  lemma {:induction false} WithThirdSize(u: nat, v: nat, c: seq<nat>)
    requires Increasing(c)
    ensures |WithThird(u, v, c)| == |c|
  {
    if c != [] {
      var m := |c| - 1;
      WithThirdSize(u, v, c[..m]);
      assert WithThird(u, v, c) == WithThird(u, v, c[..m]) + {(u, v, c[m])};
    }
  }

  lemma NextPair(g: Graph, u: nat, j: nat, c: seq<nat>)
    requires Simple(g) && u < g.n && j < |g.outs[u]| && g.outs[u][j] < g.n && Increasing(c)
    requires forall x :: x in c <==> x in g.outs[u] && x in g.outs[g.outs[u][j]]
    ensures |Counted(g, u, j + 1)| == |Counted(g, u, j)| + |c|
  {
    var v := g.outs[u][j];
    assert ListOk(g, u) && Listed(g, u, v);
    assert v !in g.outs[u][..j];
    assert g.outs[u][..j + 1] == g.outs[u][..j] + [v];
    WithThirdSize(u, v, c);
    forall t: Triple
      ensures t in Counted(g, u, j + 1) <==> t in Counted(g, u, j) || t in WithThird(u, v, c)
      ensures !(t in Counted(g, u, j) && t in WithThird(u, v, c))
    {
      InCliques(g, t);
    }
    SplitSize(Counted(g, u, j + 1), Counted(g, u, j), WithThird(u, v, c));
  }

  lemma NextRow(g: Graph, u: nat)
    requires Simple(g) && u < g.n
    ensures Counted(g, u + 1, 0) == Counted(g, u, |g.outs[u]|)
  {
    assert g.outs[u][..|g.outs[u]|] == g.outs[u];
    forall t | t in Cliques(g) && t.0 == u
      ensures t.1 in g.outs[u]
    {
      InCliques(g, t);
    }
  }

  /** TCVerifier's sum over all edges of the common neighbours of their ends. */
  method CommonNeighbours(g: Graph) returns (total: nat)
    requires Simple(g)
    ensures total == 6 * |Triangles(g)|
  {
    total := 0;
    assert Counted(g, 0, 0) == {};
    for u := 0 to g.n
      invariant total == |Counted(g, u, 0)|
    {
      for j := 0 to |g.outs[u]|
        invariant total == |Counted(g, u, j)|
      {
        assert ListOk(g, u);
        var v := g.outs[u][j];
        assert ListOk(g, v);
        var intersection := SetIntersection(g.outs[u], g.outs[v]);
        NextPair(g, u, j, intersection);
        total := total + |intersection|;
      }
      NextRow(g, u);
    }
    assert Counted(g, g.n, 0) == Cliques(g);
    SixTimes(g);
  }

  /** TCVerifier accepts exactly the number of triangles. */
  method TCVerifier(g: Graph, testTotal: nat) returns (ok: bool)
    requires Simple(g)
    ensures ok <==> testTotal == |Triangles(g)|
  {
    var total := CommonNeighbours(g);
    total := total / 6;
    ok := total == testTotal;
  }

  // --------------------------------------------------------------- RelabelByDegree

  datatype DegreeNode = DegreeNode(degree: nat, node: nat)

  /** std::greater on the pairs: by degree, then by vertex. */
  predicate AtLeast(a: DegreeNode, b: DegreeNode) {
    a.degree > b.degree || (a.degree == b.degree && a.node >= b.node)
  }

  ghost predicate Descending(s: seq<DegreeNode>) {
    forall i :: 0 < i < |s| ==> AtLeast(s[i - 1], s[i])
  }

  ghost predicate Ascending(s: seq<nat>) {
    forall i :: 0 < i < |s| ==> s[i - 1] <= s[i]
  }

  lemma {:induction false} DescendingPair(s: seq<DegreeNode>, i: nat, j: nat)
    requires Descending(s) && i < j < |s|
    ensures AtLeast(s[i], s[j])
  {
    if i < j - 1 {
      DescendingPair(s, i, j - 1);
    }
  }

  lemma {:induction false} AscendingPair(s: seq<nat>, i: nat, j: nat)
    requires Ascending(s) && i < j < |s|
    ensures s[i] <= s[j]
  {
    if i < j - 1 {
      AscendingPair(s, i, j - 1);
    }
  }

  /** std::sort on vertices. */
  method SortNodes(s: seq<nat>) returns (r: seq<nat>)
    ensures multiset(r) == multiset(s) && Ascending(r)
  {
    r := Sort(s, (a, b) => a <= b);
  }

  /** std::sort on the pairs, largest first. */
  method SortPairs(s: seq<DegreeNode>) returns (r: seq<DegreeNode>)
    ensures multiset(r) == multiset(s) && Descending(r)
  {
    r := Sort(s, (a, b) => AtLeast(a, b));
  }

  /** Sorting vertices that are all different gives a strictly increasing list. */
  lemma SortedDistinct(s: seq<nat>, r: seq<nat>)
    requires multiset(r) == multiset(s) && Ascending(r) && forall i, j :: 0 <= i < j < |s| ==> s[i] != s[j]
    ensures Increasing(r) && forall x :: x in r <==> x in s
  {
    forall x
      ensures x in r <==> x in s
    {
      assert x in r <==> x in multiset(r);
      assert x in s <==> x in multiset(s);
    }
    forall i, j | 0 <= i < j < |r|
      ensures r[i] < r[j]
    {
      AscendingPair(r, i, j);
      OneCopy(s, r[i]);
      if r[i] == r[j] {
        TwoCopies(r, i, j);
        assert false;
      }
    }
  }

  lemma {:induction false} OneCopy(s: seq<nat>, x: nat)
    requires forall i, j :: 0 <= i < j < |s| ==> s[i] != s[j]
    ensures multiset(s)[x] <= 1
  {
    if s != [] {
      var m := |s| - 1;
      OneCopy(s[..m], x);
      assert s == s[..m] + [s[m]];
      if x == s[m] {
        assert x !in s[..m];
        assert multiset(s[..m])[x] == 0;
      }
    }
  }

  ghost predicate PairFor(sorted: seq<DegreeNode>, u: nat) {
    exists k :: 0 <= k < |sorted| && sorted[k].node == u
  }

  ghost predicate PairOk(g: Graph, p: DegreeNode) {
    p.node < |g.outs| && p.degree == |g.outs[p.node]|
  }

  /** The pairs name every vertex once, with its degree. */
  ghost predicate NamesAll(g: Graph, sorted: seq<DegreeNode>) {
    && |sorted| == g.n && (forall k :: 0 <= k < g.n ==> PairOk(g, sorted[k]))
    && (forall i, j :: 0 <= i < j < g.n ==> sorted[i].node != sorted[j].node)
    && (forall u: nat {:trigger PairFor(sorted, u)} :: u < g.n ==> PairFor(sorted, u))
  }

  /** new_ids: the position of each vertex in the sorted list of pairs. */
  method NewIds(g: Graph) returns (ids: seq<nat>)
    requires |g.outs| == g.n
    ensures Permutation(ids, g.n)
    ensures forall u, v :: 0 <= u < g.n && 0 <= v < g.n && ids[u] < ids[v] ==> |g.outs[u]| >= |g.outs[v]|
  {
    var pairs := seq(g.n, n requires 0 <= n < |g.outs| => DegreeNode(|g.outs[n]|, n));
    var sorted := SortPairs(pairs);
    PairsOfNodes(g, pairs, sorted);
    var newIds := new nat[g.n];
    for n := 0 to g.n
      invariant forall k :: 0 <= k < n ==> newIds[sorted[k].node] == k
    {
      newIds[sorted[n].node] := n;
    }
    ids := newIds[..];
    forall u: nat | u < g.n
      ensures ids[u] < g.n && sorted[ids[u]].node == u
    {
      assert PairFor(sorted, u);
      var k :| 0 <= k < g.n && sorted[k].node == u;
      assert ids[sorted[k].node] == k;
    }
    IdsByDegree(g, sorted, ids);
  }

  lemma IdsByDegree(g: Graph, sorted: seq<DegreeNode>, ids: seq<nat>)
    requires |g.outs| == g.n && NamesAll(g, sorted) && Descending(sorted)
    requires |ids| == g.n && forall u: nat :: u < g.n ==> ids[u] < g.n && sorted[ids[u]].node == u
    ensures Permutation(ids, g.n)
    ensures forall u, v :: 0 <= u < g.n && 0 <= v < g.n && ids[u] < ids[v] ==> |g.outs[u]| >= |g.outs[v]|
  {
    forall u, v | 0 <= u < g.n && 0 <= v < g.n && ids[u] < ids[v]
      ensures |g.outs[u]| >= |g.outs[v]|
    {
      DescendingPair(sorted, ids[u], ids[v]);
      assert PairOk(g, sorted[ids[u]]) && PairOk(g, sorted[ids[v]]);
    }
  }

  lemma PairsOfNodes(g: Graph, pairs: seq<DegreeNode>, sorted: seq<DegreeNode>)
    requires |g.outs| == g.n && |pairs| == g.n && forall n :: 0 <= n < g.n ==> pairs[n] == DegreeNode(|g.outs[n]|, n)
    requires multiset(sorted) == multiset(pairs)
    ensures NamesAll(g, sorted)
  {
    assert |sorted| == |multiset(sorted)| == |multiset(pairs)| == |pairs|;
    forall k | 0 <= k < g.n
      ensures PairOk(g, sorted[k])
    {
      assert sorted[k] in multiset(sorted);
      assert sorted[k] in pairs;
    }
    forall i, j | 0 <= i < j < g.n
      ensures sorted[i].node != sorted[j].node
    {
      assert PairOk(g, sorted[i]) && PairOk(g, sorted[j]);
      OnePair(pairs, sorted[i]);
      DifferentPairs(sorted, i, j);
    }
    forall u: nat | u < g.n
      ensures PairFor(sorted, u)
    {
      assert pairs[u] in multiset(pairs);
      assert pairs[u] in sorted;
    }
  }

  lemma DifferentPairs(sorted: seq<DegreeNode>, i: nat, j: nat)
    requires i < j < |sorted| && multiset(sorted)[sorted[i]] <= 1
    ensures sorted[i] != sorted[j]
  {
    assert sorted == sorted[..i] + [sorted[i]] + sorted[i + 1..j] + [sorted[j]] + sorted[j + 1..];
  }

  lemma {:induction false} OnePair(s: seq<DegreeNode>, x: DegreeNode)
    requires forall i :: 0 <= i < |s| ==> s[i].node == i
    ensures multiset(s)[x] <= 1
  {
    if s != [] {
      var m := |s| - 1;
      OnePair(s[..m], x);
      assert s == s[..m] + [s[m]];
      if x == s[m] {
        assert x !in s[..m];
        assert multiset(s[..m])[x] == 0;
      }
    }
  }

  /** RelabelByDegree: the same graph under other names, the vertices of high degree first. */
  method RelabelByDegree(g: Graph) returns (h: Graph, ids: seq<nat>)
    requires Simple(g)
    ensures Renamed(g, h, ids)
    ensures forall u, v :: 0 <= u < g.n && 0 <= v < g.n && ids[u] < ids[v] ==> |g.outs[u]| >= |g.outs[v]|
  {
    var newIds := NewIds(g);
    ids := newIds;
    var lists := new seq<nat>[g.n](i => []);
    for u := 0 to g.n
      invariant ListsDone(g, newIds, lists[..], u)
    {
      assert ListOk(g, u);
      var mapped := seq(|g.outs[u]|, j requires 0 <= j < |g.outs[u]| && g.outs[u][j] < |newIds| => newIds[g.outs[u][j]]);
      var sorted := SortNodes(mapped);
      MappedList(g, newIds, u, mapped, sorted);
      OneMoreList(g, newIds, lists[..], u, sorted);
      lists[newIds[u]] := sorted;
    }
    h := Graph(g.n, lists[..], lists[..]);
    forall u: nat | u < g.n
      ensures RenamedList(g, h, ids, u)
    {
      assert ListDone(g, ids, h.outs, u);
    }
  }

  ghost predicate ListDone(g: Graph, ids: seq<nat>, lists: seq<seq<nat>>, u: nat) {
    u < |ids| && ids[u] < |lists| && SortedList(g, ids, lists[ids[u]], u)
  }

  ghost predicate ListsDone(g: Graph, ids: seq<nat>, lists: seq<seq<nat>>, u: nat) {
    forall x: nat {:trigger ListDone(g, ids, lists, x)} :: x < u ==> ListDone(g, ids, lists, x)
  }

  lemma OneMoreList(g: Graph, ids: seq<nat>, lists: seq<seq<nat>>, u: nat, sorted: seq<nat>)
    requires Permutation(ids, g.n) && |lists| == g.n && u < g.n
    requires ListsDone(g, ids, lists, u) && SortedList(g, ids, sorted, u)
    ensures ListsDone(g, ids, lists[ids[u] := sorted], u + 1)
  {
    var lists' := lists[ids[u] := sorted];
    Apart(ids);
    forall x: nat | x < u + 1
      ensures ListDone(g, ids, lists', x)
    {
      if x < u {
        assert ListDone(g, ids, lists, x);
        assert ids[x] != ids[u];
      }
    }
  }

  ghost predicate SortedList(g: Graph, ids: seq<nat>, list: seq<nat>, u: nat) {
    && u < |g.outs| && Increasing(list)
    && (forall v: nat :: v in g.outs[u] && v < |ids| ==> ids[v] in list)
    && (forall x: nat :: x in list ==> exists v: nat :: v < |ids| && v in g.outs[u] && ids[v] == x)
  }

  lemma MappedList(g: Graph, ids: seq<nat>, u: nat, mapped: seq<nat>, sorted: seq<nat>)
    requires Permutation(ids, g.n) && ListOk(g, u) && |mapped| == |g.outs[u]|
    requires forall j :: 0 <= j < |mapped| ==> mapped[j] == ids[g.outs[u][j]]
    requires multiset(sorted) == multiset(mapped) && Ascending(sorted)
    ensures SortedList(g, ids, sorted, u)
  {
    var list := g.outs[u];
    Apart(ids);
    forall i, j | 0 <= i < j < |mapped|
      ensures mapped[i] != mapped[j]
    {
      assert list[i] < list[j];
    }
    SortedDistinct(mapped, sorted);
    forall v: nat | v in list && v < |ids|
      ensures ids[v] in sorted
    {
      var j :| 0 <= j < |list| && list[j] == v;
      assert mapped[j] in mapped;
    }
    forall x: nat | x in sorted
      ensures exists v: nat :: v < |ids| && v in list && ids[v] == x
    {
      var j :| 0 <= j < |mapped| && mapped[j] == x;
      assert list[j] in list;
    }
  }

  /** Hybrid: whether or not it relabels, the number of triangles. */
  method Hybrid(g: Graph, worthRelabelling: bool) returns (total: nat)
    requires Simple(g)
    ensures total == |Triangles(g)|
  {
    if worthRelabelling {
      var h, ids := RelabelByDegree(g);
      RenamedSimple(g, h, ids);
      RenamedTriangles(g, h, ids);
      total := OrderedCount(h);
    } else {
      total := OrderedCount(g);
    }
  }
}
