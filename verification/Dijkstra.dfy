/** The serial oracle of SSSPVerifier (trident-workloads/gapbs/src/sssp.cc). */
module Dijkstra {
  import opened WeightedGraphs

  /** An entry (distance, vertex) of the priority queue. */
  datatype Entry = Entry(d: int, v: nat)

  /** The order of greater<WN>: by distance, then by vertex. */
  predicate AtMost(a: Entry, b: Entry) {
    a.d < b.d || (a.d == b.d && a.v <= b.v)
  }

  /** top and pop: a least entry, and the queue without one copy of it. */
  method PopLeast(mq: seq<Entry>) returns (top: Entry, rest: seq<Entry>)
    requires mq != []
    ensures multiset(mq) == multiset(rest) + multiset{top} && |rest| + 1 == |mq|
    ensures forall e :: e in mq ==> AtMost(top, e)
  {
    var k := 0;
    for i := 1 to |mq|
      invariant k < i && forall j :: 0 <= j < i ==> AtMost(mq[k], mq[j])
    {
      if AtMost(mq[i], mq[k]) {
        k := i;
      }
    }
    top, rest := mq[k], mq[..k] + mq[k + 1..];
    assert mq == mq[..k] + [mq[k]] + mq[k + 1..];
  }

  /** Every edge out of u is settled, or the queue still has u with its current label. */
  ghost predicate Handled(g: WGraph, dist: seq<int>, mq: multiset<Entry>, u: nat, j: nat) {
    Settled(g, dist, u, j) || (u < |dist| && Entry(dist[u], u) in mq)
  }

  ghost predicate QueueOk(g: WGraph, mq: multiset<Entry>) {
    forall e :: e in mq ==> e.v < g.n && 0 <= e.d < kDistInf
  }

  /** Edges of u from number done on may still be waiting, if u's label is td; all others are handled. */
  ghost predicate Searching(g: WGraph, s: nat, dist: seq<int>, mq: multiset<Entry>, u: nat, td: int, done: nat) {
    && Labels(g, s, dist) && QueueOk(g, mq)
    && forall x: nat, j: nat {:trigger Handled(g, dist, mq, x, j)} :: HasEdge(g, x, j) ==>
      Handled(g, dist, mq, x, j) || (x == u && u < |dist| && done <= j && dist[u] == td)
  }

  lemma RelaxKeeps(g: WGraph, s: nat, dist: seq<int>, mq: multiset<Entry>, u: nat, td: int, j: nat)
    requires WellWeighted(g) && Searching(g, s, dist, mq, u, td, j) && HasEdge(g, u, j)
    requires HasWalk(g, s, u, td) && 0 <= td < kDistInf
    ensures var e := g.outs[u][j];
      if td + e.w < dist[e.v] then
        Searching(g, s, dist[e.v := td + e.w], mq + multiset{Entry(td + e.w, e.v)}, u, td, j + 1)
        && Weight(dist[e.v := td + e.w]) < Weight(dist)
      else Searching(g, s, dist, mq, u, td, j + 1)
  {
    var e := g.outs[u][j];
    assert LabelAt(g, s, dist, e.v);
    var dist', mq' := dist, mq;
    if td + e.w < dist[e.v] {
      dist', mq' := dist[e.v := td + e.w], mq + multiset{Entry(td + e.w, e.v)};
      ExtendWalk(g, s, u, j, td);
      LowerLabel(g, s, dist, e.v, td + e.w);
      WeightDrops(dist, e.v, td + e.w);
    }
    forall x: nat, i: nat | HasEdge(g, x, i)
      ensures Handled(g, dist', mq', x, i) || (x == u && j + 1 <= i && dist'[u] == td)
    {
      assert Handled(g, dist, mq, x, i) || (x == u && j <= i && dist[u] == td);
      if x == e.v && dist' != dist {
        assert Entry(dist'[x], x) in mq';
      } else if Settled(g, dist, x, i) {
        assert Settled(g, dist', x, i);
      } else if Entry(dist[x], x) in mq {
        assert Entry(dist'[x], x) in mq';
      }
    }
  }

  /** The oracle computes the distances, with or without ties and repeated entries. */
  method Oracle(g: WGraph, source: nat) returns (dist: seq<int>)
    requires WellWeighted(g) && source < g.n
    ensures Distances(g, source, dist)
  {
    dist := seq(g.n, v => if v == source then 0 else kDistInf);
    var mq := [Entry(0, source)];
    StartLabels(g, source, dist);
    StartSearching(g, source, dist);
    while mq != []
      invariant Searching(g, source, dist, multiset(mq), 0, -1, 0)
      decreases Weight(dist), |mq|
    {
      var top, rest := PopLeast(mq);
      PopSearching(g, source, dist, multiset(mq), top, multiset(rest));
      mq := rest;
      if top.d == dist[top.v] {
        dist, mq := Relax(g, source, dist, mq, top);
      }
    }
    forall u: nat, j: nat | HasEdge(g, u, j)
      ensures Settled(g, dist, u, j)
    {
      assert LabelAt(g, source, dist, u);
      assert Handled(g, dist, multiset(mq), u, j);
    }
    SettledLabels(g, source, dist);
  }

  lemma StartSearching(g: WGraph, s: nat, dist: seq<int>)
    requires WellWeighted(g) && Labels(g, s, dist) && forall v: nat :: v < g.n && v != s ==> dist[v] == kDistInf
    ensures Searching(g, s, dist, multiset([Entry(0, s)]), 0, -1, 0)
  {
    var mq := multiset([Entry(0, s)]);
    forall x: nat, j: nat | HasEdge(g, x, j)
      ensures Handled(g, dist, mq, x, j)
    {
      assert LabelAt(g, s, dist, g.outs[x][j].v);
    }
  }

  lemma PopSearching(g: WGraph, s: nat, dist: seq<int>, mq: multiset<Entry>, top: Entry, rest: multiset<Entry>)
    requires WellWeighted(g) && Searching(g, s, dist, mq, 0, -1, 0) && mq == rest + multiset{top}
    ensures Searching(g, s, dist, rest, top.v, top.d, 0) && top.v < g.n
    ensures top.d == dist[top.v] ==> 0 <= top.d < kDistInf && HasWalk(g, s, top.v, top.d)
    ensures top.d != dist[top.v] ==> Searching(g, s, dist, rest, 0, -1, 0)
  {
    assert top in mq;
    assert LabelAt(g, s, dist, top.v);
    forall x: nat, j: nat | HasEdge(g, x, j)
      ensures Handled(g, dist, rest, x, j) || (x == top.v && dist[x] == top.d)
    {
      assert LabelAt(g, s, dist, x);
      assert Handled(g, dist, mq, x, j);
    }
  }

  /** The inner loop: relaxes every edge of the popped vertex. */
  method Relax(g: WGraph, source: nat, dist0: seq<int>, mq0: seq<Entry>, top: Entry)
    returns (dist: seq<int>, mq: seq<Entry>)
    requires WellWeighted(g) && top.v < g.n && 0 <= top.d < kDistInf && HasWalk(g, source, top.v, top.d)
    requires Searching(g, source, dist0, multiset(mq0), top.v, top.d, 0)
    ensures Searching(g, source, dist, multiset(mq), 0, -1, 0)
    ensures Weight(dist) < Weight(dist0) || (Weight(dist) == Weight(dist0) && mq == mq0)
  {
    dist, mq := dist0, mq0;
    for j := 0 to |g.outs[top.v]|
      invariant Searching(g, source, dist, multiset(mq), top.v, top.d, j)
      invariant Weight(dist) < Weight(dist0) || (Weight(dist) == Weight(dist0) && mq == mq0)
    {
      var e := g.outs[top.v][j];
      assert HasEdge(g, top.v, j);
      RelaxKeeps(g, source, dist, multiset(mq), top.v, top.d, j);
      if top.d + e.w < dist[e.v] {
        dist := dist[e.v := top.d + e.w];
        mq := mq + [Entry(top.d + e.w, e.v)];
      }
    }
    ghost var degree := |g.outs[top.v]|;
    forall x: nat, j: nat | HasEdge(g, x, j)
      ensures Handled(g, dist, multiset(mq), x, j)
    {
      assert Handled(g, dist, multiset(mq), x, j) || (x == top.v && degree <= j);
    }
  }

  /** SSSPVerifier accepts exactly the array of distances. */
  method SSSPVerifier(g: WGraph, source: nat, distToTest: seq<int>) returns (allOk: bool)
    requires WellWeighted(g) && source < g.n && |distToTest| == g.n
    ensures allOk <==> Distances(g, source, distToTest)
  {
    var oracle := Oracle(g, source);
    allOk := true;
    for v := 0 to g.n
      invariant allOk <==> distToTest[..v] == oracle[..v]
    {
      assert distToTest[..v + 1] == distToTest[..v] + [distToTest[v]] && oracle[..v + 1] == oracle[..v] + [oracle[v]];
      if distToTest[v] != oracle[v] {
        allOk := false;
      }
    }
    assert distToTest[..g.n] == distToTest && oracle[..g.n] == oracle;
    if Distances(g, source, distToTest) {
      DistancesUnique(g, source, distToTest, oracle);
    }
  }
}
