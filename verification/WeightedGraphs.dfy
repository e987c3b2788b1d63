/** Weighted graphs (WGraph of trident-workloads/gapbs/src/benchmark.h) and shortest-path distance. */
module WeightedGraphs {

  /** Half the largest 64-bit WeightT: the distance of a vertex nothing has reached. */
  const kDistInf: nat := 0x3fff_ffff_ffff_ffff

  datatype WNode = WNode(v: nat, w: nat)

  datatype WGraph = WGraph(n: nat, outs: seq<seq<WNode>>)

  ghost predicate HasEdge(g: WGraph, u: nat, j: nat) {
    u < |g.outs| && j < |g.outs[u]|
  }

  ghost predicate WellWeighted(g: WGraph) {
    |g.outs| == g.n && forall u: nat, j: nat {:trigger HasEdge(g, u, j)} :: HasEdge(g, u, j) ==> g.outs[u][j].v < g.n
  }

  /** A walk from the source, as the edges taken, last first: edge number j out of u. */
  datatype Walk = Here | Then(before: Walk, u: nat, j: nat)

  ghost predicate IsWalk(g: WGraph, s: nat, p: Walk, v: nat) {
    match p
    case Here => v == s
    case Then(q, u, j) => HasEdge(g, u, j) && g.outs[u][j].v == v && IsWalk(g, s, q, u)
  }

  ghost function Length(g: WGraph, p: Walk): nat {
    match p
    case Here => 0
    case Then(q, u, j) => Length(g, q) + if HasEdge(g, u, j) then g.outs[u][j].w else 0
  }

  ghost predicate HasWalk(g: WGraph, s: nat, v: nat, d: int) {
    exists p :: IsWalk(g, s, p, v) && Length(g, p) == d
  }

  /** d is the length of a shortest walk from s to v, or kDistInf when no walk is shorter than that. */
  ghost predicate DistanceIs(g: WGraph, s: nat, v: nat, d: int) {
    && (forall p :: IsWalk(g, s, p, v) ==> d <= Length(g, p) || d == kDistInf <= Length(g, p))
    && (d < kDistInf ==> HasWalk(g, s, v, d))
    && d <= kDistInf
  }

  ghost predicate Distances(g: WGraph, s: nat, dist: seq<int>) {
    |dist| == g.n && forall v: nat {:trigger DistanceIs(g, s, v, dist[v])} :: v < g.n ==> DistanceIs(g, s, v, dist[v])
  }

  lemma DistanceUnique(g: WGraph, s: nat, v: nat, d: int, d': int)
    requires DistanceIs(g, s, v, d) && DistanceIs(g, s, v, d')
    ensures d == d'
  {
    if d < kDistInf {
      var p :| IsWalk(g, s, p, v) && Length(g, p) == d;
    }
    if d' < kDistInf {
      var p :| IsWalk(g, s, p, v) && Length(g, p) == d';
    }
  }

  /** A vertex has the label 2^62 - 1 if and only if no walk to it is shorter, and its distance otherwise. */
  lemma InfinityIs(g: WGraph, s: nat, v: nat, d: int)
    requires DistanceIs(g, s, v, d)
    ensures d == 0x3fff_ffff_ffff_ffff <==> forall p :: IsWalk(g, s, p, v) ==> Length(g, p) >= 0x3fff_ffff_ffff_ffff
    ensures d != 0x3fff_ffff_ffff_ffff ==> HasWalk(g, s, v, d) && forall p :: IsWalk(g, s, p, v) ==> d <= Length(g, p)
  {
    if d < kDistInf {
      var p :| IsWalk(g, s, p, v) && Length(g, p) == d;
      assert IsWalk(g, s, p, v) && Length(g, p) < 0x3fff_ffff_ffff_ffff;
    } else {
      assert forall p :: IsWalk(g, s, p, v) ==> d <= Length(g, p);
    }
  }

  lemma DistancesUnique(g: WGraph, s: nat, dist: seq<int>, dist': seq<int>)
    requires Distances(g, s, dist) && Distances(g, s, dist')
    ensures dist == dist'
  {
    forall v: nat | v < g.n
      ensures dist[v] == dist'[v]
    {
      assert DistanceIs(g, s, v, dist[v]) && DistanceIs(g, s, v, dist'[v]);
      DistanceUnique(g, s, v, dist[v], dist'[v]);
    }
  }

  // --------------------------------------------------- labels on their way

  /** The label of v is kDistInf or the length of a walk. */
  ghost predicate LabelAt(g: WGraph, s: nat, dist: seq<int>, v: nat) {
    v < |dist| && 0 <= dist[v] <= kDistInf && (dist[v] < kDistInf ==> HasWalk(g, s, v, dist[v]))
  }

  ghost predicate Labels(g: WGraph, s: nat, dist: seq<int>) {
    && |dist| == g.n && s < g.n && dist[s] == 0
    && forall v: nat {:trigger LabelAt(g, s, dist, v)} :: v < g.n ==> LabelAt(g, s, dist, v)
  }

  /** Edge j of u cannot improve the label at its end. */
  ghost predicate Settled(g: WGraph, dist: seq<int>, u: nat, j: nat) {
    && HasEdge(g, u, j) && u < |dist| && g.outs[u][j].v < |dist|
    && dist[g.outs[u][j].v] <= dist[u] + g.outs[u][j].w
  }

  lemma ExtendWalk(g: WGraph, s: nat, u: nat, j: nat, d: int)
    requires HasWalk(g, s, u, d) && HasEdge(g, u, j)
    ensures HasWalk(g, s, g.outs[u][j].v, d + g.outs[u][j].w)
  {
    var p :| IsWalk(g, s, p, u) && Length(g, p) == d;
    var q := Then(p, u, j);
    assert IsWalk(g, s, q, g.outs[u][j].v) && Length(g, q) == d + g.outs[u][j].w;
  }

  lemma SourceLabel(g: WGraph, s: nat)
    ensures HasWalk(g, s, s, 0)
  {
    assert IsWalk(g, s, Here, s) && Length(g, Here) == 0;
  }

  lemma StartLabels(g: WGraph, s: nat, dist: seq<int>)
    requires |dist| == g.n && s < g.n && forall v: nat :: v < g.n ==> dist[v] == if v == s then 0 else kDistInf
    ensures Labels(g, s, dist)
  {
    SourceLabel(g, s);
    forall v: nat | v < g.n
      ensures LabelAt(g, s, dist, v)
    {
    }
  }

  lemma LowerLabel(g: WGraph, s: nat, dist: seq<int>, v: nat, d: int)
    requires Labels(g, s, dist) && v < g.n && 0 <= d < dist[v] && HasWalk(g, s, v, d)
    ensures Labels(g, s, dist[v := d])
  {
    var dist' := dist[v := d];
    assert LabelAt(g, s, dist, v);
    forall x: nat | x < g.n
      ensures LabelAt(g, s, dist', x)
    {
      assert LabelAt(g, s, dist, x);
    }
  }

  ghost predicate AllSettled(g: WGraph, dist: seq<int>) {
    forall u: nat, j: nat {:trigger Settled(g, dist, u, j)} {:trigger HasEdge(g, u, j)} :: HasEdge(g, u, j) ==> Settled(g, dist, u, j)
  }

  lemma {:induction false} SettledBelowWalk(g: WGraph, s: nat, dist: seq<int>, v: nat, p: Walk)
    requires WellWeighted(g) && Labels(g, s, dist) && AllSettled(g, dist) && IsWalk(g, s, p, v)
    ensures v < g.n && dist[v] <= Length(g, p)
    decreases p
  {
    match p
    case Here =>
    case Then(q, u, j) =>
      SettledBelowWalk(g, s, dist, u, q);
      assert Settled(g, dist, u, j);
  }

  /** Labels that no edge can improve are the distances. */
  lemma SettledLabels(g: WGraph, s: nat, dist: seq<int>)
    requires WellWeighted(g) && Labels(g, s, dist) && AllSettled(g, dist)
    ensures Distances(g, s, dist)
  {
    forall v: nat | v < g.n
      ensures DistanceIs(g, s, v, dist[v])
    {
      assert LabelAt(g, s, dist, v);
      forall p | IsWalk(g, s, p, v)
        ensures dist[v] <= Length(g, p)
      {
        SettledBelowWalk(g, s, dist, v, p);
      }
    }
  }

  // ------------------------------------------------------ sums for termination

  ghost function Sum(xs: seq<nat>): nat {
    if xs == [] then 0 else Sum(xs[..|xs| - 1]) + xs[|xs| - 1]
  }

  lemma {:induction false} SumUpdate(xs: seq<nat>, t: nat, x: nat)
    requires t < |xs|
    ensures Sum(xs[t := x]) == Sum(xs) - xs[t] + x
  {
    var m := |xs| - 1;
    if t == m {
      assert xs[t := x][..m] == xs[..m];
    } else {
      SumUpdate(xs[..m], t, x);
      assert xs[t := x][..m] == xs[..m][t := x];
    }
  }

  /** The sum of all labels. */
  ghost function Weight(dist: seq<int>): nat {
    Sum(seq(|dist|, v requires 0 <= v < |dist| => if dist[v] < 0 then 0 else dist[v]))
  }

  lemma WeightDrops(dist: seq<int>, v: nat, d: int)
    requires v < |dist| && 0 <= d < dist[v]
    ensures Weight(dist[v := d]) < Weight(dist)
  {
    var xs := seq(|dist|, x requires 0 <= x < |dist| => if dist[x] < 0 then 0 else dist[x]);
    var dist' := dist[v := d];
    var ys := seq(|dist'|, x requires 0 <= x < |dist'| => if dist'[x] < 0 then 0 else dist'[x]);
    assert ys == xs[v := d];
    SumUpdate(xs, v, d);
  }
}
