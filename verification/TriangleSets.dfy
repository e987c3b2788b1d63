/** Triangles of an undirected graph, and how the kernel of trident-workloads/gapbs/src/tc.cc counts them. */
module TriangleSets {
  import opened Graphs
  import opened Frontier
  import opened Permutations

  type Triple = (nat, nat, nat)

  ghost predicate Increasing(s: seq<nat>) {
    forall i, j :: 0 <= i < j < |s| ==> s[i] < s[j]
  }

  ghost predicate ListOk(g: Graph, u: nat) {
    u < |g.outs| && Increasing(g.outs[u]) && forall i :: 0 <= i < |g.outs[u]| ==> g.outs[u][i] < g.n && g.outs[u][i] != u
  }

  /** What the kernel asks of its input: undirected, sorted, without loops and repeated edges. */
  ghost predicate Simple(g: Graph) {
    && |g.outs| == g.n
    && (forall u: nat {:trigger ListOk(g, u)} :: u < g.n ==> ListOk(g, u))
    && (forall u: nat, v: nat :: Listed(g, u, v) ==> Listed(g, v, u))
  }

  lemma ListedFacts(g: Graph, u: nat, v: nat)
    requires Simple(g) && Listed(g, u, v)
    ensures u < g.n && v < g.n && u != v && Listed(g, v, u)
  {
    assert ListOk(g, u);
  }

  ghost predicate Clique(g: Graph, t: Triple) {
    Listed(g, t.0, t.1) && Listed(g, t.1, t.2) && Listed(g, t.0, t.2)
  }

  /** All ordered triples of pairwise adjacent vertices. */
  ghost function Cliques(g: Graph): set<Triple> {
    set u: nat, v: nat, w: nat | u < g.n && v < g.n && w < g.n && Clique(g, (u, v, w)) :: (u, v, w)
  }

  /** The triangles, each once: its vertices in decreasing order. */
  ghost function Triangles(g: Graph): set<Triple> {
    set t | t in Cliques(g) && t.0 > t.1 > t.2
  }

  lemma InCliques(g: Graph, t: Triple)
    requires Simple(g)
    ensures t in Cliques(g) <==> Clique(g, t)
  {
    if Clique(g, t) {
      ListedFacts(g, t.0, t.1);
      ListedFacts(g, t.1, t.2);
      assert t == (t.0, t.1, t.2);
    }
  }

  // ---------------------------------------------- six orders of every triangle

  ghost function Image(s: set<Triple>, f: Triple -> Triple): set<Triple> {
    set t | t in s :: f(t)
  }

  lemma {:induction false} ImageSize(s: set<Triple>, f: Triple -> Triple)
    requires forall t, t' :: t in s && t' in s && f(t) == f(t') ==> t == t'
    ensures |Image(s, f)| == |s|
    decreases |s|
  {
    if s != {} {
      var t :| t in s;
      var rest := s - {t};
      ImageSize(rest, f);
      assert Image(s, f) == Image(rest, f) + {f(t)};
    }
  }

  ghost function Order(k: nat, t: Triple): Triple {
    match k
    case 0 => t
    case 1 => (t.0, t.2, t.1)
    case 2 => (t.1, t.0, t.2)
    case 3 => (t.1, t.2, t.0)
    case 4 => (t.2, t.0, t.1)
    case _ => (t.2, t.1, t.0)
  }

  /** The triangles, each with its vertices in order k. */
  ghost function Ordered(g: Graph, k: nat): set<Triple> {
    Image(Triangles(g), t => Order(k, t))
  }

  lemma OrderedSize(g: Graph, k: nat)
    ensures |Ordered(g, k)| == |Triangles(g)|
  {
    ImageSize(Triangles(g), t => Order(k, t));
  }

  lemma OrderedClique(g: Graph, k: nat, t: Triple)
    requires Simple(g) && t in Triangles(g)
    ensures Order(k, t) in Cliques(g)
  {
    InCliques(g, t);
    ListedFacts(g, t.0, t.1);
    ListedFacts(g, t.1, t.2);
    ListedFacts(g, t.0, t.2);
    InCliques(g, Order(k, t));
  }

  /** Which order a clique is in. */
  ghost function KindOf(t: Triple): nat {
    if t.0 > t.1 then (if t.1 > t.2 then 0 else if t.0 > t.2 then 1 else 3)
    else (if t.0 > t.2 then 2 else if t.1 > t.2 then 4 else 5)
  }

  lemma CliqueOrdered(g: Graph, t: Triple) returns (s: Triple)
    requires Simple(g) && t in Cliques(g)
    ensures s in Triangles(g) && Order(KindOf(t), s) == t
  {
    InCliques(g, t);
    ListedFacts(g, t.0, t.1);
    ListedFacts(g, t.1, t.2);
    ListedFacts(g, t.0, t.2);
    match KindOf(t)
    case 0 => s := t;
    case 1 => s := (t.0, t.2, t.1);
    case 2 => s := (t.1, t.0, t.2);
    case 3 => s := (t.2, t.0, t.1);
    case 4 => s := (t.1, t.2, t.0);
    case _ => s := (t.2, t.1, t.0);
    InCliques(g, s);
  }

  lemma OrderedKind(g: Graph, k: nat, t: Triple)
    requires k < 6 && t in Ordered(g, k)
    ensures KindOf(t) == k
  {
  }

  /** Cliques whose order is one of the first k. */
  ghost function FirstKinds(g: Graph, k: nat): set<Triple> {
    set t | t in Cliques(g) && KindOf(t) < k
  }

  lemma NextKind(g: Graph, k: nat, t: Triple)
    requires Simple(g) && k < 6
    ensures t in FirstKinds(g, k + 1) <==> t in FirstKinds(g, k) || t in Ordered(g, k)
    ensures !(t in FirstKinds(g, k) && t in Ordered(g, k))
  {
    if t in Cliques(g) && KindOf(t) == k {
      var s := CliqueOrdered(g, t);
      assert t in Ordered(g, k);
    }
    if t in Ordered(g, k) {
      OrderedKind(g, k, t);
      var s :| s in Triangles(g) && t == Order(k, s);
      OrderedClique(g, k, s);
    }
  }

  lemma {:induction false} KindsSize(g: Graph, k: nat)
    requires Simple(g) && k <= 6
    ensures |FirstKinds(g, k)| == k * |Triangles(g)|
  {
    if k == 0 {
      assert FirstKinds(g, 0) == {};
    } else {
      var j: nat := k - 1;
      KindsSize(g, j);
      OrderedSize(g, j);
      forall t: Triple
        ensures t in FirstKinds(g, k) <==> t in FirstKinds(g, j) || t in Ordered(g, j)
        ensures !(t in FirstKinds(g, j) && t in Ordered(g, j))
      {
        NextKind(g, j, t);
      }
      SplitSize(FirstKinds(g, k), FirstKinds(g, j), Ordered(g, j));
      Successor(k, |Triangles(g)|);
    }
  }

  lemma SplitSize(s: set<Triple>, a: set<Triple>, b: set<Triple>)
    requires forall t: Triple :: (t in s <==> t in a || t in b) && !(t in a && t in b)
    ensures |s| == |a| + |b|
  {
    assert s == a + b && a !! b;
  }

  lemma Successor(k: nat, x: nat)
    requires k > 0
    ensures k * x == (k - 1) * x + x
  {
  }

  /** Every triangle is six cliques. */
  lemma SixTimes(g: Graph)
    requires Simple(g)
    ensures |Cliques(g)| == 6 * |Triangles(g)|
  {
    KindsSize(g, 6);
    assert FirstKinds(g, 6) == Cliques(g);
  }

  // ----------------------------------------------------------------- relabelling

  ghost predicate RenamedList(g: Graph, h: Graph, ids: seq<nat>, u: nat) {
    && u < |ids| && u < |g.outs| && ids[u] < |h.outs| && Increasing(h.outs[ids[u]])
    && (forall v: nat :: v in g.outs[u] && v < |ids| ==> ids[v] in h.outs[ids[u]])
    && (forall x: nat :: x in h.outs[ids[u]] ==> exists v: nat :: v < |ids| && v in g.outs[u] && ids[v] == x)
  }

  /** h is g with its vertices renamed and its lists sorted again. */
  ghost predicate Renamed(g: Graph, h: Graph, ids: seq<nat>) {
    && h.n == g.n && |h.outs| == g.n && Permutation(ids, g.n)
    && forall u: nat {:trigger RenamedList(g, h, ids, u)} :: u < g.n ==> RenamedList(g, h, ids, u)
  }

  lemma RenamedEdge(g: Graph, h: Graph, ids: seq<nat>, u: nat, v: nat)
    requires Simple(g) && Renamed(g, h, ids) && u < g.n && v < g.n
    ensures Listed(h, ids[u], ids[v]) <==> Listed(g, u, v)
  {
    assert RenamedList(g, h, ids, u);
    assert ListOk(g, u);
    if Listed(h, ids[u], ids[v]) {
      var y: nat :| y < |ids| && y in g.outs[u] && ids[y] == ids[v];
      Apart(ids);
      assert y == v;
    }
  }

  lemma RenamedSimple(g: Graph, h: Graph, ids: seq<nat>)
    requires Simple(g) && Renamed(g, h, ids)
    ensures Simple(h)
  {
    Apart(ids);
    forall x: nat | x < h.n
      ensures ListOk(h, x)
    {
      var u := PlaceOf(ids, g.n, x);
      assert RenamedList(g, h, ids, u);
      forall i | 0 <= i < |h.outs[x]|
        ensures h.outs[x][i] < h.n && h.outs[x][i] != x
      {
        assert h.outs[x][i] in h.outs[ids[u]];
        var v: nat :| v < |ids| && v in g.outs[u] && ids[v] == h.outs[x][i];
        assert Listed(g, u, v);
        ListedFacts(g, u, v);
      }
    }
    forall x: nat, y: nat | Listed(h, x, y)
      ensures Listed(h, y, x)
    {
      assert ListOk(h, x);
      var u := PlaceOf(ids, g.n, x);
      var v := PlaceOf(ids, g.n, y);
      RenamedEdge(g, h, ids, u, v);
      RenamedEdge(g, h, ids, v, u);
    }
  }

  ghost function RenameTriple(ids: seq<nat>, t: Triple): Triple {
    if t.0 < |ids| && t.1 < |ids| && t.2 < |ids| then (ids[t.0], ids[t.1], ids[t.2]) else t
  }

  /** Renaming the vertices does not change the number of triangles. */
  lemma RenamedTriangles(g: Graph, h: Graph, ids: seq<nat>)
    requires Simple(g) && Renamed(g, h, ids)
    ensures |Triangles(h)| == |Triangles(g)|
  {
    RenamedSimple(g, h, ids);
    Apart(ids);
    var f := t => RenameTriple(ids, t);
    ImageSize(Cliques(g), f);
    forall t: Triple
      ensures t in Cliques(h) <==> t in Image(Cliques(g), f)
    {
      RenamedCliques(g, h, ids, t);
    }
    assert Cliques(h) == Image(Cliques(g), f);
    SixTimes(g);
    SixTimes(h);
  }

  lemma RenamedCliques(g: Graph, h: Graph, ids: seq<nat>, t: Triple)
    requires Simple(g) && Simple(h) && Renamed(g, h, ids)
    ensures t in Cliques(h) <==> exists s :: s in Cliques(g) && t == RenameTriple(ids, s)
  {
    if t in Cliques(h) {
      var u := PlaceOf(ids, g.n, t.0);
      var v := PlaceOf(ids, g.n, t.1);
      var w := PlaceOf(ids, g.n, t.2);
      RenamedEdge(g, h, ids, u, v);
      RenamedEdge(g, h, ids, v, w);
      RenamedEdge(g, h, ids, u, w);
      assert Clique(g, (u, v, w));
      assert (u, v, w) in Cliques(g) && t == RenameTriple(ids, (u, v, w));
    }
    forall s | s in Cliques(g) && t == RenameTriple(ids, s)
      ensures t in Cliques(h)
    {
      RenamedEdge(g, h, ids, s.0, s.1);
      RenamedEdge(g, h, ids, s.1, s.2);
      RenamedEdge(g, h, ids, s.0, s.2);
      InCliques(h, t);
    }
  }
}
