/**
  Undirected connection in a graph, and the forests of parent pointers that the
  connected-components kernels of trident-workloads/gapbs keep.
*/
module Components {
  import opened Graphs

  /** An edge, whatever its direction. */
  ghost predicate Adjacent(g: Graph, u: nat, v: nat) {
    u < g.n && v < g.n && (Listed(g, u, v) || Listed(g, v, u))
  }

  ghost predicate HopAt(g: Graph, p: seq<nat>, i: nat) {
    i + 1 < |p| && Adjacent(g, p[i], p[i + 1])
  }

  ghost predicate IsPath(g: Graph, p: seq<nat>, u: nat, v: nat) {
    && |p| > 0 && p[0] == u && p[|p| - 1] == v
    && forall i: nat {:trigger HopAt(g, p, i)} :: i + 1 < |p| ==> HopAt(g, p, i)
  }

  /** u and v lie in one undirected component. */
  ghost predicate Connected(g: Graph, u: nat, v: nat) {
    exists p :: IsPath(g, p, u, v)
  }

  lemma ConnectedSelf(g: Graph, u: nat)
    ensures Connected(g, u, u)
  {
    assert IsPath(g, [u], u, u);
  }

  lemma ConnectedEdge(g: Graph, u: nat, v: nat)
    requires Adjacent(g, u, v)
    ensures Connected(g, u, v)
  {
    assert HopAt(g, [u, v], 0);
    assert IsPath(g, [u, v], u, v);
  }

  lemma ConnectedTrans(g: Graph, u: nat, v: nat, w: nat)
    requires Connected(g, u, v) && Connected(g, v, w)
    ensures Connected(g, u, w)
  {
    var p :| IsPath(g, p, u, v);
    var q :| IsPath(g, q, v, w);
    var r := p + q[1..];
    forall i: nat | i + 1 < |r|
      ensures HopAt(g, r, i)
    {
      if i + 1 < |p| {
        assert HopAt(g, p, i);
      } else {
        assert HopAt(g, q, i + 1 - |p|);
      }
    }
    assert IsPath(g, r, u, w);
  }

  lemma ConnectedSym(g: Graph, u: nat, v: nat)
    requires Connected(g, u, v)
    ensures Connected(g, v, u)
  {
    var p :| IsPath(g, p, u, v);
    var r := seq(|p|, i requires 0 <= i < |p| => p[|p| - 1 - i]);
    forall i: nat | i + 1 < |r|
      ensures HopAt(g, r, i)
    {
      assert HopAt(g, p, |p| - 2 - i);
    }
    assert IsPath(g, r, v, u);
  }

  /** A labelling that agrees along every edge agrees along every path. */
  lemma {:induction false} PathLabels(g: Graph, tag: seq<nat>, p: seq<nat>, u: nat, v: nat)
    requires |tag| == g.n && u < g.n && IsPath(g, p, u, v)
    requires forall a: nat, b: nat :: Adjacent(g, a, b) ==> tag[a] == tag[b]
    ensures v < g.n && tag[u] == tag[v]
    decreases |p|
  {
    if |p| > 1 {
      assert HopAt(g, p, 0);
      var q := p[1..];
      forall i: nat | i + 1 < |q|
        ensures HopAt(g, q, i)
      {
        assert HopAt(g, p, i + 1);
      }
      PathLabels(g, tag, q, p[1], v);
    }
  }

  /** The labelling gives every vertex the least vertex of its component, so it separates exactly the components. */
  ghost predicate LeastLabels(g: Graph, tag: seq<nat>) {
    && |tag| == g.n
    && (forall u :: 0 <= u < g.n ==> Connected(g, u, tag[u]))
    && (forall u, v :: 0 <= u < g.n && 0 <= v < g.n && Connected(g, u, v) ==> tag[u] <= v)
    && (forall u, v :: 0 <= u < g.n && 0 <= v < g.n ==> (tag[u] == tag[v] <==> Connected(g, u, v)))
  }

  /** Labels that never exceed their vertex, stay inside its component and agree along edges are the least labels. */
  lemma AgreeingLabelsAreLeast(g: Graph, tag: seq<nat>)
    requires |tag| == g.n
    requires forall u :: 0 <= u < g.n ==> tag[u] <= u && Connected(g, u, tag[u])
    requires forall a: nat, b: nat :: Adjacent(g, a, b) ==> tag[a] == tag[b]
    ensures LeastLabels(g, tag)
  {
    forall u: nat, v: nat | u < g.n && v < g.n
      ensures Connected(g, u, v) ==> tag[u] <= v
      ensures tag[u] == tag[v] <==> Connected(g, u, v)
    {
      if Connected(g, u, v) {
        var p :| IsPath(g, p, u, v);
        PathLabels(g, tag, p, u, v);
      }
      if tag[u] == tag[v] {
        ConnectedSym(g, v, tag[v]);
        ConnectedTrans(g, u, tag[u], v);
      }
    }
  }

  // ---------------------------------------------------------------- forests

  /** Parent pointers that never point upwards in the numbering. */
  predicate Forest(comp: seq<nat>) {
    forall x :: 0 <= x < |comp| ==> comp[x] <= x
  }

  function Root(comp: seq<nat>, x: nat): (r: nat)
    requires Forest(comp) && x < |comp|
    ensures r <= x && comp[r] == r
    decreases x
  {
    if comp[x] == x then x else Root(comp, comp[x])
  }

  /** Hooking a root onto a lower vertex moves exactly its own tree. */
  lemma {:induction false} HookRoot(comp: seq<nat>, h: nat, l: nat, x: nat)
    requires Forest(comp) && l < h < |comp| && comp[h] == h && x < |comp|
    ensures Forest(comp[h := l])
    ensures Root(comp[h := l], x) == if Root(comp, x) == h then Root(comp, l) else Root(comp, x)
    decreases x
  {
    if x == h {
      HookRoot(comp, h, l, l);
    } else if comp[x] != x {
      HookRoot(comp, h, l, comp[x]);
    }
  }

  /** Pointing a vertex at another vertex of its tree, below it, moves no root. */
  lemma {:induction false} ShortcutRoot(comp: seq<nat>, n: nat, b: nat, x: nat)
    requires Forest(comp) && b < n < |comp| && comp[n] != n && x < |comp|
    requires Root(comp, b) == Root(comp, n)
    ensures Forest(comp[n := b])
    ensures Root(comp[n := b], x) == Root(comp, x)
    decreases x
  {
    if x == n {
      ShortcutRoot(comp, n, b, b);
    } else if comp[x] != x {
      ShortcutRoot(comp, n, b, comp[x]);
    }
  }

  /** Every parent pointer stays inside its vertex's component. */
  ghost predicate Inside(g: Graph, comp: seq<nat>) {
    |comp| == g.n && forall x :: 0 <= x < |comp| ==> Connected(g, x, comp[x])
  }

  lemma {:induction false} RootConnected(g: Graph, comp: seq<nat>, x: nat)
    requires Forest(comp) && Inside(g, comp) && x < |comp|
    ensures Connected(g, x, Root(comp, x))
    decreases x
  {
    if comp[x] == x {
      ConnectedSelf(g, x);
    } else {
      RootConnected(g, comp, comp[x]);
      ConnectedTrans(g, x, comp[x], Root(comp, x));
    }
  }

  lemma SameTreeConnected(g: Graph, comp: seq<nat>, x: nat, y: nat)
    requires Forest(comp) && Inside(g, comp) && x < |comp| && y < |comp| && Root(comp, x) == Root(comp, y)
    ensures Connected(g, x, y)
  {
    RootConnected(g, comp, x);
    RootConnected(g, comp, y);
    ConnectedSym(g, y, Root(comp, y));
    ConnectedTrans(g, x, Root(comp, x), y);
  }
}
