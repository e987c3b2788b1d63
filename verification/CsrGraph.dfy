/**
  From an edge list to the graph the kernels run on (trident-workloads/gapbs/src/builder.h):
  two sets of rows, or one if the graph is symmetrized, each sorted and freed of repeated
  edges and loops.
*/
module CsrGraph {
  import opened Graphs
  import opened TriangleSets
  import opened CsrBuilder
  import TriangleCount

  /** The arcs that MakeCSR enters for an edge list. */
  function ArcsOf(el: seq<Arc>, symmetrize: bool, transpose: bool): seq<Arc> {
    if el == [] then []
    else
      var e := el[|el| - 1];
      ArcsOf(el[..|el| - 1], symmetrize, transpose)
      + (if symmetrize || !transpose then [e] else [])
      + (if symmetrize || transpose then [Arc(e.dst, e.src)] else [])
  }

  /** The graph has an arc from u to v. */
  ghost predicate Entered(el: seq<Arc>, symmetrize: bool, transpose: bool, u: nat, v: nat) {
    || ((symmetrize || !transpose) && Arc(u, v) in el)
    || ((symmetrize || transpose) && Arc(v, u) in el)
  }

  lemma {:induction false} InTargets(el: seq<Arc>, symmetrize: bool, transpose: bool, u: nat, v: nat)
    ensures v in Targets(ArcsOf(el, symmetrize, transpose), u) <==> Entered(el, symmetrize, transpose, u, v)
  {
    if el != [] {
      var m := |el| - 1;
      InTargets(el[..m], symmetrize, transpose, u, v);
      assert el == el[..m] + [el[m]];
      LastTargets(ArcsOf(el[..m], symmetrize, transpose), el[m], symmetrize || !transpose, symmetrize || transpose, u, v);
    }
  }

  lemma LastTargets(rest: seq<Arc>, e: Arc, forth: bool, back: bool, u: nat, v: nat)
    ensures var one: seq<Arc> := if forth then [e] else [];
      var two: seq<Arc> := if back then [Arc(e.dst, e.src)] else [];
      v in Targets(rest + one + two, u) <==> v in Targets(rest, u) || (forth && e == Arc(u, v)) || (back && e == Arc(v, u))
  {
    var one: seq<Arc> := if forth then [e] else [];
    var two: seq<Arc> := if back then [Arc(e.dst, e.src)] else [];
    TargetsConcat(rest + one, two, u);
    TargetsConcat(rest, one, u);
    TargetsOfOne(e, u);
    TargetsOfOne(Arc(e.dst, e.src), u);
  }

  lemma {:induction false} ArcsWithin(el: seq<Arc>, symmetrize: bool, transpose: bool, n: nat)
    requires Within(el, n)
    ensures Within(ArcsOf(el, symmetrize, transpose), n)
  {
    if el != [] {
      ArcsWithin(el[..|el| - 1], symmetrize, transpose, n);
    }
  }

  // ------------------------------------------------------------------------ squishing

  lemma IncreasingAppend(r: seq<nat>, x: nat)
    requires Increasing(r) && (|r| > 0 ==> r[|r| - 1] < x)
    ensures Increasing(r + [x])
  {
    forall i | 0 <= i < |r|
      ensures r[i] < x
    {
      assert i < |r| - 1 ==> r[i] < r[|r| - 1];
    }
  }

  /** std::unique on a sorted row. */
  method Unique(s: seq<nat>) returns (r: seq<nat>)
    requires TriangleCount.Ascending(s)
    ensures Increasing(r) && forall x :: x in r <==> x in s
  {
    r := [];
    for i := 0 to |s|
      invariant Increasing(r) && (forall x :: x in r <==> x in s[..i]) && (i == 0 ==> r == [])
      invariant i > 0 ==> |r| > 0 && r[|r| - 1] == s[i - 1]
    {
      assert s[..i + 1] == s[..i] + [s[i]];
      assert i > 0 ==> s[i - 1] <= s[i];
      if |r| == 0 || r[|r| - 1] != s[i] {
        IncreasingAppend(r, s[i]);
        r := r + [s[i]];
      }
    }
    assert s[..|s|] == s;
  }

  /** std::remove of the vertex itself. */
  method RemoveSelf(s: seq<nat>, n: nat) returns (r: seq<nat>)
    requires Increasing(s)
    ensures Increasing(r) && forall x :: x in r <==> x in s && x != n
  {
    r := [];
    for i := 0 to |s|
      invariant Increasing(r) && (forall x :: x in r <==> x in s[..i] && x != n)
      invariant forall k :: 0 <= k < |r| && i < |s| ==> r[k] < s[i]
    {
      assert s[..i + 1] == s[..i] + [s[i]];
      if s[i] != n {
        r := r + [s[i]];
      }
    }
    assert s[..|s|] == s;
  }

  /** A squished row: sorted, without repetition and without the vertex itself. */
  ghost predicate Squished(row: seq<nat>, r: seq<nat>, n: nat) {
    Increasing(r) && forall x :: x in r <==> x in row && x != n
  }

  method SquishRow(row: seq<nat>, n: nat) returns (r: seq<nat>)
    ensures Squished(row, r, n)
  {
    var sorted := TriangleCount.SortNodes(row);
    assert forall x :: x in sorted <==> x in row by {
      forall x
        ensures x in sorted <==> x in row
      {
        assert (x in sorted <==> x in multiset(sorted)) && (x in row <==> x in multiset(row));
      }
    }
    var unique := Unique(sorted);
    r := RemoveSelf(unique, n);
  }

  ghost predicate SquishedAt(degrees: seq<nat>, neighs: seq<nat>, lists: seq<seq<nat>>, u: nat) {
    && u < |degrees| && u < |lists| && |neighs| == Prefix(degrees, |degrees|)
    && Squished(RowOf(degrees, neighs, u), lists[u], u)
  }

  /** The first loop of SquishCSR. */
  method SquishRows(degrees: seq<nat>, starts: seq<nat>, neighs: array<nat>) returns (lists: seq<seq<nat>>)
    requires neighs.Length == Prefix(degrees, |degrees|)
    requires |starts| == |degrees| + 1 && forall u: nat :: u <= |degrees| ==> starts[u] == Prefix(degrees, u)
    ensures |lists| == |degrees| && forall u: nat :: u < |degrees| ==> SquishedAt(degrees, neighs[..], lists, u)
  {
    lists := [];
    for n := 0 to |degrees|
      invariant |lists| == n && forall u: nat :: u < n ==> SquishedAt(degrees, neighs[..], lists, u)
    {
      PrefixMonotone(degrees, n, n + 1);
      PrefixMonotone(degrees, n + 1, |degrees|);
      var row := neighs[starts[n]..starts[n + 1]];
      assert row == RowOf(degrees, neighs[..], n);
      var r := SquishRow(row, n);
      ghost var before := lists;
      lists := lists + [r];
      forall u: nat | u < n + 1
        ensures SquishedAt(degrees, neighs[..], lists, u)
      {
        assert u < n ==> SquishedAt(degrees, neighs[..], before, u);
      }
    }
  }

  // -------------------------------------------------------------------------- packing

  /** Row u of the packed array is lists[u]. */
  ghost predicate PackedAt(offsets: seq<nat>, neighs: seq<nat>, lists: seq<seq<nat>>, u: nat) {
    && u < |lists| && u + 1 < |offsets| && offsets[u] <= offsets[u + 1] <= |neighs|
    && neighs[offsets[u]..offsets[u + 1]] == lists[u]
  }

  ghost predicate Packed(offsets: seq<nat>, neighs: seq<nat>, lists: seq<seq<nat>>, k: nat) {
    forall u: nat {:trigger PackedAt(offsets, neighs, lists, u)} :: u < k ==> PackedAt(offsets, neighs, lists, u)
  }

  /** std::copy of one row to its place; rows before it stay. */
  method CopyRow(row: seq<nat>, neighs: array<nat>, at: nat)
    requires at + |row| <= neighs.Length
    modifies neighs
    ensures neighs[..] == old(neighs[..])[..at] + row + old(neighs[..])[at + |row|..]
  {
    ghost var before := neighs[..];
    for j := 0 to |row|
      invariant neighs[..] == before[..at] + row[..j] + before[at + j..]
    {
      neighs[at + j] := row[j];
      assert neighs[..] == before[..at] + row[..j + 1] + before[at + j + 1..];
    }
    assert row[..|row|] == row;
  }

  lemma PackNext(offsets: seq<nat>, before: seq<nat>, after: seq<nat>, lists: seq<seq<nat>>, k: nat)
    requires Packed(offsets, before, lists, k) && k < |lists| && k + 1 < |offsets|
    requires offsets[k + 1] == offsets[k] + |lists[k]| && offsets[k + 1] <= |before|
    requires forall u: nat :: u <= k ==> offsets[u] <= offsets[k]
    requires after == before[..offsets[k]] + lists[k] + before[offsets[k + 1]..]
    ensures Packed(offsets, after, lists, k + 1)
  {
    forall u: nat | u < k + 1
      ensures PackedAt(offsets, after, lists, u)
    {
      if u < k {
        assert PackedAt(offsets, before, lists, u);
        assert after[offsets[u]..offsets[u + 1]] == before[offsets[u]..offsets[u + 1]];
      } else {
        assert after[offsets[k]..offsets[k + 1]] == lists[k];
      }
    }
  }

  /** The second half of SquishCSR: the squished rows in an array of their own, one after the other. */
  method PackRows(lists: seq<seq<nat>>, blockSize: nat) returns (offsets: seq<nat>, neighs: array<nat>)
    requires blockSize > 0
    ensures |offsets| == |lists| + 1 && neighs.Length == offsets[|lists|] && Packed(offsets, neighs[..], lists, |lists|)
  {
    var diffs := seq(|lists|, u requires 0 <= u < |lists| => |lists[u]|);
    offsets := ParallelPrefixSum(diffs, blockSize);
    neighs := new nat[offsets[|lists|]](i => 0);
    for n := 0 to |lists|
      invariant Packed(offsets, neighs[..], lists, n)
    {
      ghost var before := neighs[..];
      forall u: nat | u <= n
        ensures offsets[u] <= offsets[n]
      {
        PrefixMonotone(diffs, u, n);
      }
      PrefixMonotone(diffs, n + 1, |diffs|);
      CopyRow(lists[n], neighs, offsets[n]);
      PackNext(offsets, before, neighs[..], lists, n);
    }
  }

  /** out_neigh(u) for every u: the rows as the index of the packed array gives them. */
  method ReadRows(offsets: seq<nat>, neighs: array<nat>, ghost lists: seq<seq<nat>>) returns (rows: seq<seq<nat>>)
    requires |offsets| == |lists| + 1 && Packed(offsets, neighs[..], lists, |lists|)
    ensures rows == lists
  {
    rows := [];
    for u := 0 to |offsets| - 1
      invariant rows == lists[..u]
    {
      assert PackedAt(offsets, neighs[..], lists, u);
      rows := rows + [neighs[offsets[u]..offsets[u + 1]]];
    }
  }

  // ----------------------------------------------------------------------- the graph

  /** FindMaxNodeID: the largest vertex of any edge, or 0. */
  method FindMaxNodeID(el: seq<Arc>) returns (maxSeen: nat)
    ensures Within(el, maxSeen + 1)
    ensures maxSeen == 0 || exists k :: 0 <= k < |el| && (el[k].src == maxSeen || el[k].dst == maxSeen)
  {
    maxSeen := 0;
    for i := 0 to |el|
      invariant Within(el[..i], maxSeen + 1)
      invariant maxSeen == 0 || exists k :: 0 <= k < i && (el[k].src == maxSeen || el[k].dst == maxSeen)
    {
      if el[i].src > maxSeen {
        maxSeen := el[i].src;
      }
      if el[i].dst > maxSeen {
        maxSeen := el[i].dst;
      }
    }
    assert el[..|el|] == el;
  }

  /** The lists of one direction, from MakeCSR to SquishCSR, for any order of the atomic steps. */
  method BuildLists(n: nat, el: seq<Arc>, symmetrize: bool, transpose: bool, counted: seq<Arc>, placed: seq<Arc>, blockSize: nat)
    returns (lists: seq<seq<nat>>)
    requires Within(el, n) && blockSize > 0
    requires multiset(counted) == multiset(ArcsOf(el, symmetrize, transpose))
    requires multiset(placed) == multiset(ArcsOf(el, symmetrize, transpose))
    ensures ListsOf(lists, n, el, symmetrize, transpose)
  {
    ghost var arcs := ArcsOf(el, symmetrize, transpose);
    ArcsWithin(el, symmetrize, transpose, n);
    var degrees, neighs := MakeCSR(n, ArcsOf(el, symmetrize, transpose), counted, placed, blockSize);
    var starts := ParallelPrefixSum(degrees, blockSize);
    var squished := SquishRows(degrees, starts, neighs);
    forall u: nat | u < n
      ensures ListFor(squished, el, symmetrize, transpose, u)
    {
      assert SquishedAt(degrees, neighs[..], squished, u);
      ListMeaning(squished, el, symmetrize, transpose, u, RowOf(degrees, neighs[..], u));
    }
    var offsets, packed := PackRows(squished, blockSize);
    lists := ReadRows(offsets, packed, squished);
  }

  ghost predicate ListFor(lists: seq<seq<nat>>, el: seq<Arc>, symmetrize: bool, transpose: bool, u: nat) {
    && u < |lists| && Increasing(lists[u])
    && forall v: nat {:trigger Entered(el, symmetrize, transpose, u, v)} :: v in lists[u] <==> v != u && Entered(el, symmetrize, transpose, u, v)
  }

  /** Every list is strictly increasing and holds exactly the other ends of the edges, the vertex itself excepted. */
  ghost predicate ListsOf(lists: seq<seq<nat>>, n: nat, el: seq<Arc>, symmetrize: bool, transpose: bool) {
    |lists| == n && forall u: nat {:trigger ListFor(lists, el, symmetrize, transpose, u)} :: u < n ==> ListFor(lists, el, symmetrize, transpose, u)
  }

  lemma ListMeaning(lists: seq<seq<nat>>, el: seq<Arc>, symmetrize: bool, transpose: bool, u: nat, row: seq<nat>)
    requires u < |lists| && Squished(row, lists[u], u)
    requires multiset(row) == multiset(Targets(ArcsOf(el, symmetrize, transpose), u))
    ensures ListFor(lists, el, symmetrize, transpose, u)
  {
    var targets := Targets(ArcsOf(el, symmetrize, transpose), u);
    forall v: nat
      ensures v in lists[u] <==> v != u && Entered(el, symmetrize, transpose, u, v)
    {
      InTargets(el, symmetrize, transpose, u, v);
      assert (v in row <==> v in multiset(row)) && (v in targets <==> v in multiset(targets));
    }
  }

  /** What the builder promises of its graph. */
  ghost predicate Built(g: Graph, n: nat, el: seq<Arc>, symmetrize: bool) {
    && g.n == n && WellFormed(g)
    && ListsOf(g.outs, n, el, symmetrize, false) && ListsOf(g.ins, n, el, symmetrize, true)
  }

  lemma ListedIs(outs: seq<seq<nat>>, ins: seq<seq<nat>>, n: nat, el: seq<Arc>, symmetrize: bool, u: nat, v: nat)
    requires Within(el, n) && ListsOf(outs, n, el, symmetrize, false) && ListsOf(ins, n, el, symmetrize, true) && u < n && v < n
    ensures v in outs[u] <==> u != v && Entered(el, symmetrize, false, u, v)
    ensures v in outs[u] <==> u in ins[v]
  {
    assert ListFor(outs, el, symmetrize, false, u) && ListFor(ins, el, symmetrize, true, v);
    assert Entered(el, symmetrize, false, u, v) <==> Entered(el, symmetrize, true, v, u);
  }

  lemma ListBelow(lists: seq<seq<nat>>, n: nat, el: seq<Arc>, symmetrize: bool, transpose: bool, u: nat, v: nat)
    requires Within(el, n) && ListsOf(lists, n, el, symmetrize, transpose) && u < n && v in lists[u]
    ensures v < n
  {
    assert ListFor(lists, el, symmetrize, transpose, u);
    assert Entered(el, symmetrize, transpose, u, v);
  }

  lemma GraphBuilt(g: Graph, n: nat, el: seq<Arc>, symmetrize: bool)
    requires Within(el, n) && g.n == n && ListsOf(g.outs, n, el, symmetrize, false) && ListsOf(g.ins, n, el, symmetrize, true)
    ensures Built(g, n, el, symmetrize)
  {
    forall u: nat, v: nat | Listed(g, u, v)
      ensures v < g.n
    {
      ListBelow(g.outs, n, el, symmetrize, false, u, v);
    }
    forall u: nat, v: nat | u < g.n && v in g.ins[u]
      ensures v < g.n
    {
      ListBelow(g.ins, n, el, symmetrize, true, u, v);
    }
    forall u: nat, v: nat | u < g.n && v < g.n
      ensures Listed(g, u, v) <==> u in g.ins[v]
    {
      ListedIs(g.outs, g.ins, n, el, symmetrize, u, v);
    }
  }

  /** A symmetrized graph is what the triangle kernel asks for. */
  lemma SymmetrizedSimple(g: Graph, n: nat, el: seq<Arc>)
    requires Within(el, n) && Built(g, n, el, true)
    ensures Simple(g)
  {
    forall u: nat | u < g.n
      ensures ListOk(g, u)
    {
      assert ListFor(g.outs, el, true, false, u);
      forall i | 0 <= i < |g.outs[u]|
        ensures g.outs[u][i] < g.n && g.outs[u][i] != u
      {
        ListBelow(g.outs, n, el, true, false, u, g.outs[u][i]);
        assert Entered(el, true, false, u, g.outs[u][i]);
      }
    }
    forall u: nat, v: nat | Listed(g, u, v)
      ensures Listed(g, v, u)
    {
      ListBelow(g.outs, n, el, true, false, u, v);
      assert ListFor(g.outs, el, true, false, u) && ListFor(g.outs, el, true, false, v);
      assert Entered(el, true, false, u, v) <==> Entered(el, true, false, v, u);
    }
  }

  /** The lists of a symmetrized graph serve both directions. */
  lemma OneForBoth(lists: seq<seq<nat>>, n: nat, el: seq<Arc>)
    requires ListsOf(lists, n, el, true, false)
    ensures ListsOf(lists, n, el, true, true)
  {
    forall u: nat | u < n
      ensures ListFor(lists, el, true, true, u)
    {
      assert ListFor(lists, el, true, false, u);
      forall v: nat
        ensures v in lists[u] <==> v != u && Entered(el, true, true, u, v)
      {
        assert Entered(el, true, false, u, v) <==> Entered(el, true, true, u, v);
      }
    }
  }

  /** How many vertices the graph has: as given, or one more than the largest vertex of an edge. */
  datatype NodeCount = Given(n: nat) | FromEdges

  /** num_nodes_ is the given number or the smallest that fits the edges. */
  ghost predicate CountOk(n: nat, count: NodeCount, el: seq<Arc>) {
    match count
    case Given(m) => n == m
    case FromEdges => Within(el, n) && forall m: nat :: 0 < m < n ==> !Within(el, m)
  }

  method CountNodes(count: NodeCount, el: seq<Arc>) returns (n: nat)
    ensures CountOk(n, count, el)
  {
    if count.Given? {
      n := count.n;
    } else {
      var maxSeen := FindMaxNodeID(el);
      n := maxSeen + 1;
    }
  }

  /**
    MakeGraph from an edge list: for every order of the atomic steps, lists that are strictly
    increasing, free of loops and set-equal to the input, the in-lists the inverse of the
    out-lists.
  */
  method MakeGraph(count: NodeCount, el: seq<Arc>, symmetrize: bool, blockSize: nat,
                   outCounted: seq<Arc>, outPlaced: seq<Arc>, inCounted: seq<Arc>, inPlaced: seq<Arc>) returns (g: Graph)
    requires (count.Given? ==> Within(el, count.n)) && blockSize > 0
    requires multiset(outCounted) == multiset(ArcsOf(el, symmetrize, false)) == multiset(outPlaced)
    requires multiset(inCounted) == multiset(ArcsOf(el, symmetrize, true)) == multiset(inPlaced)
    ensures CountOk(g.n, count, el) && Built(g, g.n, el, symmetrize)
    ensures symmetrize ==> Simple(g)
  {
    var n := CountNodes(count, el);
    var outs := BuildLists(n, el, symmetrize, false, outCounted, outPlaced, blockSize);
    var ins;
    if symmetrize {
      ins := outs;
      OneForBoth(outs, n, el);
    } else {
      ins := BuildLists(n, el, symmetrize, true, inCounted, inPlaced, blockSize);
    }
    g := Graph(n, outs, ins);
    GraphBuilt(g, n, el, symmetrize);
    if symmetrize {
      SymmetrizedSimple(g, n, el);
    }
  }
}
