/**
  Building the compressed sparse rows of a graph from an edge list
  (trident-workloads/gapbs/src/builder.h).  The parallel loops add to their counters with
  fetch_and_add; any order of these steps is an order in which the arcs are processed.
*/
module CsrBuilder {

  datatype Arc = Arc(src: nat, dst: nat)

  ghost predicate Within(arcs: seq<Arc>, n: nat) {
    forall i :: 0 <= i < |arcs| ==> arcs[i].src < n && arcs[i].dst < n
  }

  /** Where the arcs out of u lead, in their order. */
  ghost function Targets(arcs: seq<Arc>, u: nat): seq<nat> {
    if arcs == [] then []
    else
      var rest, last := Targets(arcs[..|arcs| - 1], u), arcs[|arcs| - 1];
      if last.src == u then rest + [last.dst] else rest
  }

  lemma {:induction false} TargetsConcat(a: seq<Arc>, b: seq<Arc>, u: nat)
    ensures Targets(a + b, u) == Targets(a, u) + Targets(b, u)
    decreases |b|
  {
    if b == [] {
      assert a + b == a;
    } else {
      var m := |b| - 1;
      TargetsConcat(a, b[..m], u);
      assert (a + b)[..|a| + m] == a + b[..m];
    }
  }

  lemma TargetsOfOne(e: Arc, u: nat)
    ensures Targets([e], u) == if e.src == u then [e.dst] else []
  {
    assert [e][..0] == [];
  }

  lemma TargetsNext(arcs: seq<Arc>, i: nat, u: nat)
    requires i < |arcs|
    ensures Targets(arcs[..i + 1], u) == Targets(arcs[..i], u) + if arcs[i].src == u then [arcs[i].dst] else []
  {
    assert arcs[..i + 1][..i] == arcs[..i];
  }

  lemma TargetsShorter(arcs: seq<Arc>, i: nat, u: nat)
    requires i <= |arcs|
    ensures |Targets(arcs[..i], u)| <= |Targets(arcs, u)|
  {
    TargetsConcat(arcs[..i], arcs[i..], u);
    assert arcs[..i] + arcs[i..] == arcs;
  }

  /** The order of the arcs changes only the order of the targets. */
  lemma {:induction false} TargetsPermuted(a: seq<Arc>, b: seq<Arc>, u: nat)
    requires multiset(a) == multiset(b)
    ensures multiset(Targets(a, u)) == multiset(Targets(b, u)) && |Targets(a, u)| == |Targets(b, u)|
    decreases |a|
  {
    assert |a| == |multiset(a)| == |multiset(b)| == |b|;
    if a != [] {
      var m := |a| - 1;
      var i := TakeOut(a, b);
      TargetsPermuted(a[..m], b[..i] + b[i + 1..], u);
      TargetsConcat(b[..i], b[i + 1..], u);
      TargetsConcat(b[..i] + [b[i]], b[i + 1..], u);
      TargetsConcat(b[..i], [b[i]], u);
      TargetsOfOne(b[i], u);
    }
    assert |Targets(a, u)| == |multiset(Targets(a, u))| && |Targets(b, u)| == |multiset(Targets(b, u))|;
  }

  lemma TakeOut(a: seq<Arc>, b: seq<Arc>) returns (i: nat)
    requires multiset(a) == multiset(b) && a != []
    ensures i < |b| && b[i] == a[|a| - 1] && b == b[..i] + [b[i]] + b[i + 1..]
    ensures multiset(a[..|a| - 1]) == multiset(b[..i] + b[i + 1..])
  {
    var m := |a| - 1;
    assert a[m] in multiset(a);
    i :| i < |b| && b[i] == a[m];
    assert a == a[..m] + [a[m]];
    assert b == b[..i] + [b[i]] + b[i + 1..];
    assert multiset(a[..m]) == multiset(a) - multiset{a[m]};
    assert multiset(b[..i] + b[i + 1..]) == multiset(b) - multiset{b[i]};
  }

  // ----------------------------------------------------------------------- prefix sums

  ghost function Prefix(degrees: seq<nat>, k: nat): nat
    requires k <= |degrees|
  {
    if k == 0 then 0 else Prefix(degrees, k - 1) + degrees[k - 1]
  }

  ghost predicate PrefixesTo(degrees: seq<nat>, sums: seq<nat>, k: nat) {
    k <= |degrees| && k <= |sums| && forall i: nat :: i < k ==> sums[i] == Prefix(degrees, i)
  }

  /** PrefixSum: the serial form. */
  method PrefixSum(degrees: seq<nat>) returns (sums: seq<nat>)
    ensures |sums| == |degrees| + 1 && forall i: nat :: i <= |degrees| ==> sums[i] == Prefix(degrees, i)
  {
    sums := [];
    var total := 0;
    for n := 0 to |degrees|
      invariant |sums| == n && total == Prefix(degrees, n) && PrefixesTo(degrees, sums, n)
    {
      sums := sums + [total];
      total := total + degrees[n];
    }
    sums := sums + [total];
  }

  function BlockEnd(lo: nat, size: nat, n: nat): nat {
    if lo + size < n then lo + size else n
  }

  /** The sum of one block, added to what comes before it, is what comes before the next. */
  method BlockSum(degrees: seq<nat>, lo: nat, hi: nat) returns (lsum: nat)
    requires lo <= hi <= |degrees|
    ensures Prefix(degrees, lo) + lsum == Prefix(degrees, hi)
  {
    lsum := 0;
    for i := lo to hi
      invariant Prefix(degrees, lo) + lsum == Prefix(degrees, i)
    {
      lsum := lsum + degrees[i];
    }
  }

  /** ParallelPrefixSum, for any block size: block sums, their prefix sums, then each block on its own. */
  method ParallelPrefixSum(degrees: seq<nat>, blockSize: nat) returns (prefix: seq<nat>)
    requires blockSize > 0
    ensures |prefix| == |degrees| + 1 && forall i: nat :: i <= |degrees| ==> prefix[i] == Prefix(degrees, i)
  {
    var localSums: seq<nat> := [];
    var lo := 0;
    ghost var ends: seq<nat> := [];
    while lo < |degrees|
      invariant lo <= |degrees| && |ends| == |localSums|
      invariant lo == if |ends| == 0 then 0 else ends[|ends| - 1]
      invariant BlocksOk(degrees, blockSize, localSums, ends)
      decreases |degrees| - lo
    {
      var hi := BlockEnd(lo, blockSize, |degrees|);
      var lsum := BlockSum(degrees, lo, hi);
      BlocksExtend(degrees, blockSize, localSums, ends, lsum, hi);
      localSums := localSums + [lsum];
      ends := ends + [hi];
      lo := hi;
    }
    var bulkPrefix, total := BulkPrefix(degrees, blockSize, localSums, ends);
    prefix := [];
    lo := 0;
    for block := 0 to |localSums|
      invariant lo == |prefix| == if block == 0 then 0 else ends[block - 1]
      invariant lo <= |degrees| && PrefixesTo(degrees, prefix, lo)
    {
      assert BlockOk(degrees, blockSize, localSums, ends, block) && BulkAt(degrees, ends, bulkPrefix, block);
      var hi := BlockEnd(lo, blockSize, |degrees|);
      prefix := FillBlock(degrees, prefix, lo, hi, bulkPrefix[block]);
      lo := hi;
    }
    assert lo == |degrees|;
    prefix := prefix + [total];
  }

  /** Block b runs from the end of the one before it, and localSums[b] is its sum. */
  ghost predicate BlockOk(degrees: seq<nat>, size: nat, localSums: seq<nat>, ends: seq<nat>, b: nat) {
    && b < |ends| && b < |localSums| && ends[b] <= |degrees|
    && var lo := if b == 0 then 0 else ends[b - 1];
       lo < |degrees| && ends[b] == BlockEnd(lo, size, |degrees|) && Prefix(degrees, lo) + localSums[b] == Prefix(degrees, ends[b])
  }

  ghost predicate BlocksOk(degrees: seq<nat>, size: nat, localSums: seq<nat>, ends: seq<nat>) {
    |ends| == |localSums| && forall b: nat {:trigger BlockOk(degrees, size, localSums, ends, b)} ::
      b < |ends| ==> BlockOk(degrees, size, localSums, ends, b)
  }

  lemma BlocksExtend(degrees: seq<nat>, size: nat, localSums: seq<nat>, ends: seq<nat>, lsum: nat, hi: nat)
    requires BlocksOk(degrees, size, localSums, ends) && hi <= |degrees|
    requires var lo := if |ends| == 0 then 0 else ends[|ends| - 1];
      lo < |degrees| && hi == BlockEnd(lo, size, |degrees|) && Prefix(degrees, lo) + lsum == Prefix(degrees, hi)
    ensures BlocksOk(degrees, size, localSums + [lsum], ends + [hi])
  {
    var localSums', ends' := localSums + [lsum], ends + [hi];
    forall b: nat | b < |ends'|
      ensures BlockOk(degrees, size, localSums', ends', b)
    {
      assert b < |ends| ==> BlockOk(degrees, size, localSums, ends, b);
    }
  }

  method BulkPrefix(degrees: seq<nat>, ghost size: nat, localSums: seq<nat>, ghost ends: seq<nat>) returns (bulk: seq<nat>, total: nat)
    requires BlocksOk(degrees, size, localSums, ends)
    requires (if |ends| == 0 then 0 else ends[|ends| - 1]) == |degrees|
    ensures |bulk| == |localSums| && total == Prefix(degrees, |degrees|)
    ensures forall b: nat :: b < |bulk| ==> BulkAt(degrees, ends, bulk, b)
  {
    bulk, total := [], 0;
    for b := 0 to |localSums|
      invariant |bulk| == b && (b > 0 ==> BlockOk(degrees, size, localSums, ends, b - 1))
      invariant (b == 0 ==> total == 0) && (b > 0 ==> total == Prefix(degrees, ends[b - 1]))
      invariant forall k: nat :: k < b ==> BulkAt(degrees, ends, bulk, k)
    {
      assert BlockOk(degrees, size, localSums, ends, b);
      ghost var before := bulk;
      bulk := bulk + [total];
      total := total + localSums[b];
      forall k: nat | k < b + 1
        ensures BulkAt(degrees, ends, bulk, k)
      {
        assert k < b ==> BulkAt(degrees, ends, before, k);
      }
    }
  }

  ghost predicate BulkAt(degrees: seq<nat>, ends: seq<nat>, bulk: seq<nat>, b: nat) {
    && b < |bulk| && b < |ends| && (b > 0 ==> ends[b - 1] <= |degrees|)
    && bulk[b] == Prefix(degrees, if b == 0 then 0 else ends[b - 1])
  }

  method FillBlock(degrees: seq<nat>, prefix0: seq<nat>, lo: nat, hi: nat, start: nat) returns (prefix: seq<nat>)
    requires lo <= hi <= |degrees| && |prefix0| == lo && PrefixesTo(degrees, prefix0, lo) && start == Prefix(degrees, lo)
    ensures |prefix| == hi && PrefixesTo(degrees, prefix, hi)
  {
    prefix := prefix0;
    var localTotal := start;
    for i := lo to hi
      invariant |prefix| == i && PrefixesTo(degrees, prefix, i) && localTotal == Prefix(degrees, i)
    {
      prefix := prefix + [localTotal];
      localTotal := localTotal + degrees[i];
    }
  }

  lemma {:induction false} PrefixMonotone(degrees: seq<nat>, i: nat, j: nat)
    requires i <= j <= |degrees|
    ensures Prefix(degrees, i) <= Prefix(degrees, j)
  {
    if i < j {
      PrefixMonotone(degrees, i, j - 1);
    }
  }

  // -------------------------------------------------------------------- filling the rows

  ghost predicate DegreesOf(degrees: seq<nat>, arcs: seq<Arc>, n: nat) {
    |degrees| == n && forall u: nat {:trigger Targets(arcs, u)} :: u < n ==> degrees[u] == |Targets(arcs, u)|
  }

  /** CountDegrees: one fetch_and_add for each arc, in any order. */
  method CountDegrees(n: nat, arcs: seq<Arc>) returns (degrees: array<nat>)
    requires Within(arcs, n)
    ensures fresh(degrees) && DegreesOf(degrees[..], arcs, n)
  {
    degrees := new nat[n](u => 0);
    for i := 0 to |arcs|
      invariant degrees.Length == n && DegreesOf(degrees[..], arcs[..i], n)
    {
      ghost var before := degrees[..];
      degrees[arcs[i].src] := degrees[arcs[i].src] + 1;
      forall u: nat | u < n
        ensures degrees[u] == |Targets(arcs[..i + 1], u)|
      {
        TargetsNext(arcs, i, u);
        assert before[u] == |Targets(arcs[..i], u)|;
      }
    }
    assert arcs[..|arcs|] == arcs;
  }

  /** The row of u so far: from its start to its counter, the targets of the arcs already placed. */
  ghost predicate RowAt(degrees: seq<nat>, neighs: seq<nat>, offsets: seq<nat>, done: seq<Arc>, u: nat) {
    && u < |degrees| && u < |offsets| && Prefix(degrees, u) <= offsets[u] <= |neighs|
    && neighs[Prefix(degrees, u)..offsets[u]] == Targets(done, u)
  }

  ghost predicate RowsOf(degrees: seq<nat>, neighs: seq<nat>, offsets: seq<nat>, done: seq<Arc>) {
    && |offsets| == |degrees| + 1
    && forall u: nat {:trigger RowAt(degrees, neighs, offsets, done, u)} :: u < |degrees| ==> RowAt(degrees, neighs, offsets, done, u)
  }

  lemma RowEnd(degrees: seq<nat>, neighs: seq<nat>, offsets: seq<nat>, arcs: seq<Arc>, i: nat, x: nat)
    requires i <= |arcs| && x < |degrees| && RowsOf(degrees, neighs, offsets, arcs[..i]) && DegreesOf(degrees, arcs, |degrees|)
    ensures Prefix(degrees, x) <= offsets[x] <= Prefix(degrees, x + 1)
    ensures i < |arcs| && arcs[i].src == x ==> offsets[x] < Prefix(degrees, x + 1)
  {
    assert RowAt(degrees, neighs, offsets, arcs[..i], x);
    TargetsShorter(arcs, i, x);
    if i < |arcs| {
      TargetsNext(arcs, i, x);
      TargetsShorter(arcs, i + 1, x);
    }
  }

  lemma SlotFree(degrees: seq<nat>, neighs: seq<nat>, offsets: seq<nat>, arcs: seq<Arc>, i: nat, x: nat)
    requires i < |arcs| && Within(arcs, |degrees|) && |neighs| == Prefix(degrees, |degrees|) && x < |degrees|
    requires RowsOf(degrees, neighs, offsets, arcs[..i]) && DegreesOf(degrees, arcs, |degrees|)
    ensures offsets[arcs[i].src] < Prefix(degrees, arcs[i].src + 1) <= |neighs|
    ensures x != arcs[i].src ==> offsets[x] <= Prefix(degrees, arcs[i].src) || Prefix(degrees, arcs[i].src + 1) <= Prefix(degrees, x)
  {
    var u := arcs[i].src;
    RowEnd(degrees, neighs, offsets, arcs, i, u);
    RowEnd(degrees, neighs, offsets, arcs, i, x);
    PrefixMonotone(degrees, u + 1, |degrees|);
    if x < u {
      PrefixMonotone(degrees, x + 1, u);
    } else if u < x {
      PrefixMonotone(degrees, u + 1, x);
    }
  }

  /** Placing one arc extends the row of its source and touches no other. */
  lemma PlaceArc(degrees: seq<nat>, neighs: seq<nat>, offsets: seq<nat>, arcs: seq<Arc>, i: nat, x: nat)
    requires i < |arcs| && Within(arcs, |degrees|) && |neighs| == Prefix(degrees, |degrees|) && x < |degrees|
    requires RowsOf(degrees, neighs, offsets, arcs[..i]) && DegreesOf(degrees, arcs, |degrees|)
    ensures var u, slot := arcs[i].src, offsets[arcs[i].src];
      slot < |neighs| && RowAt(degrees, neighs[slot := arcs[i].dst], offsets[u := slot + 1], arcs[..i + 1], x)
  {
    var u, slot := arcs[i].src, offsets[arcs[i].src];
    SlotFree(degrees, neighs, offsets, arcs, i, x);
    assert RowAt(degrees, neighs, offsets, arcs[..i], x) && RowAt(degrees, neighs, offsets, arcs[..i], u);
    TargetsNext(arcs, i, x);
    var neighs', lo := neighs[slot := arcs[i].dst], Prefix(degrees, x);
    if x == u {
      assert neighs'[lo..slot + 1] == neighs[lo..slot] + [arcs[i].dst];
    } else {
      assert neighs'[lo..offsets[x]] == neighs[lo..offsets[x]];
    }
  }

  lemma PlaceInAll(degrees: seq<nat>, neighs: seq<nat>, offsets: seq<nat>, arcs: seq<Arc>, i: nat)
    requires i < |arcs| && Within(arcs, |degrees|) && |neighs| == Prefix(degrees, |degrees|)
    requires RowsOf(degrees, neighs, offsets, arcs[..i]) && DegreesOf(degrees, arcs, |degrees|)
    ensures var u, slot := arcs[i].src, offsets[arcs[i].src];
      slot < |neighs| && RowsOf(degrees, neighs[slot := arcs[i].dst], offsets[u := slot + 1], arcs[..i + 1])
  {
    var u, slot := arcs[i].src, offsets[arcs[i].src];
    PlaceArc(degrees, neighs, offsets, arcs, i, u);
    var neighs', offsets', done' := neighs[slot := arcs[i].dst], offsets[u := slot + 1], arcs[..i + 1];
    forall x: nat | x < |degrees|
      ensures RowAt(degrees, neighs', offsets', done', x)
    {
      PlaceArc(degrees, neighs, offsets, arcs, i, x);
    }
  }

  /** The row of u in the finished arrays. */
  ghost function RowOf(degrees: seq<nat>, neighs: seq<nat>, u: nat): seq<nat>
    requires u < |degrees| && |neighs| == Prefix(degrees, |degrees|)
  {
    PrefixMonotone(degrees, u + 1, |degrees|);
    PrefixMonotone(degrees, u, u + 1);
    neighs[Prefix(degrees, u)..Prefix(degrees, u + 1)]
  }

  /** The copying loop of MakeCSR: each arc takes the next slot of its source, in any order. */
  method FillRows(degrees: seq<nat>, starts: seq<nat>, arcs: seq<Arc>) returns (neighs: array<nat>)
    requires Within(arcs, |degrees|) && DegreesOf(degrees, arcs, |degrees|)
    requires |starts| == |degrees| + 1 && forall u: nat :: u <= |degrees| ==> starts[u] == Prefix(degrees, u)
    ensures neighs.Length == Prefix(degrees, |degrees|)
    ensures forall u: nat :: u < |degrees| ==> RowOf(degrees, neighs[..], u) == Targets(arcs, u)
  {
    neighs := new nat[starts[|degrees|]](k => 0);
    var offsets := new nat[|starts|](u requires 0 <= u < |starts| => starts[u]);
    assert offsets[..] == starts;
    FirstRows(degrees, neighs[..], starts);
    for i := 0 to |arcs|
      invariant offsets.Length == |degrees| + 1 && neighs.Length == Prefix(degrees, |degrees|) && neighs != offsets
      invariant RowsOf(degrees, neighs[..], offsets[..], arcs[..i])
    {
      PlaceOne(degrees, neighs, offsets, arcs, i);
    }
    assert arcs[..|arcs|] == arcs;
    RowsDone(degrees, neighs[..], offsets[..], arcs);
  }

  /** neighs[fetch_and_add(offsets[src], 1)] = dst */
  method PlaceOne(ghost degrees: seq<nat>, neighs: array<nat>, offsets: array<nat>, arcs: seq<Arc>, i: nat)
    requires i < |arcs| && Within(arcs, |degrees|) && DegreesOf(degrees, arcs, |degrees|)
    requires neighs.Length == Prefix(degrees, |degrees|) && offsets.Length == |degrees| + 1 && neighs != offsets
    requires RowsOf(degrees, neighs[..], offsets[..], arcs[..i])
    modifies neighs, offsets
    ensures RowsOf(degrees, neighs[..], offsets[..], arcs[..i + 1])
  {
    var e := arcs[i];
    ghost var n0, o0 := neighs[..], offsets[..];
    PlaceInAll(degrees, n0, o0, arcs, i);
    var slot := offsets[e.src];
    offsets[e.src] := slot + 1;
    neighs[slot] := e.dst;
    assert neighs[..] == n0[slot := e.dst] && offsets[..] == o0[e.src := slot + 1];
  }

  lemma RowsDone(degrees: seq<nat>, neighs: seq<nat>, offsets: seq<nat>, arcs: seq<Arc>)
    requires |neighs| == Prefix(degrees, |degrees|) && RowsOf(degrees, neighs, offsets, arcs) && DegreesOf(degrees, arcs, |degrees|)
    ensures forall u: nat :: u < |degrees| ==> RowOf(degrees, neighs, u) == Targets(arcs, u)
  {
    forall u: nat | u < |degrees|
      ensures RowOf(degrees, neighs, u) == Targets(arcs, u)
    {
      assert RowAt(degrees, neighs, offsets, arcs, u);
      PrefixMonotone(degrees, u + 1, |degrees|);
    }
  }

  lemma FirstRows(degrees: seq<nat>, neighs: seq<nat>, starts: seq<nat>)
    requires |starts| == |degrees| + 1 && |neighs| == Prefix(degrees, |degrees|)
    requires forall u: nat :: u <= |degrees| ==> starts[u] == Prefix(degrees, u)
    ensures RowsOf(degrees, neighs, starts, [])
  {
    forall u: nat | u < |degrees|
      ensures RowAt(degrees, neighs, starts, [], u)
    {
      PrefixMonotone(degrees, u, |degrees|);
    }
  }

  /**
    MakeCSR: whatever the order in which degrees are counted and arcs are placed, the row of
    every vertex holds exactly the targets of its arcs.
  */
  method MakeCSR(n: nat, arcs: seq<Arc>, counted: seq<Arc>, placed: seq<Arc>, blockSize: nat)
    returns (degrees: seq<nat>, neighs: array<nat>)
    requires Within(arcs, n) && multiset(counted) == multiset(arcs) && multiset(placed) == multiset(arcs) && blockSize > 0
    ensures |degrees| == n && neighs.Length == Prefix(degrees, n)
    ensures forall u: nat :: u < n ==> multiset(RowOf(degrees, neighs[..], u)) == multiset(Targets(arcs, u))
  {
    WithinPermuted(arcs, counted, n);
    WithinPermuted(arcs, placed, n);
    var counts := CountDegrees(n, counted);
    degrees := counts[..];
    forall u: nat | u < n
      ensures degrees[u] == |Targets(placed, u)|
    {
      TargetsPermuted(counted, placed, u);
    }
    var offsets := ParallelPrefixSum(degrees, blockSize);
    neighs := FillRows(degrees, offsets, placed);
    forall u: nat | u < n
      ensures multiset(RowOf(degrees, neighs[..], u)) == multiset(Targets(arcs, u))
    {
      TargetsPermuted(placed, arcs, u);
    }
  }

  lemma WithinPermuted(a: seq<Arc>, b: seq<Arc>, n: nat)
    requires Within(a, n) && multiset(a) == multiset(b)
    ensures Within(b, n)
  {
    forall i | 0 <= i < |b|
      ensures b[i].src < n && b[i].dst < n
    {
      assert b[i] in multiset(b);
      assert b[i] in a;
    }
  }
}
