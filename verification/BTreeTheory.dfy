/**
  What the local conditions of Shape mean for the whole tree: all leaves at one
  depth, and a leaf chain that is the in-order walk of the tree.
*/
module BTreeTheory {
  import opened BTreeShape
  import opened BTreeFacts
  import opened BTreeSteps
  import opened BTreeContents

  /** Every path from n down to a leaf has exactly d edges. */
  ghost predicate LeavesAtDepth(h: Heap, n: nat, d: nat)
    decreases d
  {
    n in h && if d == 0 then h[n].Leaf?
              else h[n].Inner? && forall i :: 0 <= i < |h[n].kids| ==> LeavesAtDepth(h, h[n].kids[i], d - 1)
  }

  lemma {:induction false} EqualDepth(h: Heap, sp: Spans, root: nat, n: nat)
    requires Shape(h, sp, root) && n in h
    ensures LeavesAtDepth(h, n, sp[n].lvl)
    decreases sp[n].lvl
  {
    assert NodeOk(h, sp, n);
    if h[n].Inner? {
      forall i | 0 <= i < |h[n].kids|
        ensures LeavesAtDepth(h, h[n].kids[i], sp[n].lvl - 1)
      {
        KidFacts(h, sp, root, n, i);
        EqualDepth(h, sp, root, h[n].kids[i]);
      }
    }
  }

  /** The leaves under n, at depth d, from left to right. */
  ghost function Walk(h: Heap, n: nat, d: nat): seq<nat>
    decreases d, 0
  {
    if n in h && h[n].Inner? && d > 0 then WalkAll(h, h[n].kids, d - 1) else [n]
  }

  ghost function WalkAll(h: Heap, ns: seq<nat>, d: nat): seq<nat>
    decreases d, |ns| + 1
  {
    if ns == [] then [] else WalkAll(h, ns[..|ns| - 1], d) + Walk(h, ns[|ns| - 1], d)
  }

  ghost predicate TileAt(h: Heap, sp: Spans, ls: seq<nat>, k: nat) {
    && k < |ls| && ls[k] in h && ls[k] in sp && h[ls[k]].Leaf?
    && (k + 1 < |ls| && ls[k + 1] in sp ==> sp[ls[k]].hi == sp[ls[k + 1]].lo)
  }

  /** ls is a row of leaves that together cover [lo, hi) without gap or overlap. */
  ghost predicate Tiles(h: Heap, sp: Spans, ls: seq<nat>, lo: int, hi: int) {
    && |ls| > 0
    && (forall k: nat {:trigger TileAt(h, sp, ls, k)} :: k < |ls| ==> TileAt(h, sp, ls, k))
    && ls[0] in sp && sp[ls[0]].lo == lo
    && ls[|ls| - 1] in sp && sp[ls[|ls| - 1]].hi == hi
  }

  lemma TilesJoin(h: Heap, sp: Spans, a: seq<nat>, b: seq<nat>, lo: int, mid: int, hi: int)
    requires Tiles(h, sp, a, lo, mid) && Tiles(h, sp, b, mid, hi)
    ensures Tiles(h, sp, a + b, lo, hi)
  {
    var ls := a + b;
    forall k: nat | k < |ls|
      ensures TileAt(h, sp, ls, k)
    {
      if k < |a| {
        assert TileAt(h, sp, a, k);
      } else {
        assert TileAt(h, sp, b, k - |a|);
      }
    }
  }

  lemma {:induction false} WalkTiles(h: Heap, sp: Spans, root: nat, n: nat)
    requires Shape(h, sp, root) && n in h
    ensures Tiles(h, sp, Walk(h, n, sp[n].lvl), sp[n].lo, sp[n].hi)
    decreases sp[n].lvl, 0
  {
    assert NodeOk(h, sp, n);
    if h[n].Inner? {
      WalkKidsTile(h, sp, root, n, |h[n].kids|);
      assert h[n].kids[..|h[n].kids|] == h[n].kids;
    } else {
      assert TileAt(h, sp, [n], 0);
    }
  }

  lemma {:induction false} WalkKidsTile(h: Heap, sp: Spans, root: nat, n: nat, m: nat)
    requires Shape(h, sp, root) && n in h && h[n].Inner? && 0 < m <= |h[n].kids| && sp[n].lvl > 0
    ensures |h[n].kids| == |h[n].keys| + 1
    ensures Tiles(h, sp, WalkAll(h, h[n].kids[..m], sp[n].lvl - 1), sp[n].lo, KidHi(h[n].keys, sp[n].hi, m - 1))
    decreases sp[n].lvl - 1, m
  {
    assert NodeOk(h, sp, n);
    KidFacts(h, sp, root, n, m - 1);
    var c := h[n].kids[m - 1];
    WalkTiles(h, sp, root, c);
    assert h[n].kids[..m][..m - 1] == h[n].kids[..m - 1];
    var here := Walk(h, c, sp[n].lvl - 1);
    if m > 1 {
      WalkKidsTile(h, sp, root, n, m - 1);
      var before := WalkAll(h, h[n].kids[..m - 1], sp[n].lvl - 1);
      TilesJoin(h, sp, before, here, sp[n].lo, sp[c].lo, sp[c].hi);
    } else {
      assert WalkAll(h, h[n].kids[..0], sp[n].lvl - 1) + here == here;
    }
  }

  lemma {:induction false} TilesOrdered(h: Heap, sp: Spans, root: nat, ls: seq<nat>, lo: int, hi: int, a: nat, b: nat)
    requires Shape(h, sp, root) && Tiles(h, sp, ls, lo, hi) && a < b < |ls|
    ensures ls[a] in sp && ls[b] in sp && sp[ls[a]].hi <= sp[ls[b]].lo
    decreases b
  {
    assert TileAt(h, sp, ls, a) && TileAt(h, sp, ls, b) && TileAt(h, sp, ls, b - 1);
    if a < b - 1 {
      TilesOrdered(h, sp, root, ls, lo, hi, a, b - 1);
      assert NodeOk(h, sp, ls[b - 1]);
    }
  }

  lemma {:induction false} TileOfKey(h: Heap, sp: Spans, root: nat, ls: seq<nat>, lo: int, hi: int, k: int, m: nat) returns (i: nat)
    requires Shape(h, sp, root) && Tiles(h, sp, ls, lo, hi) && 0 < m <= |ls| && ls[m - 1] in sp && lo <= k < sp[ls[m - 1]].hi
    ensures i < m && ls[i] in sp && sp[ls[i]].lo <= k < sp[ls[i]].hi
    decreases m
  {
    assert TileAt(h, sp, ls, m - 1);
    if sp[ls[m - 1]].lo <= k {
      i := m - 1;
    } else {
      assert TileAt(h, sp, ls, m - 2);
      i := TileOfKey(h, sp, root, ls, lo, hi, k, m - 1);
    }
  }

  ghost predicate LinkedAt(h: Heap, ls: seq<nat>, k: nat) {
    k < |ls| && ls[k] in h && h[ls[k]].Leaf? && h[ls[k]].next == if k + 1 < |ls| then ls[k + 1] else NULL
  }

  /** Following next from the first leaf of ls visits ls and then stops. */
  ghost predicate ChainIs(h: Heap, ls: seq<nat>) {
    forall k: nat {:trigger LinkedAt(h, ls, k)} :: k < |ls| ==> LinkedAt(h, ls, k)
  }

  ghost predicate KeysBelow(a: seq<int>, b: seq<int>) {
    forall i, j :: 0 <= i < |a| && 0 <= j < |b| ==> a[i] < b[j]
  }

  ghost predicate InOrder(h: Heap, ls: seq<nat>, a: nat, b: nat) {
    a < b < |ls| && ls[a] in h && ls[b] in h && KeysBelow(h[ls[a]].keys, h[ls[b]].keys)
  }

  /** The leaf chain is the in-order walk of the tree, holds every leaf, and its keys ascend throughout. */
  lemma LeafChain(h: Heap, sp: Spans, root: nat)
    requires Shape(h, sp, root)
    ensures var ls := Walk(h, root, sp[root].lvl);
            && ChainIs(h, ls)
            && (forall n :: n in h && h[n].Leaf? ==> n in ls)
            && (forall a: nat, b: nat {:trigger InOrder(h, ls, a, b)} :: a < b < |ls| ==> InOrder(h, ls, a, b))
  {
    var ls := Walk(h, root, sp[root].lvl);
    WalkTiles(h, sp, root, root);
    forall k: nat | k < |ls|
      ensures LinkedAt(h, ls, k)
    {
      TileLink(h, sp, root, ls, k);
    }
    forall n | n in h && h[n].Leaf?
      ensures n in ls
    {
      LeafInTiles(h, sp, root, ls, n);
    }
    forall a: nat, b: nat | a < b < |ls|
      ensures InOrder(h, ls, a, b)
    {
      TilesOrdered(h, sp, root, ls, 0, LIMIT, a, b);
      assert NodeOk(h, sp, ls[a]) && NodeOk(h, sp, ls[b]) && TileAt(h, sp, ls, a) && TileAt(h, sp, ls, b);
    }
  }

  lemma LeafInTiles(h: Heap, sp: Spans, root: nat, ls: seq<nat>, n: nat)
    requires Shape(h, sp, root) && Tiles(h, sp, ls, 0, LIMIT) && n in h && h[n].Leaf?
    ensures n in ls
  {
    UpperBound(h, sp, root, n);
    assert NodeOk(h, sp, n);
    var i := TileOfKey(h, sp, root, ls, 0, LIMIT, sp[n].lo, |ls|);
    assert TileAt(h, sp, ls, i) && NodeOk(h, sp, ls[i]);
    assert n == ls[i] || ApartPair(sp, n, ls[i]);
  }

  lemma TileLink(h: Heap, sp: Spans, root: nat, ls: seq<nat>, k: nat)
    requires Shape(h, sp, root) && Tiles(h, sp, ls, 0, LIMIT) && k < |ls|
    ensures LinkedAt(h, ls, k)
  {
    assert TileAt(h, sp, ls, k) && LinkOk(h, sp, ls[k]);
    if k + 1 < |ls| {
      var m := ls[k + 1];
      assert TileAt(h, sp, ls, k + 1) && NodeOk(h, sp, m);
      UpperBound(h, sp, root, m);
      var x := h[ls[k]].next;
      assert NodeOk(h, sp, x);
      assert x == m || ApartPair(sp, x, m);
    }
  }

  /** A separator bounds every key below it: subtree i of an inner node lies in [keys[i-1], keys[i]). */
  lemma SeparatorsBound(h: Heap, sp: Spans, root: nat, n: nat, i: nat, x: nat, k: int)
    requires Shape(h, sp, root) && n in h && h[n].Inner? && i < |h[n].kids|
    requires sp[n].lvl > 0 && x in Walk(h, h[n].kids[i], sp[n].lvl - 1) && Holds(h, x, k)
    ensures i > 0 ==> i - 1 < |h[n].keys| && h[n].keys[i - 1] <= k
    ensures i < |h[n].keys| ==> k < h[n].keys[i]
  {
    KidFacts(h, sp, root, n, i);
    var c := h[n].kids[i];
    var ls := Walk(h, c, sp[n].lvl - 1);
    WalkTiles(h, sp, root, c);
    var a :| 0 <= a < |ls| && ls[a] == x;
    assert TileAt(h, sp, ls, a) && NodeOk(h, sp, x);
    assert TileAt(h, sp, ls, 0) && TileAt(h, sp, ls, |ls| - 1) && NodeOk(h, sp, ls[0]) && NodeOk(h, sp, ls[|ls| - 1]);
    if a > 0 {
      TilesOrdered(h, sp, root, ls, sp[c].lo, sp[c].hi, 0, a);
    }
    if a < |ls| - 1 {
      TilesOrdered(h, sp, root, ls, sp[c].lo, sp[c].hi, a, |ls| - 1);
    }
  }

  /** The entries of index with keys in [start, end] below f, in key order. */
  ghost predicate Collected(index: map<int, nat>, keys: seq<int>, recs: seq<nat>, start: int, end: int, f: int) {
    && |keys| == |recs| && Sorted(keys)
    && (forall j :: 0 <= j < |keys| ==>
          keys[j] in index && index[keys[j]] == recs[j] && start <= keys[j] <= end && keys[j] < f)
    && (forall k :: k in index && start <= k <= end && k < f ==> k in keys)
  }

  lemma CollectedBothEmpty(index: map<int, nat>, keys: seq<int>, recs: seq<nat>, keys': seq<int>, recs': seq<nat>,
                           start: int, end: int, f: int)
    requires Collected(index, keys, recs, start, end, f) && Collected(index, keys', recs', start, end, f)
    ensures keys == [] ==> keys' == []
  {
    assert |keys'| > 0 ==> keys'[0] in keys;
  }

  lemma CollectedLast(index: map<int, nat>, keys: seq<int>, recs: seq<nat>, keys': seq<int>, recs': seq<nat>,
                      start: int, end: int, f: int)
    requires Collected(index, keys, recs, start, end, f) && Collected(index, keys', recs', start, end, f)
    requires |keys| > 0 && |keys'| > 0
    ensures keys[|keys| - 1] <= keys'[|keys'| - 1] && recs[|recs| - 1] == index[keys[|keys| - 1]]
  {
    assert keys[|keys| - 1] in keys';
  }

  /** The result of a range query is determined by the map alone. */
  lemma {:induction false} CollectedUnique(index: map<int, nat>, keys: seq<int>, recs: seq<nat>, keys': seq<int>, recs': seq<nat>,
                                           start: int, end: int, f: int)
    requires Collected(index, keys, recs, start, end, f) && Collected(index, keys', recs', start, end, f)
    ensures keys == keys' && recs == recs'
    decreases |keys|
  {
    CollectedBothEmpty(index, keys, recs, keys', recs', start, end, f);
    CollectedBothEmpty(index, keys', recs', keys, recs, start, end, f);
    if |keys| > 0 {
      var m, m' := |keys| - 1, |keys'| - 1;
      CollectedLast(index, keys, recs, keys', recs', start, end, f);
      CollectedLast(index, keys', recs', keys, recs, start, end, f);
      CollectedPrefix(index, keys, recs, start, end, f);
      CollectedPrefix(index, keys', recs', start, end, f);
      CollectedUnique(index, keys[..m], recs[..m], keys'[..m'], recs'[..m'], start, end, keys[m]);
      assert keys == keys[..m] + [keys[m]] && keys' == keys'[..m'] + [keys'[m']];
      assert recs == recs[..m] + [recs[m]] && recs' == recs'[..m'] + [recs'[m']];
    }
  }

  lemma CollectedPrefix(index: map<int, nat>, keys: seq<int>, recs: seq<nat>, start: int, end: int, f: int)
    requires Collected(index, keys, recs, start, end, f) && |keys| > 0
    ensures Collected(index, keys[..|keys| - 1], recs[..|recs| - 1], start, end, keys[|keys| - 1])
  {
    var m := |keys| - 1;
    forall k | k in index && start <= k <= end && k < keys[m]
      ensures k in keys[..m]
    {
      assert k in keys;
      var j :| 0 <= j < |keys| && keys[j] == k;
      assert keys[..m][j] == k;
    }
  }

  /** A range query never returns more entries than the range has keys. */
  lemma {:induction false} SortedRangeSize(keys: seq<int>, start: int, end: int)
    requires Sorted(keys) && forall j :: 0 <= j < |keys| ==> start <= keys[j] <= end
    ensures |keys| > 0 ==> |keys| <= end - start + 1
    decreases |keys|
  {
    if |keys| == 1 {
      assert start <= keys[0] <= end;
    } else if |keys| > 1 {
      var m := |keys| - 1;
      assert keys[..m][m - 1] < keys[m];
      SortedRangeSize(keys[..m], start, keys[m] - 1);
    }
  }
}
