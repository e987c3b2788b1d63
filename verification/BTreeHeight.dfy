/**
  How full a B+ tree is (trident-workloads/btree/btree1.c): every node but the root is at least half
  full, so the number of entries is exponential in the height.
*/
module BTreeHeight {
  import opened BTreeShape
  import opened BTreeFacts
  import opened BTreeSteps
  import opened BTreeTheory
  import opened Multiples

  /** Every node but the root is at least half full, and none is too full. */
  lemma HalfFull(h: Heap, sp: Spans, root: nat, order: nat, index: map<int, nat>, n: nat)
    requires Tree(h, sp, root, order, index) && n in h
    ensures h[n].Leaf? ==> |h[n].recs| == |h[n].keys| <= order - 1 && (n != root ==> 2 * |h[n].keys| >= order - 1)
    ensures h[n].Inner? ==> 2 <= |h[n].kids| == |h[n].keys| + 1 <= order && (n != root ==> 2 * |h[n].kids| >= order)
  {
    assert NodeOk(h, sp, n) && SizeOk(h, root, order, n);
  }

  /** The fewest leaves under a node d levels above them: ceil(order / 2) children on every level. */
  ghost function FewestLeaves(order: nat, d: nat): nat {
    if d == 0 then 1 else Times((order + 1) / 2, FewestLeaves(order, d - 1))
  }

  lemma {:induction false} TimesMore(k: nat, k': nat, w: nat)
    requires k <= k'
    ensures Times(k, w) <= Times(k', w)
  {
    if k > 0 {
      TimesMore(k - 1, k' - 1, w);
    }
  }

  lemma {:induction false} ManyLeaves(h: Heap, sp: Spans, root: nat, order: nat, index: map<int, nat>, n: nat)
    requires Tree(h, sp, root, order, index) && n in h && n != root
    ensures |Walk(h, n, sp[n].lvl)| >= FewestLeaves(order, sp[n].lvl)
    decreases sp[n].lvl, 0
  {
    assert NodeOk(h, sp, n);
    if h[n].Inner? {
      HalfFull(h, sp, root, order, index, n);
      LeavesOfKids(h, sp, root, order, index, n, |h[n].kids|);
      assert h[n].kids[..|h[n].kids|] == h[n].kids;
      TimesMore((order + 1) / 2, |h[n].kids|, FewestLeaves(order, sp[n].lvl - 1));
    }
  }

  lemma {:induction false} LeavesOfKids(h: Heap, sp: Spans, root: nat, order: nat, index: map<int, nat>, n: nat, m: nat)
    requires Tree(h, sp, root, order, index) && n in h && h[n].Inner? && sp[n].lvl > 0 && m <= |h[n].kids|
    ensures |WalkAll(h, h[n].kids[..m], sp[n].lvl - 1)| >= Times(m, FewestLeaves(order, sp[n].lvl - 1))
    decreases sp[n].lvl - 1, m + 1
  {
    if m > 0 {
      assert h[n].kids[..m][..m - 1] == h[n].kids[..m - 1];
      LeavesOfKids(h, sp, root, order, index, n, m - 1);
      KidFacts(h, sp, root, n, m - 1);
      ManyLeaves(h, sp, root, order, index, h[n].kids[m - 1]);
    }
  }

  ghost function KeySet(v: View): set<int> {
    set k | k in v.keys
  }

  lemma {:induction false} AscendingSize(keys: seq<int>)
    requires forall i, j :: 0 <= i < j < |keys| ==> keys[i] < keys[j]
    ensures |set k | k in keys| == |keys|
  {
    if keys != [] {
      var m := |keys| - 1;
      AscendingSize(keys[..m]);
      assert (set k | k in keys) == (set k | k in keys[..m]) + {keys[m]};
    }
  }

  /** The keys in the first m leaves are all different. */
  lemma {:induction false} KeysOfLeaves(h: Heap, sp: Spans, root: nat, order: nat, index: map<int, nat>, ls: seq<nat>, m: nat)
      returns (keys: set<int>)
    requires Tree(h, sp, root, order, index) && sp[root].lvl > 0 && ls == Walk(h, root, sp[root].lvl) && m <= |ls|
    ensures keys <= index.Keys && |keys| >= Times(m, order / 2)
    ensures forall k :: k in keys ==> exists a: nat :: a < m && ls[a] in h && k in h[ls[a]].keys
  {
    keys := {};
    if m > 0 {
      LeafChain(h, sp, root);
      var before := KeysOfLeaves(h, sp, root, order, index, ls, m - 1);
      var n := ls[m - 1];
      assert LinkedAt(h, ls, m - 1);
      assert NodeOk(h, sp, n);
      assert NodeOk(h, sp, root);
      HalfFull(h, sp, root, order, index, n);
      AscendingSize(h[n].keys);
      var here := KeySet(h[n]);
      forall k | k in here
        ensures k in index
      {
        var i: nat :| i < |h[n].keys| && h[n].keys[i] == k;
        assert EntryOk(h, index, n, i);
      }
      forall k | k in before
        ensures k !in here
      {
        var a: nat :| a < m - 1 && ls[a] in h && k in h[ls[a]].keys;
        assert InOrder(h, ls, a, m - 1);
      }
      keys := before + here;
    }
  }

  lemma KeysCount(keys: set<int>, index: map<int, nat>)
    requires keys <= index.Keys
    ensures |keys| <= |index|
  {
    var rest := index.Keys - keys;
    assert index.Keys == keys + rest;
  }

  /** A tree of height d > 0 has at least 2 * floor(order / 2) * ceil(order / 2)^(d - 1) entries. */
  lemma HeightBound(h: Heap, sp: Spans, root: nat, order: nat, index: map<int, nat>)
    requires Tree(h, sp, root, order, index) && sp[root].lvl > 0
    ensures |index| >= Times(Times(2, FewestLeaves(order, sp[root].lvl - 1)), order / 2)
  {
    assert NodeOk(h, sp, root);
    HalfFull(h, sp, root, order, index, root);
    LeavesOfKids(h, sp, root, order, index, root, |h[root].kids|);
    assert h[root].kids[..|h[root].kids|] == h[root].kids;
    var ls := Walk(h, root, sp[root].lvl);
    TimesMore(2, |h[root].kids|, FewestLeaves(order, sp[root].lvl - 1));
    var keys := KeysOfLeaves(h, sp, root, order, index, ls, |ls|);
    KeysCount(keys, index);
    TimesMore(Times(2, FewestLeaves(order, sp[root].lvl - 1)), |ls|, order / 2);
  }
}
