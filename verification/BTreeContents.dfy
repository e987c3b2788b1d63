/**
  What the moves do to the stored entries: restructuring keeps every entry,
  LeafPut adds one and LeafCut removes one.
*/
module BTreeContents {
  import opened BTreeShape
  import opened BTreeMoves
  import opened BTreeFacts
  import opened BTreeSplit
  import opened BTreeMerge

  lemma SplitKeepsEntries(h: Heap, sp: Spans, root: nat, g: nat, i: nat, n: nat, at: nat, q: nat, index: map<int, nat>)
    requires SplitPre(h, sp, root, g, i, n, at, q) && Indexed(h, index)
    ensures Indexed(Split(h, g, i, n, at, q), index)
  {
    var h' := Split(h, g, i, n, at, q);
    forall x, j: nat | x in h' && h'[x].Leaf? && j < |h'[x].keys|
      ensures EntryOk(h', index, x, j)
    {
      SplitNode(h, sp, root, g, i, n, at, q, x);
      assert if x == q then EntryOk(h, index, n, at + j) else EntryOk(h, index, x, j);
    }
    forall k | k in index
      ensures Stored(h', k)
    {
      assert Stored(h, k);
      var x :| Holds(h, x, k);
      SplitNode(h, sp, root, g, i, n, at, q, x);
      SplitNode(h, sp, root, g, i, n, at, q, q);
      assert h[n].keys == h[n].keys[..at] + h[n].keys[at..];
      assert Holds(h', x, k) || Holds(h', q, k);
    }
  }

  lemma MergeKeepsEntries(h: Heap, sp: Spans, root: nat, g: nat, i: nat, index: map<int, nat>)
    requires MergePre(h, sp, root, g, i) && AreNeighbours(h, g, i) && Indexed(h, index)
    ensures Indexed(Merge(h, g, i), index)
  {
    Neighbours(h, sp, root, g, i);
    var l, d := h[g].kids[i], h[g].kids[i + 1];
    var h' := Merge(h, g, i);
    forall x, j: nat | x in h' && h'[x].Leaf? && j < |h'[x].keys|
      ensures EntryOk(h', index, x, j)
    {
      MergeNode(h, sp, root, g, i, x);
      if x == l && j >= |h[l].keys| {
        assert EntryOk(h, index, d, j - |h[l].keys|);
      } else {
        assert EntryOk(h, index, x, j);
      }
    }
    forall k | k in index
      ensures Stored(h', k)
    {
      assert Stored(h, k);
      var x :| Holds(h, x, k);
      MergeNode(h, sp, root, g, i, x);
      MergeNode(h, sp, root, g, i, l);
      assert Holds(h', if x == d then l else x, k);
    }
  }

  /** Moves that leave every leaf's entries alone. */
  lemma SameLeavesKeepEntries(h: Heap, h': Heap, index: map<int, nat>)
    requires Indexed(h, index)
    requires forall x :: x in h' && h'[x].Leaf? ==> x in h && h[x].Leaf? && h'[x].keys == h[x].keys && h'[x].recs == h[x].recs
    requires forall x :: x in h && h[x].Leaf? ==> x in h' && h'[x].Leaf?
    ensures Indexed(h', index)
  {
    forall x, j: nat | x in h' && h'[x].Leaf? && j < |h'[x].keys|
      ensures EntryOk(h', index, x, j)
    {
      assert EntryOk(h, index, x, j);
    }
    forall k | k in index
      ensures Stored(h', k)
    {
      assert Stored(h, k);
      var x :| Holds(h, x, k);
      assert Holds(h', x, k);
    }
  }

  lemma PutAddsEntry(h: Heap, n: nat, i: nat, key: int, rec: nat, index: map<int, nat>)
    requires Indexed(h, index) && key !in index
    requires n in h && h[n].Leaf? && i <= |h[n].keys| == |h[n].recs|
    ensures Indexed(h[n := LeafPut(h[n], i, key, rec)], index[key := rec])
  {
    var h', index' := h[n := LeafPut(h[n], i, key, rec)], index[key := rec];
    forall x, j: nat | x in h' && h'[x].Leaf? && j < |h'[x].keys|
      ensures EntryOk(h', index', x, j)
    {
      if x == n && j > i {
        assert EntryOk(h, index, n, j - 1);
      } else if x != n || j < i {
        assert EntryOk(h, index, x, j);
      }
    }
    forall k | k in index'
      ensures Stored(h', k)
    {
      if k == key {
        assert h'[n].keys[i] == key;
        assert Holds(h', n, k);
      } else {
        assert Stored(h, k);
        var x :| Holds(h, x, k);
        if x == n {
          var j :| 0 <= j < |h[n].keys| && h[n].keys[j] == k;
          assert h'[n].keys[if j < i then j else j + 1] == k;
        }
        assert Holds(h', x, k);
      }
    }
  }

  /** A key sits in at most one leaf: the one whose range contains it. */
  lemma OneHome(h: Heap, sp: Spans, root: nat, a: nat, b: nat, k: int)
    requires Shape(h, sp, root) && Holds(h, a, k)
    requires b in h && h[b].Leaf? && sp[b].lo <= k < sp[b].hi
    ensures a == b
  {
    assert NodeOk(h, sp, a) && NodeOk(h, sp, b);
    assert a == b || ApartPair(sp, a, b);
  }

  lemma CutDropsEntry(h: Heap, sp: Spans, root: nat, n: nat, i: nat, index: map<int, nat>)
    requires Shape(h, sp, root) && Indexed(h, index)
    requires n in h && h[n].Leaf? && i < |h[n].keys| == |h[n].recs|
    ensures Indexed(h[n := LeafCut(h[n], i)], index - {h[n].keys[i]})
  {
    var key := h[n].keys[i];
    var h', index' := h[n := LeafCut(h[n], i)], index - {key};
    assert NodeOk(h, sp, n);
    forall x, j: nat | x in h' && h'[x].Leaf? && j < |h'[x].keys|
      ensures EntryOk(h', index', x, j)
    {
      assert EntryOk(h, index, x, if x == n && j >= i then j + 1 else j);
      if x != n && h[x].keys[j] == key {
        OneHome(h, sp, root, x, n, key);
      }
    }
    forall k | k in index'
      ensures Stored(h', k)
    {
      assert Stored(h, k);
      var x :| Holds(h, x, k);
      if x == n {
        var j :| 0 <= j < |h[n].keys| && h[n].keys[j] == k;
        assert h'[n].keys[if j < i then j else j - 1] == k;
      }
      assert Holds(h', x, k);
    }
  }
}
