/** Node sizes through a move: the only node a move may leave with a wrong size is the parent. */
module BTreeSizes {
  import opened BTreeShape
  import opened BTreeMoves
  import opened BTreeFacts
  import opened BTreeSplit
  import opened BTreeMerge

  ghost predicate GoodSize(v: View, order: nat) {
    MinKeys(v, order) <= |v.keys| < order
  }

  lemma SplitSizes(h: Heap, sp: Spans, root: nat, g: nat, i: nat, n: nat, at: nat, q: nat, order: nat)
    requires SplitPre(h, sp, root, g, i, n, at, q) && SizesExcept(h, root, order, n)
    requires GoodSize(LeftHalf(h[n], at, q), order) && GoodSize(RightHalf(h[n], at), order)
    ensures SizesExcept(Split(h, g, i, n, at, q), root, order, g)
    ensures |Split(h, g, i, n, at, q)[g].keys| == |h[g].keys| + 1
  {
    SplitSep(h, sp, root, g, i, n, at, q);
    var h' := Split(h, g, i, n, at, q);
    SplitNode(h, sp, root, g, i, n, at, q, g);
    assert RootOk(h, sp, root);
    forall x | x in h' && x != g
      ensures SizeOk(h', root, order, x)
    {
      SplitNode(h, sp, root, g, i, n, at, q, x);
      assert x == n || x == q || SizeOk(h, root, order, x);
    }
  }

  lemma MergeSizes(h: Heap, sp: Spans, root: nat, g: nat, i: nat, n: nat, order: nat)
    requires MergePre(h, sp, root, g, i) && AreNeighbours(h, g, i)
    requires n == h[g].kids[i] || n == h[g].kids[i + 1]
    requires SizesExcept(h, root, order, n)
    requires GoodSize(Joined(h[h[g].kids[i]], h[g].keys[i], h[h[g].kids[i + 1]]), order)
    ensures SizesExcept(Merge(h, g, i), root, order, g)
    ensures g in Merge(h, g, i) && |Merge(h, g, i)[g].keys| == |h[g].keys| - 1
  {
    Neighbours(h, sp, root, g, i);
    var h' := Merge(h, g, i);
    MergeNode(h, sp, root, g, i, g);
    forall x | x in h' && x != g
      ensures SizeOk(h', root, order, x)
    {
      MergeNode(h, sp, root, g, i, x);
      assert x == n || SizeOk(h, root, order, x);
    }
  }

  /** An overfull leaf or node, cut where the source cuts it, gives two nodes of legal size. */
  lemma HalvesGood(v: View, at: nat, q: nat, order: nat)
    requires order >= 3 && CanCut(v, at) && |v.keys| == order
    requires at == if v.Leaf? then Cut(order - 1) else Cut(order) - 1
    ensures GoodSize(LeftHalf(v, at, q), order) && GoodSize(RightHalf(v, at), order)
  {
  }
}
