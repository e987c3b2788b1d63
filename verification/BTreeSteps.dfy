/** The moves, composed the way the code composes them. */
module BTreeSteps {
  import opened BTreeShape
  import opened BTreeMoves
  import opened BTreeFacts
  import opened BTreeSplit
  import opened BTreeMerge
  import opened BTreeEdges
  import opened BTreeContents
  import opened BTreeSizes

  /** A tree whose sizes are right everywhere except, perhaps, at x. */
  ghost predicate AlmostTree(h: Heap, sp: Spans, root: nat, order: nat, x: nat, index: map<int, nat>) {
    order >= 3 && Shape(h, sp, root) && SizesExcept(h, root, order, x) && Indexed(h, index)
  }

  ghost predicate Tree(h: Heap, sp: Spans, root: nat, order: nat, index: map<int, nat>) {
    order >= 3 && Shape(h, sp, root) && Sizes(h, root, order) && Indexed(h, index)
  }

  /** An overfull node n, cut at the place the source chooses, with its right half at q. */
  ghost predicate Overfull(h: Heap, sp: Spans, root: nat, order: nat, n: nat, at: nat, q: nat, index: map<int, nat>) {
    && AlmostTree(h, sp, root, order, n, index)
    && n in h && |h[n].keys| == order && CanCut(h[n], at)
    && at == (if h[n].Leaf? then Cut(order - 1) else Cut(order) - 1)
    && q !in h && q != NULL
  }

  lemma OverfullStep(h: Heap, sp: Spans, root: nat, order: nat, g: nat, i: nat, n: nat, at: nat, q: nat, index: map<int, nat>)
    requires Overfull(h, sp, root, order, n, at, q, index) && IsKid(h, g, i, n)
    ensures g != n && g in Split(h, g, i, n, at, q)
    ensures |Split(h, g, i, n, at, q)[g].keys| == |h[g].keys| + 1
    ensures AlmostTree(Split(h, g, i, n, at, q), SplitSpans(sp, n, Separator(h[n], at), q), root, order, g, index)
  {
    KidFacts(h, sp, root, g, i);
    HalvesGood(h[n], at, q, order);
    SplitShape(h, sp, root, g, i, n, at, q);
    SplitSizes(h, sp, root, g, i, n, at, q, order);
    SplitKeepsEntries(h, sp, root, g, i, n, at, q, index);
    SplitNode(h, sp, root, g, i, n, at, q, g);
  }

  /** OverfullStep, told from the heap in which n is cut and its parent g does not know. */
  lemma BelowStep(h: Heap, sp: Spans, root: nat, order: nat, g: nat, i: nat, n: nat, at: nat, q: nat, index: map<int, nat>)
    requires Overfull(h, sp, root, order, n, at, q, index) && IsKid(h, g, i, n)
    ensures var cut := Halves(h, n, at, q);
            var sp' := SplitSpans(sp, n, Separator(h[n], at), q);
            && g in cut && cut[g] == h[g] && g != n
            && |h[g].keys| < order && SizeOk(cut, root, order, g)
            && AlmostTree(cut[g := AddKid(h[g], i, Separator(h[n], at), q)], sp', root, order, g, index)
            && sp'[g].lvl == sp[n].lvl + 1 && sp'[root].lvl == sp[root].lvl && sp[n].lvl < sp[root].lvl
  {
    OverfullStep(h, sp, root, order, g, i, n, at, q, index);
    HalvesNode(h, sp, root, n, at, q, g);
    KidFacts(h, sp, root, g, i);
    assert SizeOk(h, root, order, g) && LevelOk(sp, root, g);
  }

  /** What insert_into_new_root leaves behind when the old root was cut at at. */
  ghost function NewRootHeap(h: Heap, root: nat, r: nat, at: nat, q: nat): Heap
    requires root in h && CanCut(h[root], at)
  {
    Halves(h, root, at, q)
      [root := Reparent(LeftHalf(h[root], at, q), r)]
      [q := Reparent(RightHalf(h[root], at), r)]
      [r := Inner([Separator(h[root], at)], [root, q], NULL)]
  }

  lemma NewRootNode(h: Heap, sp: Spans, root: nat, r: nat, at: nat, q: nat, x: nat)
    requires Shape(h, sp, root) && CanCut(h[root], at) && x in h
    requires r !in h && r != NULL && q !in h && q != NULL && r != q && x != root
    ensures NewRootHeap(h, root, r, at, q)[x] == if x in Movers(RightHalf(h[root], at)) then Reparent(h[x], q) else h[x]
  {
  }

  lemma GrownKid(h: Heap, root: nat, r: nat, at: nat)
    requires root in h && r !in h && CanCut(h[root], at)
    ensures IsKid(GrowRoot(h, root, r), r, 0, root) && r != root
    ensures CanCut(GrowRoot(h, root, r)[root], at)
  {
  }

  /** insert_into_new_root is a new empty root followed by a split of the old one. */
  lemma NewRootIsSplit(h: Heap, sp: Spans, root: nat, r: nat, at: nat, q: nat)
    requires Shape(h, sp, root) && CanCut(h[root], at)
    requires r !in h && r != NULL && q !in h && q != NULL && r != q
    ensures IsKid(GrowRoot(h, root, r), r, 0, root) && r != root
    ensures Split(GrowRoot(h, root, r), r, 0, root, at, q) == NewRootHeap(h, root, r, at, q)
  {
    GrownKid(h, root, r, at);
    GrowShape(h, sp, root, r);
    var h1, h2 := Split(GrowRoot(h, root, r), r, 0, root, at, q), NewRootHeap(h, root, r, at, q);
    assert h2.Keys == h.Keys + {r, q};
    forall x
      ensures x in h1 <==> x in h2
      ensures x in h1 ==> h1[x] == h2[x]
    {
      SplitNode(GrowRoot(h, root, r), GrowSpans(sp, root, r), r, r, 0, root, at, q, x);
      if x in h2 {
        NewRootSame(h, sp, root, r, at, q, x);
      }
    }
  }

  lemma NewRootSame(h: Heap, sp: Spans, root: nat, r: nat, at: nat, q: nat, x: nat)
    requires Shape(h, sp, root) && CanCut(h[root], at)
    requires r !in h && r != NULL && q !in h && q != NULL && r != q
    requires IsKid(GrowRoot(h, root, r), r, 0, root) && r != root && CanCut(GrowRoot(h, root, r)[root], at)
    requires Shape(GrowRoot(h, root, r), GrowSpans(sp, root, r), r)
    requires x in h || x == r || x == q
    ensures Split(GrowRoot(h, root, r), r, 0, root, at, q)[x] == NewRootHeap(h, root, r, at, q)[x]
  {
    var h0 := GrowRoot(h, root, r);
    SplitNode(h0, GrowSpans(sp, root, r), r, r, 0, root, at, q, x);
    if x == r {
      assert InsertAt<int>([], 0, h[root].keys[at]) == [h[root].keys[at]];
      assert InsertAt([root], 1, q) == [root, q];
    } else if x in h && x != root {
      NewRootNode(h, sp, root, r, at, q, x);
    }
  }

  lemma NewRootStep(h: Heap, sp: Spans, root: nat, order: nat, r: nat, at: nat, q: nat, index: map<int, nat>)
    requires Overfull(h, sp, root, order, root, at, q, index)
    requires r !in h && r != NULL && r != q
    ensures IsKid(GrowRoot(h, root, r), r, 0, root) && r != root
    ensures Tree(Split(GrowRoot(h, root, r), r, 0, root, at, q),
                 SplitSpans(GrowSpans(sp, root, r), root, Separator(h[root], at), q), r, order, index)
  {
    NewRootIsSplit(h, sp, root, r, at, q);
    var h0, sp0 := GrowRoot(h, root, r), GrowSpans(sp, root, r);
    GrowShape(h, sp, root, r);
    SameLeavesKeepEntries(h, h0, index);
    assert CanCut(h0[root], at) && Separator(h0[root], at) == Separator(h[root], at);
    var h1 := Split(h0, r, 0, root, at, q);
    SplitShape(h0, sp0, r, r, 0, root, at, q);
    SplitKeepsEntries(h0, sp0, r, r, 0, root, at, q, index);
    HalvesGood(h0[root], at, q, order);
    forall x | x in h1
      ensures SizeOk(h1, r, order, x)
    {
      SplitNode(h0, sp0, r, r, 0, root, at, q, x);
      assert x == root || x == q || x == r || SizeOk(h, root, order, x);
    }
  }

  // ---------------------------------------------------------------- deletion

  /** Node n, child of g, has fallen one key below its minimum; l and d are n and its neighbour. */
  ghost predicate Underfull(h: Heap, sp: Spans, root: nat, order: nat, g: nat, i: nat, n: nat, index: map<int, nat>) {
    && AlmostTree(h, sp, root, order, n, index)
    && MergePre(h, sp, root, g, i) && AreNeighbours(h, g, i)
    && (n == h[g].kids[i] || n == h[g].kids[i + 1])
    && |h[n].keys| == MinKeys(h[n], order) - 1
  }

  ghost function Capacity(v: View, order: nat): int {
    if v.Leaf? then order else order - 1
  }

  lemma MergeStep(h: Heap, sp: Spans, root: nat, order: nat, g: nat, i: nat, n: nat, index: map<int, nat>)
    requires Underfull(h, sp, root, order, g, i, n, index)
    requires |h[h[g].kids[i]].keys| + |h[h[g].kids[i + 1]].keys| < Capacity(h[n], order)
    ensures var l, d := h[g].kids[i], h[g].kids[i + 1];
            AlmostTree(Merge(h, g, i), MergeSpans(sp, l, d), root, order, g, index)
    ensures g in Merge(h, g, i) && |Merge(h, g, i)[g].keys| == |h[g].keys| - 1
  {
    Neighbours(h, sp, root, g, i);
    var l, d := h[g].kids[i], h[g].kids[i + 1];
    assert SizeOk(h, root, order, if n == l then d else l);
    MergeShape(h, sp, root, g, i);
    MergeSizes(h, sp, root, g, i, n, order);
    MergeKeepsEntries(h, sp, root, g, i, index);
  }

  /** The heap after redistribute_nodes: the two neighbours are cut anew at at. */
  ghost function Recutted(h: Heap, g: nat, i: nat, at: nat): Heap
    requires AreNeighbours(h, g, i)
    requires CanCut(Joined(h[h[g].kids[i]], h[g].keys[i], h[h[g].kids[i + 1]]), at)
  {
    var l, d := h[g].kids[i], h[g].kids[i + 1];
    var j := Joined(h[l], h[g].keys[i], h[d]);
    Adopt(Adopt(h, Movers(LeftHalf(j, at, d)), l), Movers(RightHalf(j, at)), d)
      [l := LeftHalf(j, at, d)]
      [d := RightHalf(j, at)]
      [g := Inner(h[g].keys[i := Separator(j, at)], h[g].kids, h[g].parent)]
  }

  ghost predicate RecutPre(h: Heap, sp: Spans, root: nat, g: nat, i: nat, at: nat) {
    && MergePre(h, sp, root, g, i) && AreNeighbours(h, g, i)
    && CanCut(Joined(h[h[g].kids[i]], h[g].keys[i], h[h[g].kids[i + 1]]), at)
  }

  lemma RecutSplitPre(h: Heap, sp: Spans, root: nat, g: nat, i: nat, at: nat)
    requires RecutPre(h, sp, root, g, i, at)
    ensures var l, d := h[g].kids[i], h[g].kids[i + 1];
            && SplitPre(Merge(h, g, i), MergeSpans(sp, l, d), root, g, i, l, at, d)
            && Merge(h, g, i)[l] == Joined(h[l], h[g].keys[i], h[d])
            && Merge(h, g, i)[g] == DropKid(h[g], i)
  {
    var l, d := h[g].kids[i], h[g].kids[i + 1];
    Neighbours(h, sp, root, g, i);
    MergeShape(h, sp, root, g, i);
    MergeNode(h, sp, root, g, i, l);
    MergeNode(h, sp, root, g, i, g);
    MergeNode(h, sp, root, g, i, d);
  }

  /** Where a child of one of the two neighbours hangs after the new cut. */
  lemma RecutChild(h: Heap, sp: Spans, root: nat, g: nat, i: nat, at: nat, x: nat)
    requires RecutPre(h, sp, root, g, i, at)
    requires x in h
    ensures var l, d := h[g].kids[i], h[g].kids[i + 1];
            var j := Joined(h[l], h[g].keys[i], h[d]);
            && (x in Movers(h[d]) && x !in Movers(RightHalf(j, at)) ==> x in Movers(LeftHalf(j, at, d)))
            && (x in Movers(LeftHalf(j, at, d)) ==> x in Movers(h[d]) || h[x].parent == l)
            && (x in Movers(h[l]) || x in Movers(h[d]) ==> x != l && x != d && x != g)
            && (x in Movers(LeftHalf(j, at, d)) || x in Movers(RightHalf(j, at)) ==> x in Movers(h[l]) || x in Movers(h[d]))
  {
    Neighbours(h, sp, root, g, i);
    var l, d := h[g].kids[i], h[g].kids[i + 1];
    var j := Joined(h[l], h[g].keys[i], h[d]);
    if j.Inner? {
      assert j.kids == j.kids[..at + 1] + j.kids[at + 1..];
      assert x in h[d].kids ==> x in j.kids;
      if x in h[d].kids {
        var _ := BTreeMerge.MoverFacts(h, sp, root, g, i, x);
      }
      if x in h[l].kids {
        var k :| 0 <= k < |h[l].kids| && h[l].kids[k] == x;
        KidFacts(h, sp, root, l, k);
      }
    }
  }

  lemma SameHeap(a: Heap, b: Heap)
    requires forall x :: x in a <==> x in b
    requires forall x :: x in a ==> a[x] == b[x]
    ensures a == b
  {
  }

  /** Redistribution is a merge followed by a split of the merged node at another place. */
  lemma RecutIsMergeSplit(h: Heap, sp: Spans, root: nat, g: nat, i: nat, at: nat)
    requires RecutPre(h, sp, root, g, i, at)
    requires var l, d := h[g].kids[i], h[g].kids[i + 1];
             SplitPre(Merge(h, g, i), MergeSpans(sp, l, d), root, g, i, l, at, d)
    ensures Recutted(h, g, i, at) == Split(Merge(h, g, i), g, i, h[g].kids[i], at, h[g].kids[i + 1])
  {
    var h1, h2 := Recutted(h, g, i, at), Split(Merge(h, g, i), g, i, h[g].kids[i], at, h[g].kids[i + 1]);
    forall x
      ensures x in h1 <==> x in h2
      ensures x in h1 ==> h1[x] == h2[x]
    {
      RecutSame(h, sp, root, g, i, at, x);
      assert x in h1 <==> x in h;
    }
    SameHeap(h1, h2);
  }

  lemma RecutSame(h: Heap, sp: Spans, root: nat, g: nat, i: nat, at: nat, x: nat)
    requires RecutPre(h, sp, root, g, i, at)
    requires var l, d := h[g].kids[i], h[g].kids[i + 1];
             SplitPre(Merge(h, g, i), MergeSpans(sp, l, d), root, g, i, l, at, d)
    ensures x in h <==> x in Split(Merge(h, g, i), g, i, h[g].kids[i], at, h[g].kids[i + 1])
    ensures x in h ==> Recutted(h, g, i, at)[x] == Split(Merge(h, g, i), g, i, h[g].kids[i], at, h[g].kids[i + 1])[x]
  {
    var l, d := h[g].kids[i], h[g].kids[i + 1];
    RecutSplitPre(h, sp, root, g, i, at);
    SplitNode(Merge(h, g, i), MergeSpans(sp, l, d), root, g, i, l, at, d, x);
    MergeNode(h, sp, root, g, i, x);
    if x in h {
      RecutNode(h, sp, root, g, i, at, x);
    }
  }

  lemma RecutNode(h: Heap, sp: Spans, root: nat, g: nat, i: nat, at: nat, x: nat)
    requires RecutPre(h, sp, root, g, i, at) && x in h
    requires var l, d := h[g].kids[i], h[g].kids[i + 1];
             && SplitPre(Merge(h, g, i), MergeSpans(sp, l, d), root, g, i, l, at, d)
             && Merge(h, g, i)[l] == Joined(h[l], h[g].keys[i], h[d])
             && Merge(h, g, i)[g] == DropKid(h[g], i)
             && (x == d || x in Merge(h, g, i))
    requires x != h[g].kids[i + 1] ==> Merge(h, g, i)[x] == MergeView(h, g, i, x)
    ensures Recutted(h, g, i, at)[x] == SplitView(Merge(h, g, i), g, i, h[g].kids[i], at, h[g].kids[i + 1], x)
  {
    var l, d := h[g].kids[i], h[g].kids[i + 1];
    if x == g {
      DropAddKid(h[g], i, Separator(Joined(h[l], h[g].keys[i], h[d]), at), d);
    } else if x != l && x != d {
      RecutChild(h, sp, root, g, i, at, x);
      RecutOther(h, g, i, at, x);
    }
  }

  /** Dropping a child and entering it again only changes the separator. */
  lemma DropAddKid(v: View, i: nat, sep: int, d: nat)
    requires v.Inner? && i < |v.keys| && |v.kids| == |v.keys| + 1 && v.kids[i + 1] == d
    ensures AddKid(DropKid(v, i), i, sep, d) == Inner(v.keys[i := sep], v.kids, v.parent)
  {
    assert InsertAt(RemoveAt(v.kids, i + 1), i + 1, d) == v.kids;
    assert InsertAt(RemoveAt(v.keys, i), i, sep) == v.keys[i := sep];
  }

  /** A node that is none of the three involved changes, at most, its parent pointer. */
  lemma RecutOther(h: Heap, g: nat, i: nat, at: nat, x: nat)
    requires AreNeighbours(h, g, i) && x in h && x != g && x != h[g].kids[i] && x != h[g].kids[i + 1]
    requires CanCut(Joined(h[h[g].kids[i]], h[g].keys[i], h[h[g].kids[i + 1]]), at)
    requires var l, d := h[g].kids[i], h[g].kids[i + 1];
             var j := Joined(h[l], h[g].keys[i], h[d]);
             && (x in Movers(h[d]) && x !in Movers(RightHalf(j, at)) ==> x in Movers(LeftHalf(j, at, d)))
             && (x in Movers(LeftHalf(j, at, d)) ==> x in Movers(h[d]) || h[x].parent == l)
    ensures var l, d := h[g].kids[i], h[g].kids[i + 1];
            var j := Joined(h[l], h[g].keys[i], h[d]);
            Recutted(h, g, i, at)[x] ==
              if x in Movers(RightHalf(j, at)) then Reparent(MergeView(h, g, i, x), d) else MergeView(h, g, i, x)
  {
    var l, d := h[g].kids[i], h[g].kids[i + 1];
    assert Reparent(Reparent(h[x], l), d) == Reparent(h[x], d);
    assert h[x].parent == l ==> Reparent(h[x], l) == h[x];
  }

  lemma RecutStep(h: Heap, sp: Spans, root: nat, order: nat, g: nat, i: nat, n: nat, at: nat, index: map<int, nat>)
    requires Underfull(h, sp, root, order, g, i, n, index) && RecutPre(h, sp, root, g, i, at)
    requires var j := Joined(h[h[g].kids[i]], h[g].keys[i], h[h[g].kids[i + 1]]);
             GoodSize(LeftHalf(j, at, NULL), order) && GoodSize(RightHalf(j, at), order)
    ensures var l, d := h[g].kids[i], h[g].kids[i + 1];
            var sep := Separator(Joined(h[l], h[g].keys[i], h[d]), at);
            Tree(Recutted(h, g, i, at), SplitSpans(MergeSpans(sp, l, d), l, sep, d), root, order, index)
  {
    var l, d := h[g].kids[i], h[g].kids[i + 1];
    Neighbours(h, sp, root, g, i);
    RecutSplitPre(h, sp, root, g, i, at);
    RecutIsMergeSplit(h, sp, root, g, i, at);
    var m, msp := Merge(h, g, i), MergeSpans(sp, l, d);
    MergeKeepsEntries(h, sp, root, g, i, index);
    SplitKeepsEntries(m, msp, root, g, i, l, at, d, index);
    SplitShape(m, msp, root, g, i, l, at, d);
    RecutSizes(h, sp, root, order, g, i, n, at);
  }

  lemma RecutSizes(h: Heap, sp: Spans, root: nat, order: nat, g: nat, i: nat, n: nat, at: nat)
    requires RecutPre(h, sp, root, g, i, at) && SizesExcept(h, root, order, n)
    requires n == h[g].kids[i] || n == h[g].kids[i + 1]
    requires var j := Joined(h[h[g].kids[i]], h[g].keys[i], h[h[g].kids[i + 1]]);
             GoodSize(LeftHalf(j, at, NULL), order) && GoodSize(RightHalf(j, at), order)
    ensures Sizes(Recutted(h, g, i, at), root, order)
  {
    Neighbours(h, sp, root, g, i);
    var h' := Recutted(h, g, i, at);
    forall x | x in h'
      ensures SizeOk(h', root, order, x)
    {
      RecutKeys(h, g, i, at, x);
      assert x == n || SizeOk(h, root, order, x);
    }
  }

  lemma RecutKeys(h: Heap, g: nat, i: nat, at: nat, x: nat)
    requires AreNeighbours(h, g, i) && x in h
    requires CanCut(Joined(h[h[g].kids[i]], h[g].keys[i], h[h[g].kids[i + 1]]), at)
    ensures var l, d := h[g].kids[i], h[g].kids[i + 1];
            var j := Joined(h[l], h[g].keys[i], h[d]);
            && x in Recutted(h, g, i, at)
            && Recutted(h, g, i, at)[x].Leaf? == h[x].Leaf?
            && |Recutted(h, g, i, at)[x].keys| ==
               |(if x == l then LeftHalf(j, at, d) else if x == d then RightHalf(j, at) else h[x]).keys|
  {
  }

  /** The sizes redistribute_nodes can count on: taking one key leaves the neighbour legal. */
  lemma RedistributeSizes(l: View, sep: int, d: View, order: nat, fromLeft: bool)
    requires order >= 3 && (l.Leaf? <==> d.Leaf?) && |l.keys| < order && |d.keys| < order
    requires |l.keys| + |d.keys| >= Capacity(l, order)
    requires l.Leaf? ==> |l.recs| == |l.keys| && |d.recs| == |d.keys|
    requires l.Inner? ==> |l.kids| == |l.keys| + 1 && |d.kids| == |d.keys| + 1
    requires |(if fromLeft then d else l).keys| == MinKeys(l, order) - 1
    ensures |(if fromLeft then l else d).keys| >= 2 || (l.Inner? && |(if fromLeft then l else d).keys| >= 1)
    ensures var at: nat := if fromLeft && |l.keys| > 0 then |l.keys| - 1 else |l.keys| + 1;
            var j := Joined(l, sep, d);
            CanCut(j, at) && GoodSize(LeftHalf(j, at, NULL), order) && GoodSize(RightHalf(j, at), order)
  {
  }

  /** A tree whose root is a leaf has no other node. */
  lemma LoneLeaf(h: Heap, sp: Spans, root: nat)
    requires Shape(h, sp, root) && h[root].Leaf?
    ensures h.Keys == {root}
  {
    forall n | n in h
      ensures n == root
    {
      assert ParentOk(h, root, n) && NodeOk(h, sp, root);
      var p := if n == root then root else h[n].parent;
      assert NodeOk(h, sp, p) && LevelOk(sp, root, p);
    }
  }

  lemma EmptyIndex(h: Heap, root: nat, index: map<int, nat>)
    requires h.Keys == {root} && Indexed(h, index) && |h[root].keys| == 0
    ensures index == map[]
  {
    forall k
      ensures k !in index
    {
      assert k in index ==> Stored(h, k);
    }
  }

  /** adjust_root, when the only child of an empty root becomes the root. */
  lemma ShrinkStep(h: Heap, sp: Spans, root: nat, order: nat, index: map<int, nat>)
    requires AlmostTree(h, sp, root, order, root, index) && h[root].Inner? && |h[root].keys| == 0
    ensures |h[root].kids| == 1 && h[root].kids[0] in h && h[root].kids[0] != root
    ensures Tree(ShrinkRoot(h, root), sp - {root}, h[root].kids[0], order, index)
  {
    ShrinkShape(h, sp, root);
    var c := h[root].kids[0];
    var h' := ShrinkRoot(h, root);
    SameLeavesKeepEntries(h, h', index);
    forall x | x in h'
      ensures SizeOk(h', c, order, x)
    {
      assert SizeOk(h, root, order, x);
    }
  }

  /** The next pointer of a leaf names its right neighbour. */
  lemma NextIsNeighbour(h: Heap, sp: Spans, root: nat, g: nat, i: nat)
    requires MergePre(h, sp, root, g, i) && AreNeighbours(h, g, i) && h[h[g].kids[i]].Leaf?
    ensures h[h[g].kids[i]].next == h[g].kids[i + 1]
  {
    Neighbours(h, sp, root, g, i);
    var l, d := h[g].kids[i], h[g].kids[i + 1];
    UpperBound(h, sp, root, d);
    assert LinkOk(h, sp, l);
    var x := h[l].next;
    assert NodeOk(h, sp, x);
    assert x == d || ApartPair(sp, x, d);
  }

  /** Two leaves cut anew: no child moves. */
  lemma RecutLeaves(h: Heap, sp: Spans, root: nat, g: nat, i: nat, at: nat)
    requires RecutPre(h, sp, root, g, i, at) && h[h[g].kids[i]].Leaf?
    ensures var l, d := h[g].kids[i], h[g].kids[i + 1];
            var j := Joined(h[l], h[g].keys[i], h[d]);
            Recutted(h, g, i, at) ==
              h[l := LeftHalf(j, at, d)][d := RightHalf(j, at)]
               [g := Inner(h[g].keys[i := Separator(j, at)], h[g].kids, h[g].parent)]
  {
  }

  /** Two inner nodes cut anew one place to the left or right: one child c changes its parent. */
  lemma RecutNodes(h: Heap, sp: Spans, root: nat, g: nat, i: nat, at: nat)
    requires RecutPre(h, sp, root, g, i, at) && h[h[g].kids[i]].Inner?
    requires at + 1 == |h[h[g].kids[i]].keys| || at == |h[h[g].kids[i]].keys| + 1
    ensures var l, d := h[g].kids[i], h[g].kids[i + 1];
            var j := Joined(h[l], h[g].keys[i], h[d]);
            var c := j.kids[if at < |h[l].keys| then at + 1 else at];
            && c in h && c != l && c != d && c != g
            && Recutted(h, g, i, at) ==
              h[c := Reparent(h[c], if at < |h[l].keys| then d else l)]
               [l := LeftHalf(j, at, d)][d := RightHalf(j, at)]
               [g := Inner(h[g].keys[i := Separator(j, at)], h[g].kids, h[g].parent)]
  {
    Neighbours(h, sp, root, g, i);
    var l, d := h[g].kids[i], h[g].kids[i + 1];
    var j := Joined(h[l], h[g].keys[i], h[d]);
    var m := if at < |h[l].keys| then at + 1 else at;
    JoinedKid(h, sp, root, g, i, m);
    forall x | x in h
      ensures Adopt(Adopt(h, Movers(LeftHalf(j, at, d)), l), Movers(RightHalf(j, at)), d)[x]
           == if x == j.kids[m] then Reparent(h[x], if at < |h[l].keys| then d else l) else h[x]
    {
      AdoptTwice(h, j, at, l, d, x);
      RecutKid(h, sp, root, g, i, at, m, x);
    }
  }

  /** Child k of the joined node, and the neighbour it came from. */
  lemma JoinedKid(h: Heap, sp: Spans, root: nat, g: nat, i: nat, k: nat)
    requires MergePre(h, sp, root, g, i) && AreNeighbours(h, g, i) && h[h[g].kids[i]].Inner?
    requires k < |Joined(h[h[g].kids[i]], h[g].keys[i], h[h[g].kids[i + 1]]).kids|
    ensures var l, d := h[g].kids[i], h[g].kids[i + 1];
            var c := Joined(h[l], h[g].keys[i], h[d]).kids[k];
            && c in h && c != l && c != d && c != g
            && h[c].parent == (if k < |h[l].kids| then l else d)
            && sp[c].lvl + 1 == sp[l].lvl && sp[c].lvl + 1 == sp[d].lvl
  {
    Neighbours(h, sp, root, g, i);
    var l, d := h[g].kids[i], h[g].kids[i + 1];
    if k < |h[l].kids| {
      KidFacts(h, sp, root, l, k);
    } else {
      KidFacts(h, sp, root, d, k - |h[l].kids|);
    }
  }

  lemma JoinedKidsDiffer(h: Heap, sp: Spans, root: nat, g: nat, i: nat, a: nat, b: nat)
    requires MergePre(h, sp, root, g, i) && AreNeighbours(h, g, i) && h[h[g].kids[i]].Inner?
    requires a < b < |Joined(h[h[g].kids[i]], h[g].keys[i], h[h[g].kids[i + 1]]).kids|
    ensures var j := Joined(h[h[g].kids[i]], h[g].keys[i], h[h[g].kids[i + 1]]); j.kids[a] != j.kids[b]
  {
    Neighbours(h, sp, root, g, i);
    JoinedKid(h, sp, root, g, i, a);
    JoinedKid(h, sp, root, g, i, b);
    var l, d := h[g].kids[i], h[g].kids[i + 1];
    var k := |h[l].kids|;
    if b < k {
      KidsDiffer(h, sp, root, l, a, b);
    } else if k <= a {
      KidsDiffer(h, sp, root, d, a - k, b - k);
    }
  }

  /** Child k of the joined node goes to the left half exactly when k is not above at. */
  lemma RecutSide(h: Heap, sp: Spans, root: nat, g: nat, i: nat, at: nat, k: nat)
    requires RecutPre(h, sp, root, g, i, at) && h[h[g].kids[i]].Inner?
    requires k < |Joined(h[h[g].kids[i]], h[g].keys[i], h[h[g].kids[i + 1]]).kids|
    ensures var j := Joined(h[h[g].kids[i]], h[g].keys[i], h[h[g].kids[i + 1]]);
            && (j.kids[k] in j.kids[..at + 1] <==> k <= at)
            && (j.kids[k] in j.kids[at + 1..] <==> k > at)
  {
    var j := Joined(h[h[g].kids[i]], h[g].keys[i], h[h[g].kids[i + 1]]);
    var low, high := j.kids[..at + 1], j.kids[at + 1..];
    if k <= at {
      assert low[k] == j.kids[k];
      forall m | 0 <= m < |high|
        ensures high[m] != j.kids[k]
      {
        JoinedKidsDiffer(h, sp, root, g, i, k, at + 1 + m);
      }
    } else {
      assert high[k - at - 1] == j.kids[k];
      forall m | 0 <= m < |low|
        ensures low[m] != j.kids[k]
      {
        JoinedKidsDiffer(h, sp, root, g, i, m, k);
      }
    }
  }

  /** After the new cut, x has the parent it should have. */
  ghost function Rehung(h: Heap, j: View, at: nat, l: nat, d: nat, x: nat): View
    requires x in h && j.Inner? && CanCut(j, at)
  {
    if x in j.kids[at + 1..] then Reparent(h[x], d) else if x in j.kids[..at + 1] then Reparent(h[x], l) else h[x]
  }

  lemma AdoptTwice(h: Heap, j: View, at: nat, l: nat, d: nat, x: nat)
    requires x in h && j.Inner? && CanCut(j, at)
    ensures Adopt(Adopt(h, Movers(LeftHalf(j, at, d)), l), Movers(RightHalf(j, at)), d)[x] == Rehung(h, j, at, l, d, x)
  {
  }

  lemma RecutKid(h: Heap, sp: Spans, root: nat, g: nat, i: nat, at: nat, m: nat, x: nat)
    requires RecutPre(h, sp, root, g, i, at) && h[h[g].kids[i]].Inner? && x in h
    requires at + 1 == |h[h[g].kids[i]].keys| || at == |h[h[g].kids[i]].keys| + 1
    requires m == if at < |h[h[g].kids[i]].keys| then at + 1 else at
    ensures var l, d := h[g].kids[i], h[g].kids[i + 1];
            var j := Joined(h[l], h[g].keys[i], h[d]);
            m < |j.kids| &&
            Rehung(h, j, at, l, d, x) == if x == j.kids[m] then Reparent(h[x], if at < |h[l].keys| then d else l) else h[x]
  {
    var l, d := h[g].kids[i], h[g].kids[i + 1];
    var j := Joined(h[l], h[g].keys[i], h[d]);
    Neighbours(h, sp, root, g, i);
    assert x in j.kids[..at + 1] || x in j.kids[at + 1..] ==> x in j.kids;
    if x in j.kids {
      var k :| 0 <= k < |j.kids| && j.kids[k] == x;
      JoinedKid(h, sp, root, g, i, k);
      RecutSide(h, sp, root, g, i, at, k);
      if k < m {
        JoinedKidsDiffer(h, sp, root, g, i, k, m);
      } else if m < k {
        JoinedKidsDiffer(h, sp, root, g, i, m, k);
      }
    }
  }

  /** coalesce_nodes points every child of the joined node at it; only the new ones change. */
  lemma AdoptOwn(h: Heap, own: seq<nat>, more: seq<nat>, p: nat)
    requires forall c :: c in own && c in h ==> h[c].parent == p
    ensures Adopt(h, own + more, p) == Adopt(h, more, p)
  {
    forall x | x in h
      ensures Adopt(h, own + more, p)[x] == Adopt(h, more, p)[x]
    {
      assert x in own ==> Reparent(h[x], p) == h[x];
    }
  }

  /** Where redistribute_nodes cuts the two neighbours anew. */
  ghost function RecutPlace(h: Heap, g: nat, i: nat, n: nat): int
    requires AreNeighbours(h, g, i)
  {
    var l, d := h[g].kids[i], h[g].kids[i + 1];
    if n == d then |h[l].keys| - 1 else |h[l].keys| + 1
  }

  ghost function RecutSpans(h: Heap, sp: Spans, g: nat, i: nat, at: nat): Spans
    requires AreNeighbours(h, g, i) && h.Keys == sp.Keys
    requires CanCut(Joined(h[h[g].kids[i]], h[g].keys[i], h[h[g].kids[i + 1]]), at)
  {
    var l, d := h[g].kids[i], h[g].kids[i + 1];
    SplitSpans(MergeSpans(sp, l, d), l, Separator(Joined(h[l], h[g].keys[i], h[d]), at), d)
  }

  /** When the two neighbours together are too big to merge, cutting them anew restores the tree. */
  lemma RedistributeStep(h: Heap, sp: Spans, root: nat, order: nat, g: nat, i: nat, n: nat, index: map<int, nat>)
    requires Underfull(h, sp, root, order, g, i, n, index)
    requires |h[h[g].kids[i]].keys| + |h[h[g].kids[i + 1]].keys| >= Capacity(h[n], order)
    ensures var l, d := h[g].kids[i], h[g].kids[i + 1];
            var at := RecutPlace(h, g, i, n);
            && at >= 0 && RecutPre(h, sp, root, g, i, at)
            && |h[l].keys| < order && |h[d].keys| < order
            && |h[if n == d then l else d].keys| >= (if h[l].Leaf? then 2 else 1)
            && |h[n].keys| < order - 1
            && Tree(Recutted(h, g, i, at), RecutSpans(h, sp, g, i, at), root, order, index)
  {
    Neighbours(h, sp, root, g, i);
    var l, d := h[g].kids[i], h[g].kids[i + 1];
    assert SizeOk(h, root, order, if n == d then l else d);
    RedistributeSizes(h[l], h[g].keys[i], h[d], order, n == d);
    RecutStep(h, sp, root, order, g, i, n, RecutPlace(h, g, i, n), index);
  }

  /** Once the last node has its size, the tree is whole again. */
  lemma Completed(h: Heap, sp: Spans, root: nat, order: nat, x: nat, index: map<int, nat>)
    requires AlmostTree(h, sp, root, order, x, index) && SizeOk(h, root, order, x)
    ensures root != NULL && Tree(h, sp, root, order, index)
  {
  }
}
