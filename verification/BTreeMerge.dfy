/** Joining two neighbouring children keeps the shape of the tree. */
module BTreeMerge {
  import opened BTreeShape
  import opened BTreeMoves
  import opened BTreeFacts

  ghost predicate MergePre(h: Heap, sp: Spans, root: nat, g: nat, i: nat) {
    && Shape(h, sp, root)
    && g in h && h[g].Inner?
    && i < |h[g].keys| && |h[g].kids| == |h[g].keys| + 1
  }

  lemma Neighbours(h: Heap, sp: Spans, root: nat, g: nat, i: nat)
    requires MergePre(h, sp, root, g, i)
    ensures AreNeighbours(h, g, i)
    ensures var l, d := h[g].kids[i], h[g].kids[i + 1];
            && l != root && d != root && h[l].parent == g && h[d].parent == g
            && sp[g].lvl == sp[l].lvl + 1 && sp[g].lvl == sp[d].lvl + 1
            && sp[l].lo == KidLo(h[g].keys, sp[g].lo, i) && sp[d].hi == KidHi(h[g].keys, sp[g].hi, i + 1)
            && sp[l].hi == h[g].keys[i] && sp[d].lo == h[g].keys[i]
            && NodeOk(h, sp, g) && NodeOk(h, sp, l) && NodeOk(h, sp, d)
  {
    KidFacts(h, sp, root, g, i);
    KidFacts(h, sp, root, g, i + 1);
    KidsDiffer(h, sp, root, g, i, i + 1);
    assert NodeOk(h, sp, h[g].kids[i]);
    assert NodeOk(h, sp, h[g].kids[i + 1]);
    assert NodeOk(h, sp, g);
  }

  lemma MoverFacts(h: Heap, sp: Spans, root: nat, g: nat, i: nat, x: nat) returns (j: nat)
    requires MergePre(h, sp, root, g, i) && AreNeighbours(h, g, i)
    requires x in Movers(h[h[g].kids[i + 1]])
    ensures var d := h[g].kids[i + 1];
            h[d].Inner? && j < |h[d].kids| && h[d].kids[j] == x && x in h && h[x].parent == d
    ensures x in h && x != h[g].kids[i] && x != h[g].kids[i + 1] && x != g && x != root
  {
    Neighbours(h, sp, root, g, i);
    var d := h[g].kids[i + 1];
    j :| 0 <= j < |h[d].kids| && h[d].kids[j] == x;
    KidFacts(h, sp, root, d, j);
  }

  /** Node x of the heap after a merge. */
  ghost function MergeView(h: Heap, g: nat, i: nat, x: nat): View
    requires AreNeighbours(h, g, i) && x in h
  {
    var l, d := h[g].kids[i], h[g].kids[i + 1];
    if x == l then Joined(h[l], h[g].keys[i], h[d])
    else if x == g then DropKid(h[g], i)
    else if x in Movers(h[d]) then Reparent(h[x], l)
    else h[x]
  }

  lemma MergeNode(h: Heap, sp: Spans, root: nat, g: nat, i: nat, x: nat)
    requires MergePre(h, sp, root, g, i) && AreNeighbours(h, g, i)
    ensures x in Merge(h, g, i) <==> x in h && x != h[g].kids[i + 1]
    ensures x in h && x != h[g].kids[i + 1] ==> Merge(h, g, i)[x] == MergeView(h, g, i, x)
  {
    if x in Movers(h[h[g].kids[i + 1]]) {
      var _ := MoverFacts(h, sp, root, g, i, x);
    }
  }

  lemma JoinedLocal(l: View, sl: Span, d: View, sd: Span)
    requires LocalOk(l, sl) && LocalOk(d, sd) && sl.lvl == sd.lvl && sl.hi == sd.lo
    ensures l.Leaf? <==> d.Leaf?
    ensures LocalOk(Joined(l, sl.hi, d), sl.(hi := sd.hi))
  {
    var keys := Joined(l, sl.hi, d).keys;
    var k := |keys| - |d.keys|;
    assert forall a :: k <= a < |keys| ==> keys[a] == d.keys[a - k];
    assert forall a :: 0 <= a < |l.keys| ==> keys[a] == l.keys[a];
  }

  lemma DropKidLocal(v: View, s: Span, i: nat)
    requires LocalOk(v, s) && v.Inner? && i < |v.keys|
    ensures LocalOk(DropKid(v, i), s)
  {
  }

  lemma MergeLocals(h: Heap, sp: Spans, root: nat, g: nat, i: nat)
    requires MergePre(h, sp, root, g, i) && AreNeighbours(h, g, i)
    ensures Locals(Merge(h, g, i), MergeSpans(sp, h[g].kids[i], h[g].kids[i + 1]))
  {
    Neighbours(h, sp, root, g, i);
    var l, d := h[g].kids[i], h[g].kids[i + 1];
    var h', sp' := Merge(h, g, i), MergeSpans(sp, l, d);
    assert h'.Keys == h.Keys - {d};
    forall x | x in h'
      ensures NodeOk(h', sp', x)
    {
      MergeNode(h, sp, root, g, i, x);
      if x == l {
        JoinedLocal(h[l], sp[l], h[d], sp[d]);
      } else {
        assert NodeOk(h, sp, x);
        if x == g {
          DropKidLocal(h[g], sp[g], i);
        }
      }
    }
  }

  lemma MergeKidsOfParent(h: Heap, sp: Spans, root: nat, g: nat, i: nat, j: nat)
    requires MergePre(h, sp, root, g, i) && AreNeighbours(h, g, i)
    requires j < |h[g].keys|
    ensures KidOk(Merge(h, g, i), MergeSpans(sp, h[g].kids[i], h[g].kids[i + 1]), g, j)
  {
    Neighbours(h, sp, root, g, i);
    MergeNode(h, sp, root, g, i, g);
    var k := if j <= i then j else j + 1;
    KidFacts(h, sp, root, g, k);
    var c := h[g].kids[k];
    assert Merge(h, g, i)[g].kids[j] == c;
    MergeNode(h, sp, root, g, i, c);
    KidsDiffer(h, sp, root, g, k, i + 1);
    if k != i {
      KidsDiffer(h, sp, root, g, k, i);
    }
    if c in Movers(h[h[g].kids[i + 1]]) {
      var _ := MoverFacts(h, sp, root, g, i, c);
      assert false;
    }
  }

  lemma MergeKidsOfJoined(h: Heap, sp: Spans, root: nat, g: nat, i: nat, j: nat)
    requires MergePre(h, sp, root, g, i) && AreNeighbours(h, g, i)
    requires h[h[g].kids[i]].Inner? && j < |h[h[g].kids[i]].kids| + |h[h[g].kids[i + 1]].kids|
    ensures KidOk(Merge(h, g, i), MergeSpans(sp, h[g].kids[i], h[g].kids[i + 1]), h[g].kids[i], j)
  {
    Neighbours(h, sp, root, g, i);
    var l, d := h[g].kids[i], h[g].kids[i + 1];
    MergeNode(h, sp, root, g, i, l);
    var k := if j < |h[l].kids| then j else j - |h[l].kids|;
    var p := if j < |h[l].kids| then l else d;
    KidFacts(h, sp, root, p, k);
    var c := h[p].kids[k];
    assert Merge(h, g, i)[l].kids[j] == c;
    MergeNode(h, sp, root, g, i, c);
  }

  lemma MergeKidsOfOther(h: Heap, sp: Spans, root: nat, g: nat, i: nat, x: nat, j: nat)
    requires MergePre(h, sp, root, g, i) && AreNeighbours(h, g, i)
    requires x in h && x != g && x != h[g].kids[i] && x != h[g].kids[i + 1]
    requires h[x].Inner? && j < |h[x].kids|
    ensures KidOk(Merge(h, g, i), MergeSpans(sp, h[g].kids[i], h[g].kids[i + 1]), x, j)
  {
    Neighbours(h, sp, root, g, i);
    assert NodeOk(h, sp, x);
    MergeNode(h, sp, root, g, i, x);
    KidFacts(h, sp, root, x, j);
    var c := h[x].kids[j];
    MergeNode(h, sp, root, g, i, c);
    if c in Movers(h[h[g].kids[i + 1]]) {
      var _ := MoverFacts(h, sp, root, g, i, c);
      assert false;
    }
  }

  lemma MergeKids(h: Heap, sp: Spans, root: nat, g: nat, i: nat)
    requires MergePre(h, sp, root, g, i) && AreNeighbours(h, g, i)
    ensures Kids(Merge(h, g, i), MergeSpans(sp, h[g].kids[i], h[g].kids[i + 1]))
  {
    var h', sp' := Merge(h, g, i), MergeSpans(sp, h[g].kids[i], h[g].kids[i + 1]);
    forall x, j: nat | x in h' && h'[x].Inner? && j < |h'[x].kids|
      ensures KidOk(h', sp', x, j)
    {
      MergeNode(h, sp, root, g, i, x);
      if x == g {
        MergeKidsOfParent(h, sp, root, g, i, j);
      } else if x == h[g].kids[i] {
        MergeKidsOfJoined(h, sp, root, g, i, j);
      } else {
        MergeKidsOfOther(h, sp, root, g, i, x, j);
      }
    }
  }

  lemma MergeParents(h: Heap, sp: Spans, root: nat, g: nat, i: nat)
    requires MergePre(h, sp, root, g, i) && AreNeighbours(h, g, i)
    ensures Parents(Merge(h, g, i), root)
  {
    Neighbours(h, sp, root, g, i);
    var l, d := h[g].kids[i], h[g].kids[i + 1];
    var h' := Merge(h, g, i);
    forall x | x in h'
      ensures ParentOk(h', root, x)
    {
      MergeNode(h, sp, root, g, i, x);
      MergeNode(h, sp, root, g, i, g);
      MergeNode(h, sp, root, g, i, l);
      assert ParentOk(h, root, x);
      if x != root {
        var p := h[x].parent;
        var j :| 0 <= j < |h[p].kids| && h[p].kids[j] == x;
        KidFacts(h, sp, root, p, j);
        MergeNode(h, sp, root, g, i, p);
        if p == g {
          assert h'[g].kids[if j <= i then j else j - 1] == x;
        } else if p == d {
          assert h'[l].kids[|h[l].kids| + j] == x;
        } else if p == l {
          assert h'[l].kids[j] == x;
        }
        if p != d && x in Movers(h[d]) {
          var m := MoverFacts(h, sp, root, g, i, x);
          assert false;
        }
      }
    }
  }

  lemma MergeApart(h: Heap, sp: Spans, root: nat, g: nat, i: nat)
    requires MergePre(h, sp, root, g, i) && AreNeighbours(h, g, i)
    ensures Apart(MergeSpans(sp, h[g].kids[i], h[g].kids[i + 1]))
  {
    Neighbours(h, sp, root, g, i);
    var l, d := h[g].kids[i], h[g].kids[i + 1];
    var sp' := MergeSpans(sp, l, d);
    forall a, b | a in sp' && b in sp' && a != b
      ensures ApartPair(sp', a, b)
    {
      assert ApartPair(sp, a, b);
      if a == l {
        assert ApartPair(sp, d, b) && NodeOk(h, sp, b);
      } else if b == l {
        assert ApartPair(sp, d, a) && NodeOk(h, sp, a);
      }
    }
  }

  lemma MergeChain(h: Heap, sp: Spans, root: nat, g: nat, i: nat)
    requires MergePre(h, sp, root, g, i) && AreNeighbours(h, g, i)
    ensures Chain(Merge(h, g, i), MergeSpans(sp, h[g].kids[i], h[g].kids[i + 1]))
  {
    Neighbours(h, sp, root, g, i);
    var l, d := h[g].kids[i], h[g].kids[i + 1];
    var h', sp' := Merge(h, g, i), MergeSpans(sp, l, d);
    forall x | x in h' && h'[x].Leaf?
      ensures LinkOk(h', sp', x)
    {
      MergeNode(h, sp, root, g, i, x);
      var x0 := if x == l then d else x;
      assert LinkOk(h, sp, x0) && NodeOk(h, sp, x0);
      MergeNode(h, sp, root, g, i, h[x0].next);
      assert x == l || ApartPair(sp, x, l);
    }
  }

  lemma MergeRoot(h: Heap, sp: Spans, root: nat, g: nat, i: nat)
    requires MergePre(h, sp, root, g, i) && AreNeighbours(h, g, i)
    ensures RootOk(Merge(h, g, i), MergeSpans(sp, h[g].kids[i], h[g].kids[i + 1]), root)
  {
    Neighbours(h, sp, root, g, i);
    var sp' := MergeSpans(sp, h[g].kids[i], h[g].kids[i + 1]);
    MergeNode(h, sp, root, g, i, root);
    if root in Movers(h[h[g].kids[i + 1]]) {
      var _ := MoverFacts(h, sp, root, g, i, root);
    }
    forall x | x in sp'
      ensures LevelOk(sp', root, x)
    {
      assert LevelOk(sp, root, x);
    }
  }

  /** Merging two neighbours keeps the shape of the tree. */
  lemma MergeShape(h: Heap, sp: Spans, root: nat, g: nat, i: nat)
    requires MergePre(h, sp, root, g, i) && AreNeighbours(h, g, i)
    ensures Shape(Merge(h, g, i), MergeSpans(sp, h[g].kids[i], h[g].kids[i + 1]), root)
  {
    MergeLocals(h, sp, root, g, i);
    MergeKids(h, sp, root, g, i);
    MergeParents(h, sp, root, g, i);
    MergeApart(h, sp, root, g, i);
    MergeChain(h, sp, root, g, i);
    MergeRoot(h, sp, root, g, i);
  }
}
