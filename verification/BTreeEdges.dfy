/** The moves at the two ends of the tree: a new or a lost root, and one entry of one leaf. */
module BTreeEdges {
  import opened BTreeShape
  import opened BTreeMoves
  import opened BTreeFacts

  lemma GrowNodes(h: Heap, sp: Spans, root: nat, r: nat)
    requires Shape(h, sp, root) && r !in h && r != NULL
    ensures Locals(GrowRoot(h, root, r), GrowSpans(sp, root, r))
    ensures Parents(GrowRoot(h, root, r), r)
    ensures Chain(GrowRoot(h, root, r), GrowSpans(sp, root, r))
  {
    var h', sp' := GrowRoot(h, root, r), GrowSpans(sp, root, r);
    assert h'.Keys == h.Keys + {r} && sp'.Keys == sp.Keys + {r};
    forall x | x in h'
      ensures NodeOk(h', sp', x) && ParentOk(h', r, x)
      ensures h'[x].Leaf? ==> LinkOk(h', sp', x)
    {
      if x != r {
        assert NodeOk(h, sp, x) && ParentOk(h, root, x);
        assert h[x].Leaf? ==> LinkOk(h, sp, x);
      }
    }
  }

  lemma GrowKids(h: Heap, sp: Spans, root: nat, r: nat)
    requires Shape(h, sp, root) && r !in h && r != NULL
    ensures Kids(GrowRoot(h, root, r), GrowSpans(sp, root, r))
  {
    var h', sp' := GrowRoot(h, root, r), GrowSpans(sp, root, r);
    forall x, j: nat | x in h' && h'[x].Inner? && j < |h'[x].kids|
      ensures KidOk(h', sp', x, j)
    {
      if x != r {
        assert NodeOk(h, sp, x);
        KidFacts(h, sp, root, x, j);
      }
    }
  }

  /** A root with no key and one child keeps the shape. */
  lemma GrowShape(h: Heap, sp: Spans, root: nat, r: nat)
    requires Shape(h, sp, root) && r !in h && r != NULL
    ensures Shape(GrowRoot(h, root, r), GrowSpans(sp, root, r), r)
  {
    GrowNodes(h, sp, root, r);
    GrowKids(h, sp, root, r);
    var sp' := GrowSpans(sp, root, r);
    forall x | x in sp'
      ensures LevelOk(sp', r, x)
    {
      assert x != r ==> LevelOk(sp, root, x);
    }
    forall a, b | a in sp' && b in sp' && a != b
      ensures ApartPair(sp', a, b)
    {
      assert a != r ==> LevelOk(sp, root, a);
      assert b != r ==> LevelOk(sp, root, b);
      assert a != r && b != r ==> ApartPair(sp, a, b);
    }
  }

  /** Promoting the only child of a root without keys keeps the shape. */
  lemma ShrinkShape(h: Heap, sp: Spans, root: nat)
    requires Shape(h, sp, root) && h[root].Inner? && |h[root].keys| == 0
    ensures |h[root].kids| == 1 && h[root].kids[0] in h && h[root].kids[0] != root
    ensures Shape(ShrinkRoot(h, root), sp - {root}, h[root].kids[0])
  {
    assert NodeOk(h, sp, root);
    KidFacts(h, sp, root, root, 0);
    var c := h[root].kids[0];
    var h', sp' := ShrinkRoot(h, root), sp - {root};
    assert h'.Keys == h.Keys - {root};
    forall x | x in h'
      ensures NodeOk(h', sp', x) && ParentOk(h', c, x) && LevelOk(sp', c, x)
      ensures h'[x].Leaf? ==> LinkOk(h', sp', x)
    {
      assert NodeOk(h, sp, x) && ParentOk(h, root, x);
      assert h[x].Leaf? ==> LinkOk(h, sp, x);
      var p := h[x].parent;
      var j :| 0 <= j < |h[p].kids| && h[p].kids[j] == x;
      KidFacts(h, sp, root, p, j);
      assert LevelOk(sp, root, p);
    }
    forall x, j: nat | x in h' && h'[x].Inner? && j < |h'[x].kids|
      ensures KidOk(h', sp', x, j)
    {
      assert NodeOk(h, sp, x);
      KidFacts(h, sp, root, x, j);
    }
    forall a, b | a in sp' && b in sp' && a != b
      ensures ApartPair(sp', a, b)
    {
      assert ApartPair(sp, a, b);
    }
  }

  /** Any change of a leaf's entries that respects its range keeps the shape. */
  lemma LeafShape(h: Heap, sp: Spans, root: nat, n: nat, v: View)
    requires Shape(h, sp, root) && n in h && h[n].Leaf? && LocalOk(v, sp[n])
    requires v.Leaf? && v.next == h[n].next && v.parent == h[n].parent
    ensures Shape(h[n := v], sp, root)
  {
    var h' := h[n := v];
    assert h'.Keys == h.Keys;
    forall x | x in h'
      ensures NodeOk(h', sp, x) && ParentOk(h', root, x)
      ensures h'[x].Leaf? ==> LinkOk(h', sp, x)
    {
      assert NodeOk(h, sp, x) && ParentOk(h, root, x);
      assert h[x].Leaf? ==> LinkOk(h, sp, x);
    }
    forall x, j: nat | x in h' && h'[x].Inner? && j < |h'[x].kids|
      ensures KidOk(h', sp, x, j)
    {
      KidFacts(h, sp, root, x, j);
    }
  }

  lemma LeafPutShape(h: Heap, sp: Spans, root: nat, n: nat, i: nat, key: int, rec: nat)
    requires Shape(h, sp, root) && n in h && h[n].Leaf? && i <= |h[n].keys| == |h[n].recs|
    requires sp[n].lo <= key < sp[n].hi
    requires forall j :: 0 <= j < i ==> h[n].keys[j] < key
    requires forall j :: i <= j < |h[n].keys| ==> key < h[n].keys[j]
    ensures Shape(h[n := LeafPut(h[n], i, key, rec)], sp, root)
  {
    assert NodeOk(h, sp, n);
    var keys := InsertAt(h[n].keys, i, key);
    assert forall a :: 0 <= a < |keys| ==>
      keys[a] == if a < i then h[n].keys[a] else if a == i then key else h[n].keys[a - 1];
    LeafShape(h, sp, root, n, LeafPut(h[n], i, key, rec));
  }

  lemma LeafCutShape(h: Heap, sp: Spans, root: nat, n: nat, i: nat)
    requires Shape(h, sp, root) && n in h && h[n].Leaf? && i < |h[n].keys| == |h[n].recs|
    ensures Shape(h[n := LeafCut(h[n], i)], sp, root)
  {
    assert NodeOk(h, sp, n);
    LeafShape(h, sp, root, n, LeafCut(h[n], i));
  }

  /** A tree of one leaf. */
  lemma SingleLeafShape(n: nat, keys: seq<int>, recs: seq<nat>)
    requires n != NULL && |keys| == |recs| == 1 && 0 <= keys[0] < LIMIT
    ensures Shape(map[n := Leaf(keys, recs, NULL, NULL)], map[n := Span(0, 0, LIMIT)], n)
  {
  }
}
