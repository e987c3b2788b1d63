/** Consequences of Shape for one node and its children. */
module BTreeFacts {
  import opened BTreeShape

  /** What node n looks like from its parent's side, and where its own children hang. */
  lemma KidFacts(h: Heap, sp: Spans, root: nat, g: nat, i: nat)
    requires Shape(h, sp, root) && g in h && h[g].Inner? && i < |h[g].kids|
    ensures |h[g].kids| == |h[g].keys| + 1 && h[g].kids[i] in h
    ensures var n := h[g].kids[i];
            h[n].parent == g && n != g && n != root && sp[g].lvl == sp[n].lvl + 1
            && sp[n].lo == KidLo(h[g].keys, sp[g].lo, i) && sp[n].hi == KidHi(h[g].keys, sp[g].hi, i)
  {
    assert NodeOk(h, sp, g);
    assert KidOk(h, sp, g, i);
  }

  /** The place of a node among its parent's children. */
  lemma KidIndex(h: Heap, sp: Spans, root: nat, n: nat) returns (i: nat)
    requires Shape(h, sp, root) && n in h && n != root
    ensures var g := h[n].parent;
            && g in h && h[g].Inner? && i < |h[g].kids| == |h[g].keys| + 1 && h[g].kids[i] == n
            && g != n && sp[g].lvl == sp[n].lvl + 1
  {
    assert ParentOk(h, root, n);
    var g := h[n].parent;
    i :| 0 <= i < |h[g].kids| && h[g].kids[i] == n;
    KidFacts(h, sp, root, g, i);
  }

  lemma KidsDiffer(h: Heap, sp: Spans, root: nat, g: nat, a: nat, b: nat)
    requires Shape(h, sp, root) && g in h && h[g].Inner? && a < |h[g].kids| && b < |h[g].kids| && a != b
    ensures h[g].kids[a] != h[g].kids[b]
  {
    assert NodeOk(h, sp, g);
    KidFacts(h, sp, root, g, a);
    KidFacts(h, sp, root, g, b);
  }

  /** No range reaches past the largest key. */
  lemma UpperBound(h: Heap, sp: Spans, root: nat, n: nat)
    requires Shape(h, sp, root) && n in h
    ensures 0 <= sp[n].lo && sp[n].hi <= LIMIT
    decreases sp[root].lvl - sp[n].lvl
  {
    assert ParentOk(h, root, n);
    assert LevelOk(sp, root, n);
    if n != root {
      var g := h[n].parent;
      var i :| 0 <= i < |h[g].kids| && h[g].kids[i] == n;
      KidFacts(h, sp, root, g, i);
      assert LevelOk(sp, root, g);
      assert NodeOk(h, sp, g);
      UpperBound(h, sp, root, g);
    }
  }
}
