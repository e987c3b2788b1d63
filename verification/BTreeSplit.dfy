/** Cutting a node in two keeps the shape of the tree. */
module BTreeSplit {
  import opened BTreeShape
  import opened BTreeMoves
  import opened BTreeFacts

  ghost predicate SplitPre(h: Heap, sp: Spans, root: nat, g: nat, i: nat, n: nat, at: nat, q: nat) {
    && Shape(h, sp, root)
    && n in h && CanCut(h[n], at)
    && IsKid(h, g, i, n) && g != n
    && q !in h && q != NULL
  }

  lemma SplitSep(h: Heap, sp: Spans, root: nat, g: nat, i: nat, n: nat, at: nat, q: nat)
    requires SplitPre(h, sp, root, g, i, n, at, q)
    ensures sp[n].lo < Separator(h[n], at) < sp[n].hi
    ensures h[n].parent == g && n != root
    ensures sp[g].lvl == sp[n].lvl + 1
    ensures sp[n].lo == KidLo(h[g].keys, sp[g].lo, i) && sp[n].hi == KidHi(h[g].keys, sp[g].hi, i)
  {
    KidFacts(h, sp, root, g, i);
    assert NodeOk(h, sp, n);
    if h[n].Leaf? {
      assert h[n].keys[0] < h[n].keys[at];
    }
  }

  /** The nodes that change their parent are old children of n and nothing else. */
  lemma MoverFacts(h: Heap, sp: Spans, root: nat, g: nat, i: nat, n: nat, at: nat, q: nat, x: nat) returns (j: nat)
    requires SplitPre(h, sp, root, g, i, n, at, q)
    requires x in Movers(RightHalf(h[n], at))
    ensures h[n].Inner? && at + 1 <= j < |h[n].kids| && h[n].kids[j] == x
    ensures x in h && x != n && x != g && x != q && x != root
  {
    var k :| 0 <= k < |h[n].kids[at + 1..]| && h[n].kids[at + 1..][k] == x;
    j := at + 1 + k;
    KidFacts(h, sp, root, g, i);
    KidFacts(h, sp, root, n, j);
  }

  /** Node x of the heap after a split. */
  ghost function SplitView(h: Heap, g: nat, i: nat, n: nat, at: nat, q: nat, x: nat): View
    requires n in h && CanCut(h[n], at) && IsKid(h, g, i, n) && (x in h || x == q)
  {
    if x == n then LeftHalf(h[n], at, q)
    else if x == q then RightHalf(h[n], at)
    else if x == g then AddKid(h[g], i, Separator(h[n], at), q)
    else if x in Movers(RightHalf(h[n], at)) then Reparent(h[x], q)
    else h[x]
  }

  lemma SplitNode(h: Heap, sp: Spans, root: nat, g: nat, i: nat, n: nat, at: nat, q: nat, x: nat)
    requires SplitPre(h, sp, root, g, i, n, at, q)
    ensures x in Split(h, g, i, n, at, q) <==> x in h || x == q
    ensures x in h || x == q ==> Split(h, g, i, n, at, q)[x] == SplitView(h, g, i, n, at, q, x)
  {
    if x in Movers(RightHalf(h[n], at)) {
      var _ := MoverFacts(h, sp, root, g, i, n, at, q, x);
    }
  }

  /** Node x after n has been cut and before its parent knows. */
  lemma HalvesNode(h: Heap, sp: Spans, root: nat, n: nat, at: nat, q: nat, x: nat)
    requires Shape(h, sp, root) && n in h && CanCut(h[n], at) && q !in h && q != NULL
    requires x in h || x == q
    ensures x in Halves(h, n, at, q) && Halves(h, n, at, q).Keys == h.Keys + {q}
    ensures Halves(h, n, at, q)[x] ==
      if x == n then LeftHalf(h[n], at, q)
      else if x == q then RightHalf(h[n], at)
      else if x in Movers(RightHalf(h[n], at)) then Reparent(h[x], q)
      else h[x]
    ensures x in Movers(RightHalf(h[n], at)) ==> x in h && x != n && sp[x].lvl < sp[n].lvl
  {
    if x in Movers(RightHalf(h[n], at)) {
      var j :| 0 <= j < |h[n].kids[at + 1..]| && h[n].kids[at + 1..][j] == x;
      KidFacts(h, sp, root, n, at + 1 + j);
    }
  }

  lemma HalvesLocal(v: View, s: Span, at: nat, q: nat)
    requires LocalOk(v, s) && CanCut(v, at)
    ensures s.lo < v.keys[at] < s.hi
    ensures LocalOk(LeftHalf(v, at, q), s.(hi := v.keys[at]))
    ensures LocalOk(RightHalf(v, at), s.(lo := v.keys[at]))
  {
    if v.Leaf? {
      assert v.keys[0] < v.keys[at];
    }
  }

  lemma AddKidLocal(v: View, s: Span, i: nat, key: int, q: nat)
    requires LocalOk(v, s) && v.Inner? && i < |v.kids|
    requires KidLo(v.keys, s.lo, i) < key < KidHi(v.keys, s.hi, i)
    ensures LocalOk(AddKid(v, i, key, q), s)
  {
    var keys := InsertAt(v.keys, i, key);
    forall a, b | 0 <= a < b < |keys|
      ensures keys[a] < keys[b]
    {
      assert keys[a] == if a < i then v.keys[a] else if a == i then key else v.keys[a - 1];
      assert keys[b] == if b < i then v.keys[b] else if b == i then key else v.keys[b - 1];
    }
    forall a | 0 <= a < |keys|
      ensures s.lo < keys[a] < s.hi
    {
      assert keys[a] == if a < i then v.keys[a] else if a == i then key else v.keys[a - 1];
    }
  }

  lemma SplitLocals(h: Heap, sp: Spans, root: nat, g: nat, i: nat, n: nat, at: nat, q: nat)
    requires SplitPre(h, sp, root, g, i, n, at, q)
    ensures Locals(Split(h, g, i, n, at, q), SplitSpans(sp, n, Separator(h[n], at), q))
  {
    SplitSep(h, sp, root, g, i, n, at, q);
    var h' := Split(h, g, i, n, at, q);
    var sp' := SplitSpans(sp, n, Separator(h[n], at), q);
    assert h'.Keys == h.Keys + {q};
    forall x | x in h'
      ensures NodeOk(h', sp', x)
    {
      SplitNode(h, sp, root, g, i, n, at, q, x);
      assert NodeOk(h, sp, n);
      if x == n || x == q {
        HalvesLocal(h[n], sp[n], at, q);
      } else {
        assert NodeOk(h, sp, x);
        if x == g {
          AddKidLocal(h[g], sp[g], i, Separator(h[n], at), q);
        }
      }
    }
  }

  /** The children of the parent after the split: the two halves share the old range of n. */
  lemma SplitKidsOfParent(h: Heap, sp: Spans, root: nat, g: nat, i: nat, n: nat, at: nat, q: nat, j: nat)
    requires SplitPre(h, sp, root, g, i, n, at, q)
    requires j <= |h[g].kids|
    ensures KidOk(Split(h, g, i, n, at, q), SplitSpans(sp, n, Separator(h[n], at), q), g, j)
  {
    SplitSep(h, sp, root, g, i, n, at, q);
    var h' := Split(h, g, i, n, at, q);
    assert NodeOk(h, sp, g);
    SplitNode(h, sp, root, g, i, n, at, q, g);
    var k := if j <= i then j else j - 1;
    KidFacts(h, sp, root, g, k);
    var c := h[g].kids[k];
    assert h'[g].kids[j] == if j == i + 1 then q else c;
    SplitNode(h, sp, root, g, i, n, at, q, c);
    SplitNode(h, sp, root, g, i, n, at, q, q);
    if k != i {
      KidsDiffer(h, sp, root, g, k, i);
    }
    if c in Movers(RightHalf(h[n], at)) {
      var m := MoverFacts(h, sp, root, g, i, n, at, q, c);
      KidFacts(h, sp, root, n, m);
      assert false;
    }
  }

  lemma SplitKidsOfHalves(h: Heap, sp: Spans, root: nat, g: nat, i: nat, n: nat, at: nat, q: nat, x: nat, j: nat)
    requires SplitPre(h, sp, root, g, i, n, at, q)
    requires h[n].Inner? && (x == n || x == q)
    requires j < |SplitView(h, g, i, n, at, q, x).kids|
    ensures KidOk(Split(h, g, i, n, at, q), SplitSpans(sp, n, Separator(h[n], at), q), x, j)
  {
    SplitSep(h, sp, root, g, i, n, at, q);
    assert NodeOk(h, sp, n);
    SplitNode(h, sp, root, g, i, n, at, q, x);
    var k := if x == n then j else at + 1 + j;
    KidFacts(h, sp, root, n, k);
    var c := h[n].kids[k];
    SplitNode(h, sp, root, g, i, n, at, q, c);
    if x == n {
      if c in Movers(RightHalf(h[n], at)) {
        var m := MoverFacts(h, sp, root, g, i, n, at, q, c);
        KidsDiffer(h, sp, root, n, k, m);
        assert false;
      }
    } else {
      assert RightHalf(h[n], at).kids[j] == c;
    }
  }

  lemma SplitKidsOfOther(h: Heap, sp: Spans, root: nat, g: nat, i: nat, n: nat, at: nat, q: nat, x: nat, j: nat)
    requires SplitPre(h, sp, root, g, i, n, at, q)
    requires x in h && x != n && x != g && h[x].Inner? && j < |h[x].kids|
    ensures KidOk(Split(h, g, i, n, at, q), SplitSpans(sp, n, Separator(h[n], at), q), x, j)
  {
    SplitSep(h, sp, root, g, i, n, at, q);
    assert NodeOk(h, sp, x);
    SplitNode(h, sp, root, g, i, n, at, q, x);
    KidFacts(h, sp, root, x, j);
    var c := h[x].kids[j];
    SplitNode(h, sp, root, g, i, n, at, q, c);
    if c in Movers(RightHalf(h[n], at)) {
      var m := MoverFacts(h, sp, root, g, i, n, at, q, c);
      KidFacts(h, sp, root, n, m);
      assert false;
    }
  }

  lemma SplitKids(h: Heap, sp: Spans, root: nat, g: nat, i: nat, n: nat, at: nat, q: nat)
    requires SplitPre(h, sp, root, g, i, n, at, q)
    ensures Kids(Split(h, g, i, n, at, q), SplitSpans(sp, n, Separator(h[n], at), q))
  {
    var h' := Split(h, g, i, n, at, q);
    forall x, j: nat | x in h' && h'[x].Inner? && j < |h'[x].kids|
      ensures KidOk(h', SplitSpans(sp, n, Separator(h[n], at), q), x, j)
    {
      SplitNode(h, sp, root, g, i, n, at, q, x);
      if x == g {
        SplitKidsOfParent(h, sp, root, g, i, n, at, q, j);
      } else if x == n || x == q {
        SplitKidsOfHalves(h, sp, root, g, i, n, at, q, x, j);
      } else {
        SplitKidsOfOther(h, sp, root, g, i, n, at, q, x, j);
      }
    }
  }

  lemma SplitParents(h: Heap, sp: Spans, root: nat, g: nat, i: nat, n: nat, at: nat, q: nat)
    requires SplitPre(h, sp, root, g, i, n, at, q)
    ensures Parents(Split(h, g, i, n, at, q), root)
  {
    SplitSep(h, sp, root, g, i, n, at, q);
    var h' := Split(h, g, i, n, at, q);
    forall x | x in h'
      ensures ParentOk(h', root, x)
    {
      SplitNode(h, sp, root, g, i, n, at, q, x);
      SplitNode(h, sp, root, g, i, n, at, q, g);
      SplitNode(h, sp, root, g, i, n, at, q, q);
      SplitNode(h, sp, root, g, i, n, at, q, n);
      if x == q {
        assert h'[g].kids[i + 1] == q;
      } else if x == n {
        assert h'[g].kids[i] == n;
      } else {
        assert ParentOk(h, root, x);
        SplitNode(h, sp, root, g, i, n, at, q, h[x].parent);
        if x in Movers(RightHalf(h[n], at)) {
          var _ := MoverFacts(h, sp, root, g, i, n, at, q, x);
        } else if x != root && h[x].parent == g {
          var j :| 0 <= j < |h[g].kids| && h[g].kids[j] == x;
          assert h'[g].kids[if j <= i then j else j + 1] == x;
        } else if x != root && h[x].parent == n {
          assert h[n].kids == h[n].kids[..at + 1] + h[n].kids[at + 1..];
        } else if x == g && x != root {
          KidFacts(h, sp, root, g, i);
        }
      }
    }
  }

  lemma SplitApart(h: Heap, sp: Spans, root: nat, g: nat, i: nat, n: nat, at: nat, q: nat)
    requires SplitPre(h, sp, root, g, i, n, at, q)
    ensures Apart(SplitSpans(sp, n, Separator(h[n], at), q))
  {
    SplitSep(h, sp, root, g, i, n, at, q);
    var sp' := SplitSpans(sp, n, Separator(h[n], at), q);
    forall a, b | a in sp' && b in sp' && a != b
      ensures ApartPair(sp', a, b)
    {
      var a0 := if a == q then n else a;
      var b0 := if b == q then n else b;
      assert a0 != b0 ==> ApartPair(sp, a0, b0);
    }
  }

  lemma SplitChain(h: Heap, sp: Spans, root: nat, g: nat, i: nat, n: nat, at: nat, q: nat)
    requires SplitPre(h, sp, root, g, i, n, at, q)
    ensures Chain(Split(h, g, i, n, at, q), SplitSpans(sp, n, Separator(h[n], at), q))
  {
    SplitSep(h, sp, root, g, i, n, at, q);
    var h' := Split(h, g, i, n, at, q);
    var sp' := SplitSpans(sp, n, Separator(h[n], at), q);
    forall x | x in h' && h'[x].Leaf?
      ensures LinkOk(h', sp', x)
    {
      SplitNode(h, sp, root, g, i, n, at, q, x);
      SplitNode(h, sp, root, g, i, n, at, q, q);
      assert RootOk(h, sp, root);
      UpperBound(h, sp, root, n);
      if x != n {
        var x0 := if x == q then n else x;
        assert LinkOk(h, sp, x0);
        SplitNode(h, sp, root, g, i, n, at, q, h[x0].next);
      }
    }
  }

  /** Splitting a node keeps the shape of the tree. */
  lemma SplitShape(h: Heap, sp: Spans, root: nat, g: nat, i: nat, n: nat, at: nat, q: nat)
    requires SplitPre(h, sp, root, g, i, n, at, q)
    ensures Shape(Split(h, g, i, n, at, q), SplitSpans(sp, n, Separator(h[n], at), q), root)
  {
    SplitLocals(h, sp, root, g, i, n, at, q);
    SplitKids(h, sp, root, g, i, n, at, q);
    SplitParents(h, sp, root, g, i, n, at, q);
    SplitApart(h, sp, root, g, i, n, at, q);
    SplitChain(h, sp, root, g, i, n, at, q);
    SplitRoot(h, sp, root, g, i, n, at, q);
  }

  lemma SplitRoot(h: Heap, sp: Spans, root: nat, g: nat, i: nat, n: nat, at: nat, q: nat)
    requires SplitPre(h, sp, root, g, i, n, at, q)
    ensures RootOk(Split(h, g, i, n, at, q), SplitSpans(sp, n, Separator(h[n], at), q), root)
  {
    SplitSep(h, sp, root, g, i, n, at, q);
    var h' := Split(h, g, i, n, at, q);
    var sp' := SplitSpans(sp, n, Separator(h[n], at), q);
    SplitNode(h, sp, root, g, i, n, at, q, root);
    if root in Movers(RightHalf(h[n], at)) {
      var _ := MoverFacts(h, sp, root, g, i, n, at, q, root);
    }
    forall x | x in sp'
      ensures LevelOk(sp', root, x)
    {
      assert LevelOk(sp, root, if x == q then n else x);
    }
  }
}
