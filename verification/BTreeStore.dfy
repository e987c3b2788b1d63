/** The node store: raw nodes by address, and the views of the nodes that are still in use. */
module BTreeStore {
  import opened BTreeShape
  import opened BTreeMoves
  import opened BTreeNode

  type Store = map<nat, Node>

  ghost predicate MirrorAt(s: Store, order: nat, h: Heap, r: nat) {
    r in s && r in h && Fits(s[r], order) && h[r] == ViewOf(s[r], order)
  }

  /**
    h shows every stored node except those of dead, which a merge has emptied and
    the code has not freed yet.
  */
  ghost predicate Mirrors(s: Store, dead: set<nat>, order: nat, h: Heap) {
    && order >= 3
    && s.Keys == h.Keys + dead && h.Keys !! dead
    && forall r {:trigger MirrorAt(s, order, h, r)} :: r in h ==> MirrorAt(s, order, h, r)
  }

  lemma MirrorUpdate(s: Store, dead: set<nat>, order: nat, h: Heap, r: nat, n: Node)
    requires Mirrors(s, dead, order, h) && Fits(n, order) && r !in dead
    ensures Mirrors(s[r := n], dead, order, h[r := ViewOf(n, order)])
  {
    var s', h' := s[r := n], h[r := ViewOf(n, order)];
    assert s'.Keys == h'.Keys + dead && h'.Keys !! dead;
    forall x | x in h'
      ensures MirrorAt(s', order, h', x)
    {
      assert x == r || MirrorAt(s, order, h, x);
    }
  }

  /** A node is given up: first only in the views, later in the store. */
  lemma MirrorBury(s: Store, dead: set<nat>, order: nat, h: Heap, d: nat)
    requires Mirrors(s, dead, order, h) && d in h
    ensures Mirrors(s, dead + {d}, order, h - {d})
  {
    var h' := h - {d};
    assert h'.Keys == h.Keys - {d};
    forall x | x in h'
      ensures MirrorAt(s, order, h', x)
    {
      assert MirrorAt(s, order, h, x);
    }
  }

  lemma MirrorFree(s: Store, dead: set<nat>, order: nat, h: Heap, d: nat)
    requires Mirrors(s, dead, order, h) && d in dead
    ensures Mirrors(s - {d}, dead - {d}, order, h)
    ensures (s - {d}).Keys == s.Keys - {d}
  {
    var s' := s - {d};
    assert s'.Keys == s.Keys - {d};
    assert s'.Keys == h.Keys + (dead - {d});
    forall x | x in h
      ensures MirrorAt(s', order, h, x)
    {
      assert MirrorAt(s, order, h, x);
    }
  }

  function Adopted(s: Store, kids: seq<nat>, p: nat): Store {
    map r | r in s :: if r in kids then s[r].(parent := p) else s[r]
  }

  lemma MirrorAdopted(s: Store, dead: set<nat>, order: nat, h: Heap, kids: seq<nat>, p: nat)
    requires Mirrors(s, dead, order, h)
    ensures Mirrors(Adopted(s, kids, p), dead, order, Adopt(h, kids, p))
    ensures Adopted(s, kids, p).Keys == s.Keys
  {
    var s', h' := Adopted(s, kids, p), Adopt(h, kids, p);
    assert s'.Keys == s.Keys;
    forall x | x in h'
      ensures MirrorAt(s', order, h', x)
    {
      assert MirrorAt(s, order, h, x);
    }
  }

  /** The loops that make every child point up to its new parent. */
  method AdoptAll(s: Store, kids: seq<nat>, p: nat) returns (r: Store)
    requires forall c :: c in kids ==> c in s
    ensures r == Adopted(s, kids, p)
  {
    r := s;
    for i := 0 to |kids|
      invariant r == Adopted(s, kids[..i], p)
    {
      var child := kids[i];
      r := r[child := r[child].(parent := p)];
      assert kids[..i + 1] == kids[..i] + [child];
    }
    assert kids[..|kids|] == kids;
  }

  // ------------------------------------------------------------ allocation

  /** free_nodes / free_recs: a stack of unused addresses; fresh slabs start at brk. */
  datatype Pool = Pool(free: seq<nat>, brk: nat)

  ghost predicate FreeAt(p: Pool, used: set<nat>, i: nat) {
    && i < |p.free| && p.free[i] !in used && 0 < p.free[i] < p.brk
    && forall j :: i < j < |p.free| ==> p.free[i] != p.free[j]
  }

  ghost predicate UsedAt(p: Pool, used: set<nat>, u: nat) {
    u in used && 0 < u < p.brk
  }

  ghost predicate PoolOk(p: Pool, used: set<nat>) {
    && p.brk > 0
    && (forall i: nat {:trigger FreeAt(p, used, i)} :: i < |p.free| ==> FreeAt(p, used, i))
    && (forall u {:trigger UsedAt(p, used, u)} :: u in used ==> UsedAt(p, used, u))
  }

  /** alloc_node / alloc_record: never hands out an address that is in use. */
  method Alloc(p: Pool, slab: nat, ghost used: set<nat>) returns (r: nat, p': Pool)
    requires PoolOk(p, used) && slab > 0
    ensures r !in used && r != NULL
    ensures PoolOk(p', used + {r})
  {
    var free, brk := p.free, p.brk;
    if |free| == 0 {
      for i := 0 to slab
        invariant brk == p.brk + i && |free| == i
        invariant forall k :: 0 <= k < i ==> free[k] == p.brk + (i - 1 - k)
      {
        free := [brk] + free;
        brk := brk + 1;
      }
    }
    ghost var grown := Pool(free, brk);
    assert PoolOk(grown, used) by {
      forall i: nat | i < |free|
        ensures FreeAt(grown, used, i)
      {
        if |p.free| > 0 {
          assert FreeAt(p, used, i);
        } else {
          assert free[i] in used ==> UsedAt(p, used, free[i]);
        }
      }
      forall u | u in used
        ensures UsedAt(grown, used, u)
      {
        assert UsedAt(p, used, u);
      }
    }
    r := free[0];
    p' := Pool(free[1..], brk);
    PoolPop(grown, used);
  }

  lemma PoolPop(p: Pool, used: set<nat>)
    requires PoolOk(p, used) && |p.free| > 0
    ensures p.free[0] !in used && p.free[0] != NULL
    ensures PoolOk(Pool(p.free[1..], p.brk), used + {p.free[0]})
  {
    var p', used' := Pool(p.free[1..], p.brk), used + {p.free[0]};
    assert FreeAt(p, used, 0);
    forall i: nat | i < |p'.free|
      ensures FreeAt(p', used', i)
    {
      assert FreeAt(p, used, i + 1);
    }
    forall u | u in used'
      ensures UsedAt(p', used', u)
    {
      assert u == p.free[0] || UsedAt(p, used, u);
    }
  }

  /** free_node / free_record. */
  function Release(p: Pool, r: nat): Pool {
    Pool([r] + p.free, p.brk)
  }

  lemma ReleaseOk(p: Pool, used: set<nat>, r: nat)
    requires PoolOk(p, used) && r in used
    ensures PoolOk(Release(p, r), used - {r})
  {
    var p', used' := Release(p, r), used - {r};
    assert UsedAt(p, used, r);
    forall i: nat | i < |p'.free|
      ensures FreeAt(p', used', i)
    {
      if i > 0 {
        assert FreeAt(p, used, i - 1);
      } else {
        forall j | 0 < j < |p'.free|
          ensures p'.free[j] != r
        {
          assert FreeAt(p, used, j - 1);
        }
      }
    }
    forall u | u in used'
      ensures UsedAt(p', used', u)
    {
      assert UsedAt(p, used, u);
    }
  }
}
