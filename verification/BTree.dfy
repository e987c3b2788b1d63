/**
  The B+ tree of trident-workloads/btree/btree1.c: an in-place tree with parent
  pointers and a leaf chain, changed only by insert and delete.
*/
module BTree {
  import opened BTreeShape
  import opened BTreeMoves
  import opened BTreeFacts
  import opened BTreeSplit
  import opened BTreeMerge
  import opened BTreeEdges
  import opened BTreeContents
  import opened BTreeSizes
  import opened BTreeSteps
  import opened BTreeBuffers
  import opened BTreeNode
  import opened BTreeStore
  import opened BTreeTheory

  /** How many nodes and records one slab of 1 << 18 bytes yields. */
  const NODE_SLAB := 5461
  const RECORD_SLAB := 16384

  ghost predicate RecordAt(records: map<nat, int>, index: map<int, nat>, k: int) {
    k in index && index[k] in records && forall l :: l in index && l != k ==> index[l] != index[k]
  }

  ghost predicate OwnedBy(index: map<int, nat>, r: nat) {
    exists k :: k in index && index[k] == r
  }

  /** Every record pointer of the tree is a live record, and no record is shared or lost. */
  ghost predicate RecordsOk(records: map<nat, int>, index: map<int, nat>) {
    && (forall k {:trigger RecordAt(records, index, k)} :: k in index ==> RecordAt(records, index, k))
    && (forall r {:trigger OwnedBy(index, r)} :: r in records ==> OwnedBy(index, r))
  }

  /** The finite map that an index and its records stand for. */
  ghost function MapOf(records: map<nat, int>, index: map<int, nat>): map<int, int>
    requires RecordsOk(records, index)
  {
    map k | k in index && RecordAt(records, index, k) :: records[index[k]]
  }

  ghost predicate AllIn(s: seq<nat>, live: set<nat>) {
    forall i {:trigger s[i]} :: 0 <= i < |s| ==> s[i] in live
  }

  lemma AllInMore(s: seq<nat>, live: set<nat>, more: set<nat>)
    requires AllIn(s, live) && live <= more
    ensures AllIn(s, more)
  {
  }

  class BPlusTree {
    const order: nat
    var heap: Store
    var root: nat
    var records: map<nat, int>
    var nodePool: Pool
    var recordPool: Pool
    ghost var view: Heap
    ghost var dead: set<nat>
    ghost var spans: Spans
    ghost var index: map<int, nat>

    ghost predicate StoreOk()
      reads this
    {
      Mirrors(heap, dead, order, view) && PoolOk(nodePool, heap.Keys)
    }

    /** The nodes form a tree that holds exactly the entries of index. */
    ghost predicate TreeOk()
      reads this
    {
      if root == NULL then view == map[] && index == map[]
      else Tree(view, spans, root, order, index)
    }

    ghost predicate Valid()
      reads this
    {
      && StoreOk() && TreeOk() && dead == {}
      && PoolOk(recordPool, records.Keys) && RecordsOk(records, index)
    }

    /** The finite map the tree stands for. */
    ghost function Contents(): map<int, int>
      requires Valid()
      reads this
    {
      MapOf(records, index)
    }

    constructor (order: nat)
      requires order >= 3
      ensures Valid() && this.order == order && Contents() == map[]
    {
      this.order := order;
      heap, root, records := map[], NULL, map[];
      nodePool, recordPool := Pool([], 1), Pool([], 1);
      view, dead, spans, index := map[], {}, map[], map[];
    }

    // ---------------------------------------------------------------- search

    /** find_leaf: the leaf whose range contains key. */
    method FindLeaf(key: int) returns (leaf: nat)
      requires StoreOk() && TreeOk() && 0 <= key < LIMIT
      ensures root == NULL ==> leaf == NULL
      ensures root != NULL ==> leaf in view && view[leaf].Leaf? && leaf in spans && spans[leaf].lo <= key < spans[leaf].hi
    {
      if root == NULL {
        return NULL;
      }
      leaf := root;
      assert MirrorAt(heap, order, view, leaf);
      while !heap[leaf].isLeaf
        invariant leaf in view && leaf in spans && spans[leaf].lo <= key < spans[leaf].hi
        invariant MirrorAt(heap, order, view, leaf)
        decreases spans[leaf].lvl
      {
        assert NodeOk(view, spans, leaf);
        var c := heap[leaf];
        var i := 0;
        while i < c.numKeys && key >= c.keys[i]
          invariant 0 <= i <= c.numKeys
          invariant i > 0 ==> c.keys[i - 1] <= key
        {
          i := i + 1;
        }
        KidFacts(view, spans, root, leaf, i);
        leaf := c.ptrs[i];
        assert MirrorAt(heap, order, view, leaf);
      }
    }

    /** find: the record of key, or the null pointer; and the leaf that would hold it. */
    method Find(key: int) returns (rec: nat, leaf: nat)
      requires Valid() && 0 <= key < LIMIT
      ensures rec != NULL <==> key in Contents()
      ensures rec != NULL ==> rec in records && records[rec] == Contents()[key]
      ensures key in index ==> rec == index[key]
      ensures root == NULL ==> leaf == NULL
      ensures root != NULL ==> leaf in view && view[leaf].Leaf? && leaf in spans && spans[leaf].lo <= key < spans[leaf].hi
      ensures root != NULL && key in index ==> key in view[leaf].keys
    {
      if root == NULL {
        return NULL, NULL;
      }
      leaf := FindLeaf(key);
      assert MirrorAt(heap, order, view, leaf) && NodeOk(view, spans, leaf);
      assert key in index ==> RecordAt(records, index, key);
      var c := heap[leaf];
      var i := 0;
      while i < c.numKeys && c.keys[i] != key
        invariant 0 <= i <= c.numKeys
        invariant forall j :: 0 <= j < i ==> c.keys[j] != key
      {
        i := i + 1;
      }
      if i == c.numKeys {
        rec := NULL;
        if key in index {
          assert Stored(view, key);
          var n :| Holds(view, n, key);
          OneHome(view, spans, root, n, leaf, key);
          assert false;
        }
      } else {
        rec := c.ptrs[i];
        assert EntryOk(view, index, leaf, i);
        assert RecordAt(records, index, key);
        assert UsedAt(recordPool, records.Keys, rec);
        assert view[leaf].keys[i] == key;
      }
    }

    /**
      find_range: all entries in [start, end] in key order, provided the leaf that find_leaf
      returns for start has a key that is not below start; nothing otherwise.
    */
    method FindRange(start: int, end: int) returns (keys: seq<int>, recs: seq<nat>, ghost leaf: nat)
      requires Valid() && 0 <= start < LIMIT && 0 <= end < LIMIT
      ensures root != NULL ==> Covers(view, spans, leaf, start)
      ensures if root != NULL && HasFrom(view[leaf].keys, start) then Collected(index, keys, recs, start, end, LIMIT)
              else keys == [] && recs == []
      ensures Collected(index, keys, recs, start, end, LIMIT) <==>
              (root != NULL && HasFrom(view[leaf].keys, start)) || (forall k :: k in index ==> !(start <= k <= end))
      ensures |keys| > 0 ==> |keys| <= end - start + 1
    {
      keys, recs := [], [];
      var n := FindLeaf(start);
      leaf := n;
      if n == NULL {
        return;
      }
      assert MirrorAt(heap, order, view, n) && NodeOk(view, spans, n);
      var c := heap[n];
      var i := 0;
      while i < c.numKeys && c.keys[i] < start
        invariant 0 <= i <= c.numKeys
        invariant forall j :: 0 <= j < i ==> c.keys[j] < start
      {
        i := i + 1;
      }
      if i == c.numKeys {
        return;
      }
      assert view[leaf].keys[i] >= start;
      BelowLeaf(view, spans, root, index, n, start, end);
      while n != NULL
        invariant if n == NULL then Collected(index, keys, recs, start, end, LIMIT)
                  else ScanReady(view, spans, n, i, start) && Collected(index, keys, recs, start, end, spans[n].lo)
        decreases if n == NULL then -1 else LIMIT - spans[n].lo
      {
        assert NodeOk(view, spans, n) && LinkOk(view, spans, n);
        UpperBound(view, spans, root, n);
        assert MirrorAt(heap, order, view, n);
        keys, recs := ScanLeaf(n, i, keys, recs, start, end);
        var next := heap[n].ptrs[order - 1];
        if next != NULL {
          assert NodeOk(view, spans, next);
        }
        n, i := next, 0;
      }
      SortedRangeSize(keys, start, end);
    }

    /** The inner loop of find_range, over one leaf. */
    method ScanLeaf(n: nat, from: nat, keys: seq<int>, recs: seq<nat>, ghost start: int, end: int)
      returns (keys': seq<int>, recs': seq<nat>)
      requires StoreOk() && root != NULL && Tree(view, spans, root, order, index)
      requires ScanReady(view, spans, n, from, start)
      requires Collected(index, keys, recs, start, end, spans[n].lo)
      ensures Collected(index, keys', recs', start, end, spans[n].hi)
    {
      assert MirrorAt(heap, order, view, n) && NodeOk(view, spans, n);
      keys', recs' := keys, recs;
      var i := from;
      while i < heap[n].numKeys && heap[n].keys[i] <= end
        invariant from <= i <= heap[n].numKeys
        invariant i > from ==> view[n].keys[i - 1] <= end
        invariant keys' == keys + view[n].keys[from..i] && recs' == recs + view[n].recs[from..i]
      {
        keys' := keys' + [heap[n].keys[i]];
        recs' := recs' + [heap[n].ptrs[i]];
        i := i + 1;
      }
      Scanned(view, spans, root, index, n, from, i, keys, recs, start, end);
    }

    // ----------------------------------------------------------- node updates

    /** make_node: take an address from the pool and store a node there. */
    method NewNode(n: Node) returns (r: nat)
      requires StoreOk() && Fits(n, order)
      modifies this`heap, this`nodePool, this`view
      ensures StoreOk() && r !in old(view) && r !in dead && r != NULL
      ensures view == old(view)[r := ViewOf(n, order)]
    {
      r, nodePool := Alloc(nodePool, NODE_SLAB, heap.Keys);
      MirrorUpdate(heap, dead, order, view, r, n);
      heap := heap[r := n];
      view := view[r := ViewOf(n, order)];
      assert heap.Keys == old(heap).Keys + {r};
    }

    method SetNode(r: nat, n: Node)
      requires StoreOk() && r in view && Fits(n, order)
      modifies this`heap, this`view
      ensures StoreOk() && heap == old(heap)[r := n]
      ensures view == old(view)[r := ViewOf(n, order)]
    {
      MirrorUpdate(heap, dead, order, view, r, n);
      heap := heap[r := n];
      view := view[r := ViewOf(n, order)];
      assert heap.Keys == old(heap).Keys;
    }

    method SetParent(r: nat, p: nat)
      requires StoreOk() && r in view
      modifies this`heap, this`view
      ensures StoreOk()
      ensures view == old(view)[r := Reparent(old(view)[r], p)]
    {
      assert MirrorAt(heap, order, view, r);
      SetNode(r, heap[r].(parent := p));
    }

    method Adopts(kids: seq<nat>, p: nat)
      requires StoreOk() && AllIn(kids, view.Keys)
      modifies this`heap, this`view
      ensures StoreOk()
      ensures view == Adopt(old(view), kids, p)
    {
      MirrorAdopted(heap, dead, order, view, kids, p);
      heap := AdoptAll(heap, kids, p);
      view := Adopt(view, kids, p);
    }

    /** free_node, for a node that is out of the tree. */
    method FreeNode(d: nat)
      requires StoreOk() && d in dead
      modifies this`heap, this`nodePool, this`dead
      ensures StoreOk() && dead == old(dead) - {d}
    {
      MirrorFree(heap, dead, order, view, d);
      ReleaseOk(nodePool, heap.Keys, d);
      nodePool := Release(nodePool, d);
      heap := heap - {d};
      dead := dead - {d};
    }

    ghost method Bury(d: nat)
      requires StoreOk() && d in view
      modifies this`view, this`dead
      ensures StoreOk() && dead == old(dead) + {d} && d !in old(dead)
      ensures view == old(view) - {d}
    {
      MirrorBury(heap, dead, order, view, d);
      view := view - {d};
      dead := dead + {d};
    }

    // -------------------------------------------------------------- insertion

    /** get_left_index: the position of left among the children of parent. */
    method LeftIndex(parent: nat, left: nat) returns (i: nat)
      requires StoreOk() && parent in view && view[parent].Inner? && left in view[parent].kids
      ensures i < |view[parent].kids| && view[parent].kids[i] == left
    {
      assert MirrorAt(heap, order, view, parent);
      var p := heap[parent];
      i := 0;
      while i <= p.numKeys && p.ptrs[i] != left
        invariant 0 <= i <= p.numKeys + 1
        invariant forall j :: 0 <= j < i ==> p.ptrs[j] != left
      {
        i := i + 1;
      }
    }

    /**
      insert_into_parent: left has just been cut in two, and its parent must learn of the
      right half.  h0 is the tree before the cut, in which left has one key too many.
    */
    method InsertIntoParent(left: nat, key: int, right: nat, ghost h0: Heap, ghost at: nat)
      requires StoreOk()
      requires Overfull(h0, spans, root, order, left, at, right, index)
      requires view == Halves(h0, left, at, right) && key == Separator(h0[left], at)
      modifies this`heap, this`root, this`nodePool, this`view, this`spans
      ensures StoreOk() && root != NULL && Tree(view, spans, root, order, index)
      decreases spans[root].lvl - spans[left].lvl, 1
    {
      HalvesNode(h0, spans, root, left, at, right, left);
      assert MirrorAt(heap, order, view, left);
      assert ParentOk(h0, root, left) && LevelOk(spans, root, left);
      var parent := heap[left].parent;
      if parent == NULL {
        InsertIntoNewRoot(left, key, right, h0, at);
      } else {
        InsertBelow(parent, left, key, right, h0, at);
      }
    }

    /** insert_into_new_root: the old root and its right half get a common parent. */
    method InsertIntoNewRoot(left: nat, key: int, right: nat, ghost h0: Heap, ghost at: nat)
      requires StoreOk()
      requires Overfull(h0, spans, root, order, left, at, right, index) && left == root
      requires view == Halves(h0, left, at, right) && key == Separator(h0[left], at)
      modifies this`heap, this`root, this`nodePool, this`view, this`spans
      ensures StoreOk() && root != NULL && Tree(view, spans, root, order, index)
    {
      HalvesNode(h0, spans, root, left, at, right, left);
      HalvesNode(h0, spans, root, left, at, right, right);
      var r := NewParent(left, key, right);
      assert view == NewRootHeap(h0, root, r, at, right);
      NewRootIsSplit(h0, spans, root, r, at, right);
      NewRootStep(h0, spans, root, order, r, at, right, index);
      spans := SplitSpans(GrowSpans(spans, root, r), root, key, right);
      root := r;
    }

    method NewParent(left: nat, key: int, right: nat) returns (r: nat)
      requires StoreOk() && left in view && right in view && left != right
      modifies this`heap, this`nodePool, this`view
      ensures StoreOk() && r !in old(view) && r != NULL
      ensures view == old(view)[left := Reparent(old(view)[left], r)]
                               [right := Reparent(old(view)[right], r)]
                               [r := Inner([key], [left, right], NULL)]
    {
      var n := FreshNode(order, false);
      n := Node(n.keys[0 := key], n.ptrs[0 := left][1 := right], 1, false, NULL);
      assert ViewOf(n, order) == Inner([key], [left, right], NULL);
      r := NewNode(n);
      SetParent(left, r);
      SetParent(right, r);
    }

    /** Find the place of left among its parent's children, and enter the right half after it. */
    method InsertBelow(parent: nat, left: nat, key: int, right: nat, ghost h0: Heap, ghost at: nat)
      requires StoreOk()
      requires Overfull(h0, spans, root, order, left, at, right, index) && left != root
      requires parent == h0[left].parent
      requires view == Halves(h0, left, at, right) && key == Separator(h0[left], at)
      modifies this`heap, this`root, this`nodePool, this`view, this`spans
      ensures StoreOk() && root != NULL && Tree(view, spans, root, order, index)
      decreases spans[root].lvl - spans[left].lvl, 0
    {
      ghost var k := KidIndex(h0, spans, root, left);
      HalvesNode(h0, spans, root, left, at, right, parent);
      var i := LeftIndex(parent, left);
      BelowStep(h0, spans, root, order, parent, i, left, at, right, index);
      ghost var h1 := view[parent := AddKid(view[parent], i, key, right)];
      assert MirrorAt(heap, order, view, parent);
      spans := SplitSpans(spans, left, key, right);
      if heap[parent].numKeys < order - 1 {
        InsertIntoNode(parent, i, key, right, h1);
      } else {
        InsertIntoNodeAfterSplitting(parent, i, key, right, h1);
      }
    }

    /** insert_into_node.  h1 is the tree in which parent already has the new child. */
    method InsertIntoNode(parent: nat, i: nat, key: int, right: nat, ghost h1: Heap)
      requires StoreOk() && parent in view && view[parent].Inner?
      requires |view[parent].keys| < order - 1 && i <= |view[parent].keys|
      requires AlmostTree(h1, spans, root, order, parent, index)
      requires |view[parent].kids| == |view[parent].keys| + 1
      requires h1 == view[parent := AddKid(view[parent], i, key, right)]
      requires SizeOk(view, root, order, parent)
      modifies this`heap, this`view
      ensures StoreOk() && root != NULL && Tree(view, spans, root, order, index)
    {
      assert MirrorAt(heap, order, view, parent);
      var n := PutInNode(heap[parent], order, i, key, right);
      SetNode(parent, n);
      assert view == h1;
      Completed(view, spans, root, order, parent, index);
    }

    /** insert_into_node_after_splitting.  In h1 the parent has one key too many. */
    method InsertIntoNodeAfterSplitting(parent: nat, i: nat, key: int, right: nat, ghost h1: Heap)
      requires StoreOk() && parent in view && view[parent].Inner?
      requires |view[parent].keys| == order - 1 && i <= |view[parent].keys|
      requires AlmostTree(h1, spans, root, order, parent, index)
      requires |view[parent].kids| == |view[parent].keys| + 1
      requires h1 == view[parent := AddKid(view[parent], i, key, right)]
      modifies this`heap, this`root, this`nodePool, this`view, this`spans
      ensures StoreOk() && root != NULL && Tree(view, spans, root, order, index)
      decreases spans[root].lvl - spans[parent].lvl, 2
    {
      CutKidsLive(h1, spans, root, parent, Cut(order) - 1);
      assert h1.Keys == view.Keys;
      var prime, q := SplitNodeInto(parent, i, key, right);
      assert LevelOk(spans, root, parent);
      InsertIntoParent(parent, prime, q, h1, Cut(order) - 1);
    }

    /** Deal the keys of a full parent and the new one to the parent and a new node q. */
    method SplitNodeInto(parent: nat, i: nat, key: int, right: nat) returns (prime: int, q: nat)
      requires StoreOk() && parent in view && view[parent].Inner?
      requires |view[parent].keys| == order - 1 && i <= |view[parent].keys|
      requires |view[parent].kids| == |view[parent].keys| + 1
      requires AllIn(Movers(RightHalf(AddKid(view[parent], i, key, right), Cut(order) - 1)), view.Keys)
      modifies this`heap, this`nodePool, this`view
      ensures StoreOk() && q !in old(view) && q != NULL
      ensures var h1 := old(view)[parent := AddKid(old(view)[parent], i, key, right)];
              && CanCut(h1[parent], Cut(order) - 1)
              && prime == Separator(h1[parent], Cut(order) - 1)
              && view == Halves(h1, parent, Cut(order) - 1, q)
    {
      ghost var h, v := view, AddKid(view[parent], i, key, right);
      var kids;
      prime, q, kids := DealNode(parent, i, key, right);
      AllInMore(kids, h.Keys, view.Keys);
      Adopts(kids, q);
      HalvesOver(h, parent, v, Cut(order) - 1, q);
    }

    method DealNode(parent: nat, i: nat, key: int, right: nat) returns (prime: int, q: nat, kids: seq<nat>)
      requires StoreOk() && parent in view && view[parent].Inner?
      requires |view[parent].keys| == order - 1 && i <= |view[parent].keys|
      requires |view[parent].kids| == |view[parent].keys| + 1
      modifies this`heap, this`nodePool, this`view
      ensures StoreOk() && q !in old(view) && q != NULL
      ensures var v := AddKid(old(view)[parent], i, key, right);
              && CanCut(v, Cut(order) - 1)
              && prime == Separator(v, Cut(order) - 1)
              && kids == RightHalf(v, Cut(order) - 1).kids
              && view == old(view)[parent := LeftHalf(v, Cut(order) - 1, q)][q := RightHalf(v, Cut(order) - 1)]
    {
      assert MirrorAt(heap, order, view, parent);
      var l, r;
      l, r, prime := PutInFullNode(heap[parent], order, i, key, right);
      kids := r.ptrs[..r.numKeys + 1];
      q := NewNode(r);
      SetNode(parent, l);
    }

    /** insert_into_leaf: the leaf has room. */
    method InsertIntoLeaf(leaf: nat, key: int, rec: nat)
      requires StoreOk() && root != NULL && Tree(view, spans, root, order, index)
      requires leaf in view && view[leaf].Leaf? && spans[leaf].lo <= key < spans[leaf].hi
      requires |view[leaf].keys| < order - 1 && key !in index
      modifies this`heap, this`view, this`index
      ensures StoreOk() && index == old(index)[key := rec]
      ensures Tree(view, spans, root, order, index)
    {
      assert MirrorAt(heap, order, view, leaf) && NodeOk(view, spans, leaf) && SizeOk(view, root, order, leaf);
      KeyAbsent(view, index, leaf, key);
      var n, at := PutInLeaf(heap[leaf], order, key, rec);
      LeafPutShape(view, spans, root, leaf, at, key, rec);
      PutAddsEntry(view, leaf, at, key, rec, index);
      ghost var h := view;
      SetNode(leaf, n);
      index := index[key := rec];
      LeafSizes(h, root, order, leaf, view[leaf]);
    }

    /** insert_into_leaf_after_splitting: the leaf is full. */
    method InsertIntoLeafAfterSplitting(leaf: nat, key: int, rec: nat)
      requires StoreOk() && root != NULL && Tree(view, spans, root, order, index)
      requires leaf in view && view[leaf].Leaf? && spans[leaf].lo <= key < spans[leaf].hi
      requires |view[leaf].keys| == order - 1 && key !in index
      modifies this`heap, this`root, this`nodePool, this`view, this`spans, this`index
      ensures StoreOk() && index == old(index)[key := rec]
      ensures root != NULL && Tree(view, spans, root, order, index)
    {
      assert NodeOk(view, spans, leaf) && RootOk(view, spans, root);
      KeyAbsent(view, index, leaf, key);
      ghost var h := view;
      var q, prime;
      ghost var at;
      q, prime, at := DealLeaf(leaf, key, rec);
      ghost var v := LeafPut(h[leaf], at, key, rec);
      ghost var h0 := h[leaf := v];
      LeafPutShape(h, spans, root, leaf, at, key, rec);
      PutAddsEntry(h, leaf, at, key, rec, index);
      index := index[key := rec];
      OthersSized(h, root, order, leaf, v);
      LeafHalves(h, leaf, v, Cut(order - 1), q);
      InsertIntoParent(leaf, prime, q, h0, Cut(order - 1));
    }

    method DealLeaf(leaf: nat, key: int, rec: nat) returns (q: nat, prime: int, ghost at: nat)
      requires StoreOk() && leaf in view && view[leaf].Leaf? && |view[leaf].keys| == order - 1
      requires |view[leaf].recs| == |view[leaf].keys|
      requires Sorted(view[leaf].keys) && key !in view[leaf].keys
      modifies this`heap, this`nodePool, this`view
      ensures StoreOk() && q !in old(view) && q != NULL
      ensures IsInsertionPoint(old(view)[leaf].keys, at, key)
      ensures var v := LeafPut(old(view)[leaf], at, key, rec);
              && CanCut(v, Cut(order - 1))
              && prime == Separator(v, Cut(order - 1))
              && view == old(view)[leaf := LeftHalf(v, Cut(order - 1), q)][q := RightHalf(v, Cut(order - 1))]
    {
      assert MirrorAt(heap, order, view, leaf);
      q := NewNode(FreshNode(order, true));
      assert MirrorAt(heap, order, view, leaf);
      var l, r;
      l, r, at := PutInFullLeaf(heap[leaf], order, key, rec, q);
      prime := r.keys[0];
      assert prime == ViewOf(r, order).keys[0];
      StorePair(leaf, l, q, r);
    }

    method StorePair(a: nat, m: Node, b: nat, n: Node)
      requires StoreOk() && a in view && b in view && a != b && Fits(m, order) && Fits(n, order)
      modifies this`heap, this`view
      ensures StoreOk() && view == old(view)[a := ViewOf(m, order)][b := ViewOf(n, order)]
    {
      SetNode(a, m);
      SetNode(b, n);
    }

    /** start_new_tree. */
    method StartNewTree(key: int, rec: nat)
      requires StoreOk() && TreeOk() && root == NULL && 0 <= key < LIMIT
      modifies this`heap, this`root, this`nodePool, this`view, this`spans, this`index
      ensures StoreOk() && index == old(index)[key := rec]
      ensures root != NULL && Tree(view, spans, root, order, index)
    {
      var n := FreshNode(order, true);
      n := Node(n.keys[0 := key], n.ptrs[0 := rec][order - 1 := NULL], 1, true, NULL);
      assert ViewOf(n, order) == Leaf([key], [rec], NULL, NULL);
      root := NewNode(n);
      spans := map[root := Span(0, 0, LIMIT)];
      index := map[key := rec];
      SingleLeafShape(root, [key], [rec]);
      SingleLeafEntries(root, key, rec, order);
    }

    /** insert: the tree becomes the same map with key bound to value. */
    method Insert(key: int, value: int)
      requires Valid() && 0 <= key < LIMIT
      modifies this
      ensures Valid()
      ensures Contents() == old(Contents())[key := value]
    {
      var rec, _ := Find(key);
      if rec != NULL {
        assert RecordAt(records, index, key);
        UpdateRecord(records, index, key, value);
        assert records[rec := value].Keys == records.Keys;
        records := records[rec := value];
        return;
      }
      rec, recordPool := Alloc(recordPool, RECORD_SLAB, records.Keys);
      AddRecord(records, index, key, rec, value);
      assert records[rec := value].Keys == records.Keys + {rec};
      records := records[rec := value];
      if root == NULL {
        StartNewTree(key, rec);
      } else {
        var leaf := FindLeaf(key);
        assert MirrorAt(heap, order, view, leaf) && SizeOk(view, root, order, leaf);
        if heap[leaf].numKeys < order - 1 {
          InsertIntoLeaf(leaf, key, rec);
        } else {
          InsertIntoLeafAfterSplitting(leaf, key, rec);
        }
      }
    }

    // --------------------------------------------------------------- deletion

    /**
      delete_entry: key i of node n, and record i or child i + 1 with it, leave the tree.
      h1 is the tree without that entry, in which n may be one key short.
    */
    method DeleteEntry(n: nat, key: int, ptr: nat, ghost i: nat, ghost h1: Heap)
      requires StoreOk() && n in view && EntryAt(view[n], key, ptr, i)
      requires h1 == view[n := Without(view[n], i)]
      requires AlmostTree(h1, spans, root, order, n, index) && MaybeShort(h1, root, order, n)
      modifies this`heap, this`root, this`nodePool, this`view, this`spans, this`dead
      ensures StoreOk() && TreeOk() && dead == old(dead)
      decreases spans[root].lvl - spans[n].lvl, 2
    {
      assert MirrorAt(heap, order, view, n);
      var r := TakeOut(heap[n], order, key, ptr, i);
      SetNode(n, r);
      assert view == h1;
      if n == root {
        AdjustRoot();
        return;
      }
      var minKeys := if r.isLeaf then Cut(order - 1) else Cut(order) - 1;
      if r.numKeys >= minKeys {
        Completed(view, spans, root, order, n, index);
      } else {
        Rebalance(n);
      }
    }

    /** adjust_root: a root without keys gives way to its only child, or to no tree at all. */
    method AdjustRoot()
      requires StoreOk() && AlmostTree(view, spans, root, order, root, index) && |view[root].keys| < order
      modifies this`heap, this`root, this`nodePool, this`view, this`spans, this`dead
      ensures StoreOk() && TreeOk() && dead == old(dead)
    {
      assert MirrorAt(heap, order, view, root);
      if heap[root].numKeys > 0 {
        Completed(view, spans, root, order, root, index);
        return;
      }
      var oldRoot := root;
      if !heap[root].isLeaf {
        ghost var h := view;
        ShrinkStep(view, spans, root, order, index);
        var newRoot := heap[root].ptrs[0];
        SetParent(newRoot, NULL);
        Bury(oldRoot);
        assert view == ShrinkRoot(h, oldRoot);
        spans := spans - {oldRoot};
        root := newRoot;
      } else {
        LoneLeaf(view, spans, root);
        EmptyIndex(view, root, index);
        Bury(oldRoot);
        assert view == map[];
        root := NULL;
      }
      FreeNode(oldRoot);
    }

    /** get_neighbor_index: one less than the position of n among its parent's children. */
    method NeighborIndex(n: nat) returns (i: int)
      requires StoreOk() && n in view && view[n].parent in view && view[view[n].parent].Inner?
      requires n in view[view[n].parent].kids
      ensures -1 <= i < |view[view[n].parent].kids| - 1 && view[view[n].parent].kids[i + 1] == n
    {
      assert MirrorAt(heap, order, view, n) && MirrorAt(heap, order, view, view[n].parent);
      var k: int := LeftIndex(heap[n].parent, n);
      i := k - 1;
    }

    /** The second half of delete_entry: n is one key short and not the root. */
    method Rebalance(n: nat)
      requires StoreOk() && AlmostTree(view, spans, root, order, n, index)
      requires n in view && n != root && |view[n].keys| == MinKeys(view[n], order) - 1
      modifies this`heap, this`root, this`nodePool, this`view, this`spans, this`dead
      ensures StoreOk() && TreeOk() && dead == old(dead)
      decreases spans[root].lvl - spans[n].lvl, 1
    {
      ghost var k := KidIndex(view, spans, root, n);
      assert MirrorAt(heap, order, view, n);
      var g := heap[n].parent;
      assert MirrorAt(heap, order, view, g) && SizeOk(view, root, order, g);
      var neighborIndex := NeighborIndex(n);
      var kPrimeIndex := if neighborIndex == -1 then 0 else neighborIndex;
      var kPrime := heap[g].keys[kPrimeIndex];
      var neighbor := if neighborIndex == -1 then heap[g].ptrs[1] else heap[g].ptrs[neighborIndex];
      Neighbours(view, spans, root, g, kPrimeIndex);
      var left, right := if neighborIndex == -1 then n else neighbor, if neighborIndex == -1 then neighbor else n;
      assert left == view[g].kids[kPrimeIndex] && right == view[g].kids[kPrimeIndex + 1];
      assert MirrorAt(heap, order, view, neighbor);
      var capacity := if heap[n].isLeaf then order else order - 1;
      if heap[neighbor].numKeys + heap[n].numKeys < capacity {
        CoalesceNodes(g, kPrimeIndex, kPrime, left, right, n);
      } else {
        RedistributeNodes(g, kPrimeIndex, kPrime, left, right, n);
      }
    }

    /** coalesce_nodes: right is emptied into left, and its entry leaves the parent. */
    method CoalesceNodes(g: nat, i: nat, kPrime: int, left: nat, right: nat, ghost n: nat)
      requires StoreOk() && Underfull(view, spans, root, order, g, i, n, index)
      requires left == view[g].kids[i] && right == view[g].kids[i + 1] && kPrime == view[g].keys[i]
      requires |view[left].keys| + |view[right].keys| < Capacity(view[n], order)
      modifies this`heap, this`root, this`nodePool, this`view, this`spans, this`dead
      ensures StoreOk() && TreeOk() && dead == old(dead)
      decreases spans[root].lvl - spans[n].lvl, 0
    {
      ghost var h := view;
      Neighbours(h, spans, root, g, i);
      MergeStep(h, spans, root, order, g, i, n, index);
      assert SizeOk(h, root, order, g) && LevelOk(spans, root, g);
      Absorb(g, i, kPrime, left, right);
      AbsorbedParent(h, spans, root, g, i);
      spans := MergeSpans(spans, left, right);
      DeleteEntry(g, kPrime, right, i, Merge(h, g, i));
      FreeNode(right);
    }

    /** The copying loops of coalesce_nodes. */
    method Absorb(g: nat, i: nat, kPrime: int, left: nat, right: nat)
      requires StoreOk() && Shape(view, spans, root) && MergePre(view, spans, root, g, i) && AreNeighbours(view, g, i)
      requires left == view[g].kids[i] && right == view[g].kids[i + 1] && kPrime == view[g].keys[i]
      requires |view[left].keys| + |view[right].keys| < Capacity(view[left], order)
      modifies this`heap, this`view, this`dead
      ensures StoreOk() && dead == old(dead) + {right} && right !in old(dead)
      ensures view == Absorbed(old(view), g, i)
    {
      ghost var h := view;
      Neighbours(h, spans, root, g, i);
      assert MirrorAt(heap, order, view, left) && MirrorAt(heap, order, view, right);
      var r;
      if heap[right].isLeaf {
        r := AppendLeaf(heap[left], heap[right], order, kPrime);
        SetNode(left, r);
        NoneAdopted(view, left);
      } else {
        r := AppendNode(heap[left], kPrime, heap[right], order);
        SetNode(left, r);
        var kids := r.ptrs[..r.numKeys + 1];
        JoinedKids(h, spans, root, g, i, view);
        Adopts(kids, left);
      }
      Bury(right);
    }

    /** redistribute_nodes: n takes one entry from its neighbour, which has one to spare. */
    method RedistributeNodes(g: nat, i: nat, kPrime: int, left: nat, right: nat, n: nat)
      requires StoreOk() && Underfull(view, spans, root, order, g, i, n, index)
      requires left == view[g].kids[i] && right == view[g].kids[i + 1] && kPrime == view[g].keys[i]
      requires |view[left].keys| + |view[right].keys| >= Capacity(view[n], order)
      modifies this`heap, this`view, this`spans
      ensures StoreOk() && TreeOk()
    {
      RedistributeStep(view, spans, root, order, g, i, n, index);
      ghost var h, at: nat := view, RecutPlace(view, g, i, n);
      assert MirrorAt(heap, order, view, n);
      if heap[n].isLeaf {
        ShuffleLeaves(g, i, kPrime, left, right, n == right, at);
      } else {
        ShuffleNodes(g, i, kPrime, left, right, n == right, at);
      }
      spans := RecutSpans(h, spans, g, i, at);
    }

    method ShuffleLeaves(g: nat, i: nat, ghost kPrime: int, left: nat, right: nat, fromLeft: bool, ghost at: nat)
      requires StoreOk() && RecutPre(view, spans, root, g, i, at) && view[view[g].kids[i]].Leaf?
      requires left == view[g].kids[i] && right == view[g].kids[i + 1] && kPrime == view[g].keys[i]
      requires |view[left].keys| < order && |view[right].keys| < order
      requires if fromLeft then |view[left].keys| >= 2 && at == |view[left].keys| - 1 && |view[right].keys| < order - 1
               else |view[right].keys| >= 2 && at == |view[left].keys| + 1 && |view[left].keys| < order - 1
      modifies this`heap, this`view
      ensures StoreOk() && view == Recutted(old(view), g, i, at)
    {
      Neighbours(view, spans, root, g, i);
      NextIsNeighbour(view, spans, root, g, i);
      RecutLeaves(view, spans, root, g, i, at);
      var l, r, sep := RecutLeafPair(left, right, kPrime, fromLeft, at);
      StorePair(left, l, right, r);
      SetSeparator(g, i, sep);
    }

    method RecutLeafPair(left: nat, right: nat, ghost kPrime: int, fromLeft: bool, ghost at: nat)
      returns (l: Node, r: Node, sep: int)
      requires StoreOk() && left in view && right in view && view[left].Leaf? && view[right].Leaf?
      requires view[left].parent == view[right].parent && view[left].next == right
      requires CanCut(Joined(view[left], kPrime, view[right]), at)
      requires if fromLeft then |view[left].keys| >= 2 && at == |view[left].keys| - 1 && |view[right].keys| < order - 1
               else |view[right].keys| >= 2 && at == |view[left].keys| + 1 && |view[left].keys| < order - 1
      ensures Fits(l, order) && Fits(r, order)
      ensures var j := Joined(view[left], kPrime, view[right]);
              ViewOf(l, order) == LeftHalf(j, at, right) && ViewOf(r, order) == RightHalf(j, at) && sep == Separator(j, at)
    {
      assert MirrorAt(heap, order, view, left) && MirrorAt(heap, order, view, right);
      if fromLeft {
        l, r, sep := LeafFromLeft(heap[left], heap[right], order, kPrime);
      } else {
        l, r, sep := LeafFromRight(heap[left], heap[right], order, kPrime);
      }
      RecutParts(view[left], kPrime, view[right], at, ViewOf(l, order), sep, ViewOf(r, order), right);
    }

    method ShuffleNodes(g: nat, i: nat, kPrime: int, left: nat, right: nat, fromLeft: bool, ghost at: nat)
      requires StoreOk() && RecutPre(view, spans, root, g, i, at) && view[view[g].kids[i]].Inner?
      requires left == view[g].kids[i] && right == view[g].kids[i + 1] && kPrime == view[g].keys[i]
      requires if fromLeft then |view[left].keys| >= 1 && at == |view[left].keys| - 1 && |view[right].keys| < order - 1
               else |view[right].keys| >= 1 && at == |view[left].keys| + 1 && |view[left].keys| < order - 1
      modifies this`heap, this`view
      ensures StoreOk() && view == Recutted(old(view), g, i, at)
    {
      Neighbours(view, spans, root, g, i);
      RecutNodes(view, spans, root, g, i, at);
      var l, r, sep, moved := RecutPair(left, right, kPrime, fromLeft, at);
      SetParent(moved, if fromLeft then right else left);
      StorePair(left, l, right, r);
      SetSeparator(g, i, sep);
    }

    method RecutPair(left: nat, right: nat, kPrime: int, fromLeft: bool, ghost at: nat)
      returns (l: Node, r: Node, sep: int, moved: nat)
      requires StoreOk() && left in view && right in view && view[left].Inner? && view[right].Inner?
      requires view[left].parent == view[right].parent && CanCut(Joined(view[left], kPrime, view[right]), at)
      requires if fromLeft then |view[left].keys| >= 1 && at == |view[left].keys| - 1 && |view[right].keys| < order - 1
               else |view[right].keys| >= 1 && at == |view[left].keys| + 1 && |view[left].keys| < order - 1
      ensures Fits(l, order) && Fits(r, order)
      ensures var j := Joined(view[left], kPrime, view[right]);
              && ViewOf(l, order) == LeftHalf(j, at, right)
              && ViewOf(r, order) == RightHalf(j, at)
              && sep == Separator(j, at)
              && moved == j.kids[if fromLeft then at + 1 else at]
    {
      assert MirrorAt(heap, order, view, left) && MirrorAt(heap, order, view, right);
      if fromLeft {
        l, r, sep := NodeFromLeft(heap[left], heap[right], order, kPrime);
        moved := r.ptrs[0];
        assert moved == ViewOf(r, order).kids[0];
      } else {
        l, r, sep := NodeFromRight(heap[left], heap[right], order, kPrime);
        moved := l.ptrs[l.numKeys];
        assert moved == ViewOf(l, order).kids[|ViewOf(l, order).keys|];
      }
      RecutParts(view[left], kPrime, view[right], at, ViewOf(l, order), sep, ViewOf(r, order), right);
      MovedChild(view[left], kPrime, view[right], at, ViewOf(l, order), ViewOf(r, order));
    }

    /** n->parent->keys[k_prime_index] = sep. */
    method SetSeparator(g: nat, i: nat, sep: int)
      requires StoreOk() && g in view && view[g].Inner? && i < |view[g].keys|
      modifies this`heap, this`view
      ensures StoreOk()
      ensures view == old(view)[g := Inner(old(view)[g].keys[i := sep], old(view)[g].kids, old(view)[g].parent)]
    {
      assert MirrorAt(heap, order, view, g);
      var n := heap[g];
      SetNode(g, Node(n.keys[i := sep], n.ptrs, n.numKeys, n.isLeaf, n.parent));
    }

    /** delete: the tree becomes the same map without key. */
    method Delete(key: int)
      requires Valid() && 0 <= key < LIMIT
      modifies this
      ensures Valid()
      ensures Contents() == old(Contents()) - {key}
    {
      var rec, leaf := Find(key);
      if rec != NULL && leaf != NULL {
        assert NodeOk(view, spans, leaf) && SizeOk(view, root, order, leaf);
        ghost var i :| 0 <= i < |view[leaf].keys| && view[leaf].keys[i] == key;
        LeafEntry(view, index, records, leaf, i, spans[leaf]);
        LeafCutShape(view, spans, root, leaf, i);
        CutDropsEntry(view, spans, root, leaf, i, index);
        OthersSized(view, root, order, leaf, LeafCut(view[leaf], i));
        DropRecord(records, index, key);
        ReleaseOk(recordPool, records.Keys, rec);
        index := index - {key};
        DeleteEntry(leaf, key, rec, i, view[leaf := LeafCut(view[leaf], i)]);
        assert (records - {rec}).Keys == records.Keys - {rec};
        records := records - {rec};
        recordPool := Release(recordPool, rec);
      }
    }
  }

  ghost predicate Covers(h: Heap, sp: Spans, leaf: nat, key: int) {
    leaf in h && h[leaf].Leaf? && leaf in sp && sp[leaf].lo <= key < sp[leaf].hi
  }

  ghost predicate HasFrom(keys: seq<int>, start: int) {
    exists j :: 0 <= j < |keys| && keys[j] >= start
  }

  /** Leaf n is about to be scanned from position i: nothing before i counts, everything after is not below start. */
  ghost predicate ScanReady(h: Heap, sp: Spans, n: nat, i: nat, start: int) {
    && n in h && n in sp && h[n].Leaf? && i <= |h[n].keys| && start < sp[n].hi
    && (forall j :: 0 <= j < i ==> h[n].keys[j] < start)
    && (forall j :: i <= j < |h[n].keys| ==> start <= h[n].keys[j])
  }

  lemma BelowLeaf(h: Heap, sp: Spans, root: nat, index: map<int, nat>, n: nat, start: int, end: int)
    requires Covers(h, sp, n, start)
    ensures Collected(index, [], [], start, end, sp[n].lo)
  {
  }

  ghost predicate ScanEnds(keys: seq<int>, from: nat, to: nat, end: int) {
    && from <= to <= |keys|
    && (to > from ==> keys[to - 1] <= end)
    && (to < |keys| ==> end < keys[to])
  }

  lemma ScannedSound(h: Heap, sp: Spans, index: map<int, nat>, n: nat, from: nat, to: nat, start: int, end: int, j: nat)
    requires Indexed(h, index) && ScanReady(h, sp, n, from, start) && NodeOk(h, sp, n)
    requires ScanEnds(h[n].keys, from, to, end) && from <= j < to
    ensures h[n].keys[j] in index && index[h[n].keys[j]] == h[n].recs[j]
    ensures start <= h[n].keys[j] <= end && sp[n].lo <= h[n].keys[j] < sp[n].hi
  {
    assert EntryOk(h, index, n, j);
    assert h[n].keys[j] <= h[n].keys[to - 1];
  }

  lemma ScannedComplete(h: Heap, sp: Spans, root: nat, index: map<int, nat>, n: nat, from: nat, to: nat, start: int, end: int, k: int)
    requires Shape(h, sp, root) && Indexed(h, index) && ScanReady(h, sp, n, from, start)
    requires ScanEnds(h[n].keys, from, to, end)
    requires k in index && start <= k <= end && sp[n].lo <= k < sp[n].hi
    ensures k in h[n].keys[from..to]
  {
    assert Stored(h, k) && NodeOk(h, sp, n);
    var x :| Holds(h, x, k);
    OneHome(h, sp, root, x, n, k);
    var j :| 0 <= j < |h[n].keys| && h[n].keys[j] == k;
    assert h[n].keys[from..to][j - from] == k;
  }

  lemma Scanned(h: Heap, sp: Spans, root: nat, index: map<int, nat>, n: nat, from: nat, to: nat,
                keys: seq<int>, recs: seq<nat>, start: int, end: int)
    requires Shape(h, sp, root) && Indexed(h, index) && ScanReady(h, sp, n, from, start)
    requires Collected(index, keys, recs, start, end, sp[n].lo)
    requires |h[n].recs| == |h[n].keys| && ScanEnds(h[n].keys, from, to, end)
    ensures Collected(index, keys + h[n].keys[from..to], recs + h[n].recs[from..to], start, end, sp[n].hi)
  {
    assert NodeOk(h, sp, n);
    var more, moreRecs := h[n].keys[from..to], h[n].recs[from..to];
    forall j | 0 <= j < |more|
      ensures more[j] in index && index[more[j]] == moreRecs[j] && start <= more[j] <= end && sp[n].lo <= more[j] < sp[n].hi
    {
      ScannedSound(h, sp, index, n, from, to, start, end, from + j);
    }
    forall k | k in index && start <= k <= end && sp[n].lo <= k < sp[n].hi
      ensures k in more
    {
      ScannedComplete(h, sp, root, index, n, from, to, start, end, k);
    }
    CollectedMore(index, keys, recs, more, moreRecs, start, end, sp[n].lo, sp[n].hi);
  }

  lemma CollectedMore(index: map<int, nat>, keys: seq<int>, recs: seq<nat>, more: seq<int>, moreRecs: seq<nat>,
                      start: int, end: int, lo: int, hi: int)
    requires Collected(index, keys, recs, start, end, lo) && |more| == |moreRecs| && Sorted(more) && lo < hi
    requires forall j :: 0 <= j < |more| ==>
      more[j] in index && index[more[j]] == moreRecs[j] && start <= more[j] <= end && lo <= more[j] < hi
    requires forall k :: k in index && start <= k <= end && lo <= k < hi ==> k in more
    ensures Collected(index, keys + more, recs + moreRecs, start, end, hi)
  {
    var all := keys + more;
    forall i, j | 0 <= i < j < |all|
      ensures all[i] < all[j]
    {
      assert i >= |keys| ==> more[i - |keys|] < more[j - |keys|];
    }
    forall k | k in index && start <= k <= end && k < hi
      ensures k in all
    {
      assert k < lo ==> k in keys;
    }
  }

  /** A tree of order 3 with two leaves, [1] and [5]. */
  ghost const TWO_LEAVES: Heap :=
    map[1 := Inner([5], [2, 3], NULL), 2 := Leaf([1], [7], 3, 1), 3 := Leaf([5], [8], NULL, 1)]
  ghost const TWO_SPANS: Spans := map[1 := Span(1, 0, LIMIT), 2 := Span(0, 0, 5), 3 := Span(0, 5, LIMIT)]
  ghost const TWO_INDEX: map<int, nat> := map[1 := 7, 5 := 8]

  /** find_range misses entries: 5 is stored and lies in [2, 9], but the leaf found for 2 ends at 1. */
  lemma RangeQueryCanMiss()
    ensures Tree(TWO_LEAVES, TWO_SPANS, 1, 3, TWO_INDEX)
    ensures Covers(TWO_LEAVES, TWO_SPANS, 2, 2) && !HasFrom(TWO_LEAVES[2].keys, 2)
    ensures !Collected(TWO_INDEX, [], [], 2, 9, LIMIT)
  {
    var h := TWO_LEAVES;
    assert Holds(h, 2, 1) && Holds(h, 3, 5);
    assert Locals(h, TWO_SPANS);
    assert Parents(h, 1) by {
      assert h[1].kids[0] == 2 && h[1].kids[1] == 3;
    }
    assert Chain(h, TWO_SPANS);
    assert 5 in TWO_INDEX;
  }

  lemma RecutParts(l: View, sep: int, d: View, at: nat, l': View, sep': int, d': View, right: nat)
    requires Recut(l, sep, d, at, l', sep', d') && l.parent == d.parent && (l.Leaf? ==> l.next == right)
    ensures l' == LeftHalf(Joined(l, sep, d), at, right)
    ensures d' == RightHalf(Joined(l, sep, d), at)
    ensures sep' == Separator(Joined(l, sep, d), at)
  {
  }

  lemma MovedChild(l: View, sep: int, d: View, at: nat, l': View, d': View)
    requires (l.Leaf? <==> d.Leaf?) && l.Inner? && CanCut(Joined(l, sep, d), at)
    requires l' == LeftHalf(Joined(l, sep, d), at, NULL) && d' == RightHalf(Joined(l, sep, d), at)
    ensures d'.kids[0] == Joined(l, sep, d).kids[at + 1]
    ensures l'.kids[|l'.keys|] == Joined(l, sep, d).kids[at]
  {
  }

  lemma LeafEntry(h: Heap, index: map<int, nat>, records: map<nat, int>, leaf: nat, i: nat, s: Span)
    requires Indexed(h, index) && RecordsOk(records, index)
    requires leaf in h && h[leaf].Leaf? && LocalOk(h[leaf], s) && i < |h[leaf].keys|
    ensures h[leaf].keys[i] in index
    ensures EntryAt(h[leaf], h[leaf].keys[i], index[h[leaf].keys[i]], i)
  {
    assert EntryOk(h, index, leaf, i);
    assert RecordAt(records, index, h[leaf].keys[i]);
    forall j: nat | j < |h[leaf].recs| && j != i
      ensures h[leaf].recs[j] != h[leaf].recs[i]
    {
      assert EntryOk(h, index, leaf, j);
    }
  }

  lemma DropRecord(records: map<nat, int>, index: map<int, nat>, key: int)
    requires RecordsOk(records, index) && key in index
    ensures RecordsOk(records - {index[key]}, index - {key})
    ensures MapOf(records - {index[key]}, index - {key}) == MapOf(records, index) - {key}
  {
    var records', index' := records - {index[key]}, index - {key};
    assert RecordAt(records, index, key);
    forall k | k in index'
      ensures RecordAt(records', index', k) && RecordAt(records, index, k)
    {
      assert RecordAt(records, index, k);
    }
    forall r | r in records'
      ensures OwnedBy(index', r)
    {
      assert OwnedBy(index, r);
      var k :| k in index && index[k] == r;
      assert index'[k] == r;
    }
  }

  /** Key i of v is key, and the pointer that goes with it, which occurs only once, is ptr. */
  ghost predicate EntryAt(v: View, key: int, ptr: nat, i: nat) {
    && Sorted(v.keys) && i < |v.keys| && v.keys[i] == key
    && match v
       case Leaf(keys, recs, _, _) =>
         |recs| == |keys| && recs[i] == ptr && forall j :: 0 <= j < |recs| && j != i ==> recs[j] != ptr
       case Inner(keys, kids, _) =>
         |kids| == |keys| + 1 && kids[i + 1] == ptr && forall j :: 0 <= j < |kids| && j != i + 1 ==> kids[j] != ptr
  }

  ghost function Without(v: View, i: nat): View
    requires i < |v.keys| && (v.Leaf? ==> |v.recs| == |v.keys|) && (v.Inner? ==> |v.kids| == |v.keys| + 1)
  {
    if v.Leaf? then LeafCut(v, i) else DropKid(v, i)
  }

  ghost predicate MaybeShort(h: Heap, root: nat, order: nat, n: nat) {
    n in h && |h[n].keys| < order && (n == root || |h[n].keys| >= MinKeys(h[n], order) - 1)
  }

  lemma NoneAdopted(h: Heap, p: nat)
    ensures Adopt(h, [], p) == h
  {
  }

  /** After the join all children of the joined node live, and only the new ones need a new parent. */
  lemma JoinedKids(h: Heap, sp: Spans, root: nat, g: nat, i: nat, h1: Heap)
    requires MergePre(h, sp, root, g, i) && AreNeighbours(h, g, i) && h[h[g].kids[i]].Inner?
    requires h1 == h[h[g].kids[i] := Joined(h[h[g].kids[i]], h[g].keys[i], h[h[g].kids[i + 1]])]
    ensures var l, d := h[g].kids[i], h[g].kids[i + 1];
            && AllIn(h1[l].kids, h1.Keys)
            && Adopt(h1, h1[l].kids, l) == Adopt(h1, h[d].kids, l)
  {
    Neighbours(h, sp, root, g, i);
    var l, d := h[g].kids[i], h[g].kids[i + 1];
    forall k | 0 <= k < |h1[l].kids|
      ensures h1[l].kids[k] in h1.Keys
    {
      JoinedKid(h, sp, root, g, i, k);
    }
    forall c | c in h[l].kids && c in h1
      ensures h1[c].parent == l
    {
      var k :| 0 <= k < |h[l].kids| && h[l].kids[k] == c;
      KidFacts(h, sp, root, l, k);
    }
    AdoptOwn(h1, h[l].kids, h[d].kids, l);
  }

  /** The parent still has the entry that coalesce_nodes asks delete_entry to remove. */
  lemma AbsorbedParent(h: Heap, sp: Spans, root: nat, g: nat, i: nat)
    requires MergePre(h, sp, root, g, i) && AreNeighbours(h, g, i)
    ensures var a := Absorbed(h, g, i);
            && g in a && a[g] == h[g]
            && EntryAt(a[g], h[g].keys[i], h[g].kids[i + 1], i)
            && Merge(h, g, i) == a[g := Without(a[g], i)]
  {
    Neighbours(h, sp, root, g, i);
    if g in Movers(h[h[g].kids[i + 1]]) {
      var _ := BTreeMerge.MoverFacts(h, sp, root, g, i, g);
    }
    forall j | 0 <= j < |h[g].kids| && j != i + 1
      ensures h[g].kids[j] != h[g].kids[i + 1]
    {
      KidsDiffer(h, sp, root, g, j, i + 1);
    }
  }

  lemma KeyAbsent(h: Heap, index: map<int, nat>, leaf: nat, key: int)
    requires Indexed(h, index) && leaf in h && h[leaf].Leaf? && key !in index
    ensures key !in h[leaf].keys
  {
    forall i: nat | i < |h[leaf].keys|
      ensures h[leaf].keys[i] != key
    {
      assert EntryOk(h, index, leaf, i);
    }
  }

  lemma LeafSizes(h: Heap, root: nat, order: nat, n: nat, v: View)
    requires Sizes(h, root, order) && n in h && v.Leaf? == h[n].Leaf?
    requires |h[n].keys| <= |v.keys| < order
    ensures Sizes(h[n := v], root, order)
  {
    var h' := h[n := v];
    forall x | x in h'
      ensures SizeOk(h', root, order, x)
    {
      assert SizeOk(h, root, order, x);
    }
  }

  lemma OthersSized(h: Heap, root: nat, order: nat, n: nat, v: View)
    requires Sizes(h, root, order) && n in h
    ensures SizesExcept(h[n := v], root, order, n)
  {
    var h' := h[n := v];
    forall x | x in h' && x != n
      ensures SizeOk(h', root, order, x)
    {
      assert SizeOk(h, root, order, x);
    }
  }

  lemma SingleLeafEntries(n: nat, key: int, rec: nat, order: nat)
    requires order >= 3
    ensures var h := map[n := Leaf([key], [rec], NULL, NULL)];
            Indexed(h, map[key := rec]) && Sizes(h, n, order)
  {
    var h := map[n := Leaf([key], [rec], NULL, NULL)];
    assert Holds(h, n, key);
  }

  /** record_pointer->value = value changes one entry of the map. */
  lemma UpdateRecord(records: map<nat, int>, index: map<int, nat>, key: int, value: int)
    requires RecordsOk(records, index) && key in index
    ensures RecordsOk(records[index[key] := value], index)
    ensures MapOf(records[index[key] := value], index) == MapOf(records, index)[key := value]
  {
    var records' := records[index[key] := value];
    assert RecordAt(records, index, key);
    forall k | k in index
      ensures RecordAt(records', index, k)
    {
      assert RecordAt(records, index, k);
    }
    forall r | r in records'
      ensures OwnedBy(index, r)
    {
      assert r in records ==> OwnedBy(index, r);
    }
  }

  lemma AddRecord(records: map<nat, int>, index: map<int, nat>, key: int, rec: nat, value: int)
    requires RecordsOk(records, index) && key !in index && rec !in records
    ensures RecordsOk(records[rec := value], index[key := rec])
    ensures MapOf(records[rec := value], index[key := rec]) == MapOf(records, index)[key := value]
  {
    var records', index' := records[rec := value], index[key := rec];
    forall k | k in index'
      ensures RecordAt(records', index', k)
    {
      assert k == key || RecordAt(records, index, k);
      forall l | l in index' && l != k
        ensures index'[l] != index'[k]
      {
        assert l == key || RecordAt(records, index, l);
      }
    }
    forall r | r in records'
      ensures OwnedBy(index', r)
    {
      if r == rec {
        assert index'[key] == r;
      } else {
        assert OwnedBy(index, r);
        var k :| k in index && index[k] == r;
        assert index'[k] == r;
      }
    }
    forall k | k in index'
      ensures k in MapOf(records', index') && MapOf(records', index')[k] == MapOf(records, index)[key := value][k]
    {
      assert RecordAt(records', index', k);
      assert k == key || RecordAt(records, index, k);
    }
  }

  lemma LeafHalves(h: Heap, n: nat, v: View, at: nat, q: nat)
    requires CanCut(v, at) && v.Leaf?
    ensures Halves(h[n := v], n, at, q) == h[n := LeftHalf(v, at, q)][q := RightHalf(v, at)]
  {
    HalvesOver(h, n, v, at, q);
    NoneAdopted(h[n := LeftHalf(v, at, q)][q := RightHalf(v, at)], q);
  }

  lemma HalvesOver(h: Heap, n: nat, v: View, at: nat, q: nat)
    requires CanCut(v, at)
    ensures Halves(h[n := v], n, at, q)
         == Adopt(h[n := LeftHalf(v, at, q)][q := RightHalf(v, at)], Movers(RightHalf(v, at)), q)
  {
    assert h[n := v][n := LeftHalf(v, at, q)] == h[n := LeftHalf(v, at, q)];
  }

  lemma CutKidsLive(h: Heap, sp: Spans, root: nat, n: nat, at: nat)
    requires Shape(h, sp, root) && n in h && CanCut(h[n], at)
    ensures AllIn(Movers(RightHalf(h[n], at)), h.Keys)
  {
    var kids := Movers(RightHalf(h[n], at));
    forall j | 0 <= j < |kids|
      ensures kids[j] in h.Keys
    {
      KidFacts(h, sp, root, n, at + 1 + j);
    }
  }
}
