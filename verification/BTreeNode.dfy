/**
  One node as the source stores it, and the edits made to a single node or to a
  pair of neighbours.  Each edit is specified by what it does to the views.
*/
module BTreeNode {
  import opened BTreeShape
  import opened BTreeMoves
  import opened BTreeBuffers

  /** struct node: order - 1 keys, order pointers (records, children, and a leaf's next). */
  datatype Node = Node(keys: seq<int>, ptrs: seq<nat>, numKeys: nat, isLeaf: bool, parent: nat)

  predicate Fits(n: Node, order: nat) {
    order >= 3 && |n.keys| == order - 1 && |n.ptrs| == order && n.numKeys < order
  }

  function ViewOf(n: Node, order: nat): View
    requires Fits(n, order)
  {
    if n.isLeaf then Leaf(n.keys[..n.numKeys], n.ptrs[..n.numKeys], n.ptrs[order - 1], n.parent)
    else Inner(n.keys[..n.numKeys], n.ptrs[..n.numKeys + 1], n.parent)
  }

  /** make_node and make_leaf: zeroed buffers, no keys, no parent. */
  function FreshNode(order: nat, isLeaf: bool): (n: Node)
    requires order >= 3
    ensures Fits(n, order) && n.numKeys == 0 && n.parent == NULL && n.isLeaf == isLeaf
    ensures forall i :: 0 <= i < order ==> n.ptrs[i] == NULL
  {
    Node(seq(order - 1, _ => 0), seq(order, _ => NULL), 0, isLeaf, NULL)
  }

  ghost predicate IsInsertionPoint(keys: seq<int>, i: nat, key: int) {
    && i <= |keys|
    && (forall j :: 0 <= j < i ==> keys[j] < key)
    && (forall j :: i <= j < |keys| ==> key < keys[j])
  }

  /** insert_into_leaf: the leaf has room. */
  method PutInLeaf(n: Node, order: nat, key: int, rec: nat) returns (r: Node, ghost at: nat)
    requires Fits(n, order) && n.isLeaf && n.numKeys < order - 1
    requires Sorted(n.keys[..n.numKeys]) && key !in n.keys[..n.numKeys]
    ensures Fits(r, order) && at <= n.numKeys
    ensures ViewOf(r, order) == LeafPut(ViewOf(n, order), at, key, rec)
    ensures IsInsertionPoint(ViewOf(n, order).keys, at, key)
  {
    var point := InsertionPoint(n.keys, n.numKeys, key);
    at := point;
    var keys := ShiftUp(n.keys, point, n.numKeys);
    var ptrs := ShiftUp(n.ptrs, point, n.numKeys);
    r := Node(keys[point := key], ptrs[point := rec], n.numKeys + 1, true, n.parent);
    assert r.keys[..r.numKeys] == keys[..point] + [key] + keys[point + 1..n.numKeys + 1];
    assert r.ptrs[..r.numKeys] == ptrs[..point] + [rec] + ptrs[point + 1..n.numKeys + 1];
    assert r.ptrs[order - 1] == n.ptrs[n.numKeys + 1..][order - 1 - (n.numKeys + 1)];
  }

  /** insert_into_leaf_after_splitting: the leaf is full, and its entries are dealt to two leaves. */
  method PutInFullLeaf(n: Node, order: nat, key: int, rec: nat, newRef: nat) returns (l: Node, r: Node, ghost at: nat)
    requires Fits(n, order) && n.isLeaf && n.numKeys == order - 1
    requires Sorted(n.keys[..n.numKeys]) && key !in n.keys[..n.numKeys]
    ensures Fits(l, order) && Fits(r, order) && at <= n.numKeys
    ensures IsInsertionPoint(ViewOf(n, order).keys, at, key)
    ensures var v := LeafPut(ViewOf(n, order), at, key, rec);
            && CanCut(v, Cut(order - 1))
            && ViewOf(l, order) == LeftHalf(v, Cut(order - 1), newRef)
            && ViewOf(r, order) == RightHalf(v, Cut(order - 1))
  {
    var point := InsertionPoint(n.keys, order - 1, key);
    at := point;
    var tempKeys := Staged(n.keys, n.numKeys, point, key, seq(order + 1, _ => 0));
    var tempPtrs := Staged<nat>(n.ptrs, n.numKeys, point, rec, seq(order + 1, _ => NULL));
    var split := Cut(order - 1);
    l := LowerLeaf(n, order, tempKeys, tempPtrs, split, newRef);
    r := UpperLeaf(n, order, tempKeys, tempPtrs, split);
    ghost var v := LeafPut(ViewOf(n, order), at, key, rec);
    assert v.keys[..split] == tempKeys[..split] && v.recs[..split] == tempPtrs[..split];
    assert v.keys[split..] == tempKeys[split..order] && v.recs[split..] == tempPtrs[split..order];
  }

  /** The leaf keeps the first split entries and points at the new leaf. */
  method LowerLeaf(n: Node, order: nat, keys: seq<int>, ptrs: seq<nat>, split: nat, newRef: nat) returns (l: Node)
    requires Fits(n, order) && 0 < split < order && |keys| == |ptrs| == order + 1
    ensures Fits(l, order)
    ensures ViewOf(l, order) == Leaf(keys[..split], ptrs[..split], newRef, n.parent)
  {
    var lptrs := CopyRange(ptrs, 0, split, n.ptrs, 0);
    var lkeys := CopyRange(keys, 0, split, n.keys, 0);
    var linked := Clear(lptrs[order - 1 := newRef], split, order - 1);
    l := Node(lkeys, linked, split, true, n.parent);
    assert linked[order - 1] == linked[order - 1..][0];
  }

  /** The new leaf gets the rest, and the old leaf's next pointer and parent. */
  method UpperLeaf(n: Node, order: nat, keys: seq<int>, ptrs: seq<nat>, split: nat) returns (r: Node)
    requires Fits(n, order) && 0 < split < order && |keys| == |ptrs| == order + 1
    ensures Fits(r, order)
    ensures ViewOf(r, order) == Leaf(keys[split..order], ptrs[split..order], n.ptrs[order - 1], n.parent)
  {
    var blank := FreshNode(order, true);
    var rptrs := CopyRange(ptrs, split, order, blank.ptrs, 0);
    var rkeys := CopyRange(keys, split, order, blank.keys, 0);
    var linked := Clear(rptrs[order - 1 := n.ptrs[order - 1]], order - split, order - 1);
    r := Node(rkeys, linked, order - split, true, n.parent);
    assert linked[order - 1] == linked[order - 1..][0];
  }

  /** insert_into_node: the parent has room. */
  method PutInNode(n: Node, order: nat, leftIndex: nat, key: int, right: nat) returns (r: Node)
    requires Fits(n, order) && !n.isLeaf && n.numKeys < order - 1 && leftIndex <= n.numKeys
    ensures Fits(r, order)
    ensures ViewOf(r, order) == AddKid(ViewOf(n, order), leftIndex, key, right)
  {
    var ptrs := ShiftUp(n.ptrs, leftIndex + 1, n.numKeys + 1);
    var keys := ShiftUp(n.keys, leftIndex, n.numKeys);
    r := Node(keys[leftIndex := key], ptrs[leftIndex + 1 := right], n.numKeys + 1, false, n.parent);
    assert r.keys[..r.numKeys] == keys[..leftIndex] + [key] + keys[leftIndex + 1..n.numKeys + 1];
    assert r.ptrs[..r.numKeys + 1] == ptrs[..leftIndex + 1] + [right] + ptrs[leftIndex + 2..n.numKeys + 2];
  }

  /** insert_into_node_after_splitting: the parent is full and is dealt to two nodes. */
  method PutInFullNode(n: Node, order: nat, leftIndex: nat, key: int, right: nat)
    returns (l: Node, r: Node, prime: int)
    requires Fits(n, order) && !n.isLeaf && n.numKeys == order - 1 && leftIndex <= n.numKeys
    ensures Fits(l, order) && Fits(r, order)
    ensures var v := AddKid(ViewOf(n, order), leftIndex, key, right);
            && CanCut(v, Cut(order) - 1)
            && ViewOf(l, order) == LeftHalf(v, Cut(order) - 1, NULL)
            && ViewOf(r, order) == RightHalf(v, Cut(order) - 1)
            && prime == Separator(v, Cut(order) - 1)
  {
    var tempPtrs := Staged<nat>(n.ptrs, n.numKeys + 1, leftIndex + 1, right, seq(order + 1, _ => NULL));
    var tempKeys := Staged(n.keys, n.numKeys, leftIndex, key, seq(order, _ => 0));
    var split := Cut(order);
    prime := tempKeys[split - 1];
    l := DealtNode(n, order, tempKeys, tempPtrs, 0, split - 1, n.parent);
    var blank := FreshNode(order, false);
    r := DealtNode(blank, order, tempKeys, tempPtrs, split, order, n.parent);
    ghost var v := AddKid(ViewOf(n, order), leftIndex, key, right);
    assert v.keys == tempKeys[..order] && v.kids == tempPtrs[..order + 1];
  }

  /** A node that receives keys[from..to] and the pointers around them. */
  method DealtNode(n: Node, order: nat, keys: seq<int>, ptrs: seq<nat>, from: nat, to: nat, parent: nat) returns (r: Node)
    requires Fits(n, order) && from <= to <= |keys| && to < |ptrs| && to - from < order - 1
    ensures Fits(r, order)
    ensures ViewOf(r, order) == Inner(keys[from..to], ptrs[from..to + 1], parent)
  {
    var rptrs := CopyRange(ptrs, from, to + 1, n.ptrs, 0);
    var rkeys := CopyRange(keys, from, to, n.keys, 0);
    r := Node(rkeys, rptrs, to - from, false, parent);
  }

  /** remove_entry_from_node: key i leaves the node, and with it record i or child i + 1. */
  method TakeOut(n: Node, order: nat, key: int, ptr: nat, ghost i: nat) returns (r: Node)
    requires Fits(n, order) && i < n.numKeys && n.keys[i] == key && Sorted(n.keys[..n.numKeys])
    requires n.ptrs[if n.isLeaf then i else i + 1] == ptr
    requires forall j :: 0 <= j < n.numKeys && j != i && n.isLeaf ==> n.ptrs[j] != ptr
    requires forall j :: 0 <= j <= n.numKeys && j != i + 1 && !n.isLeaf ==> n.ptrs[j] != ptr
    ensures Fits(r, order)
    ensures n.isLeaf ==> ViewOf(r, order) == LeafCut(ViewOf(n, order), i)
    ensures !n.isLeaf ==> ViewOf(r, order) == DropKid(ViewOf(n, order), i)
  {
    var ki := FirstIndex(n.keys, key, i);
    assert ki == i by {
      assert n.keys[..n.numKeys][ki] == n.keys[..n.numKeys][i];
    }
    var keys := ShiftDown(n.keys, ki, n.numKeys);
    var numPointers := if n.isLeaf then n.numKeys else n.numKeys + 1;
    ghost var place := if n.isLeaf then i else i + 1;
    var pi := FirstIndex(n.ptrs, ptr, place);
    assert pi == place;
    var ptrs := ShiftDown(n.ptrs, pi, numPointers);
    assert ptrs[..numPointers - 1] == RemoveAt(n.ptrs[..numPointers], place);
    assert keys[..n.numKeys - 1] == RemoveAt(n.keys[..n.numKeys], i);
    var tidy;
    if n.isLeaf {
      tidy := Clear(ptrs, n.numKeys - 1, order - 1);
      assert tidy[order - 1] == tidy[order - 1..][0] == ptrs[order - 1];
      assert ptrs[order - 1] == ptrs[numPointers - 1..][order - numPointers];
    } else {
      tidy := Clear(ptrs, n.numKeys, order);
    }
    r := Node(keys, tidy, n.numKeys - 1, n.isLeaf, n.parent);
  }

  /** coalesce_nodes, leaves: the left neighbour takes the entries and the next pointer of n. */
  method AppendLeaf(l: Node, n: Node, order: nat, sep: int) returns (r: Node)
    requires Fits(l, order) && Fits(n, order) && l.isLeaf && n.isLeaf && l.numKeys + n.numKeys < order
    ensures Fits(r, order)
    ensures ViewOf(r, order) == Joined(ViewOf(l, order), sep, ViewOf(n, order))
  {
    var keys := CopyRange(n.keys, 0, n.numKeys, l.keys, l.numKeys);
    var ptrs := CopyRange(n.ptrs, 0, n.numKeys, l.ptrs, l.numKeys);
    r := Node(keys, ptrs[order - 1 := n.ptrs[order - 1]], l.numKeys + n.numKeys, true, l.parent);
    assert keys[..r.numKeys] == keys[..l.numKeys] + keys[l.numKeys..r.numKeys];
    assert ptrs[..r.numKeys] == ptrs[..l.numKeys] + ptrs[l.numKeys..r.numKeys];
  }

  /** coalesce_nodes, inner nodes: the separator comes down between the two key lists. */
  method AppendNode(l: Node, sep: int, n: Node, order: nat) returns (r: Node)
    requires Fits(l, order) && Fits(n, order) && !l.isLeaf && !n.isLeaf && l.numKeys + n.numKeys < order - 1
    ensures Fits(r, order)
    ensures ViewOf(r, order) == Joined(ViewOf(l, order), sep, ViewOf(n, order))
  {
    var k := l.numKeys;
    var keys := CopyRange(n.keys, 0, n.numKeys, l.keys[k := sep], k + 1);
    var ptrs := CopyRange(n.ptrs, 0, n.numKeys + 1, l.ptrs, k + 1);
    r := Node(keys, ptrs, k + 1 + n.numKeys, false, l.parent);
    assert keys[..r.numKeys] == keys[..k + 1] + keys[k + 1..r.numKeys];
    assert keys[..k + 1] == l.keys[..k] + [sep];
    assert ptrs[..r.numKeys + 1] == ptrs[..k + 1] + ptrs[k + 1..r.numKeys + 1];
  }

  /** Two neighbours and their separator, cut anew at at. */
  ghost predicate Recut(l: View, sep: int, d: View, at: nat, l': View, sep': int, d': View) {
    && (l.Leaf? <==> d.Leaf?)
    && CanCut(Joined(l, sep, d), at)
    && l' == LeftHalf(Joined(l, sep, d), at, if l.Leaf? then l.next else NULL)
    && d' == Reparent(RightHalf(Joined(l, sep, d), at), d.parent)
    && sep' == Separator(Joined(l, sep, d), at)
  }

  /** redistribute_nodes with a left neighbour, leaves: its last entry moves to the front of n. */
  method LeafFromLeft(nb: Node, n: Node, order: nat, ghost sep: int) returns (nb': Node, n': Node, sep': int)
    requires Fits(nb, order) && Fits(n, order) && nb.isLeaf && n.isLeaf
    requires nb.numKeys >= 2 && n.numKeys < order - 1
    ensures Fits(nb', order) && Fits(n', order)
    ensures Recut(ViewOf(nb, order), sep, ViewOf(n, order), nb.numKeys - 1, ViewOf(nb', order), sep', ViewOf(n', order))
  {
    var keys := ShiftUp(n.keys, 0, n.numKeys);
    var ptrs := ShiftUp(n.ptrs, 0, n.numKeys);
    var last := nb.numKeys - 1;
    ptrs := ptrs[0 := nb.ptrs[last]];
    nb' := Node(nb.keys, nb.ptrs[last := NULL], last, true, nb.parent);
    keys := keys[0 := nb.keys[last]];
    sep' := keys[0];
    n' := Node(keys, ptrs, n.numKeys + 1, true, n.parent);
    assert n'.ptrs[order - 1] == ptrs[n.numKeys + 1..][order - 1 - (n.numKeys + 1)];
    ghost var j := Joined(ViewOf(nb, order), sep, ViewOf(n, order));
    assert n'.keys[..n'.numKeys] == [nb.keys[last]] + n.keys[..n.numKeys] == j.keys[last..];
    assert n'.ptrs[..n'.numKeys] == [nb.ptrs[last]] + n.ptrs[..n.numKeys] == j.recs[last..];
    assert nb.keys[..last] == j.keys[..last] && nb.ptrs[..last] == j.recs[..last];
  }

  /** redistribute_nodes with a left neighbour, inner nodes: its last child moves to the front of n. */
  method NodeFromLeft(nb: Node, n: Node, order: nat, sep: int) returns (nb': Node, n': Node, sep': int)
    requires Fits(nb, order) && Fits(n, order) && !nb.isLeaf && !n.isLeaf
    requires nb.numKeys >= 1 && n.numKeys < order - 1
    ensures Fits(nb', order) && Fits(n', order)
    ensures Recut(ViewOf(nb, order), sep, ViewOf(n, order), nb.numKeys - 1, ViewOf(nb', order), sep', ViewOf(n', order))
  {
    var keys := ShiftUp(n.keys, 0, n.numKeys);
    var ptrs := ShiftUp(n.ptrs, 0, n.numKeys + 1);
    var last := nb.numKeys;
    ptrs := ptrs[0 := nb.ptrs[last]];
    keys := keys[0 := sep];
    sep' := nb.keys[last - 1];
    nb' := Node(nb.keys, nb.ptrs[last := NULL], last - 1, false, nb.parent);
    n' := Node(keys, ptrs, n.numKeys + 1, false, n.parent);
    ghost var j := Joined(ViewOf(nb, order), sep, ViewOf(n, order));
    assert n'.keys[..n'.numKeys] == [sep] + n.keys[..n.numKeys] == j.keys[last..];
    assert n'.ptrs[..n'.numKeys + 1] == [nb.ptrs[last]] + n.ptrs[..n.numKeys + 1] == j.kids[last..];
    assert nb.keys[..last - 1] == j.keys[..last - 1] && nb.ptrs[..last] == j.kids[..last];
  }

  /** redistribute_nodes for a leftmost leaf: the first entry of the right neighbour joins n. */
  method LeafFromRight(n: Node, nb: Node, order: nat, ghost sep: int) returns (n': Node, nb': Node, sep': int)
    requires Fits(nb, order) && Fits(n, order) && nb.isLeaf && n.isLeaf
    requires nb.numKeys >= 2 && n.numKeys < order - 1
    ensures Fits(nb', order) && Fits(n', order)
    ensures Recut(ViewOf(n, order), sep, ViewOf(nb, order), n.numKeys + 1, ViewOf(n', order), sep', ViewOf(nb', order))
  {
    var k := n.numKeys;
    n' := Node(n.keys[k := nb.keys[0]], n.ptrs[k := nb.ptrs[0]], k + 1, true, n.parent);
    sep' := nb.keys[1];
    var keys := ShiftDown(nb.keys, 0, nb.numKeys);
    var ptrs := ShiftDown(nb.ptrs, 0, nb.numKeys);
    nb' := Node(keys, ptrs, nb.numKeys - 1, true, nb.parent);
    assert ptrs[order - 1] == ptrs[nb.numKeys - 1..][order - nb.numKeys];
    ghost var j := Joined(ViewOf(n, order), sep, ViewOf(nb, order));
    assert nb'.keys[..nb'.numKeys] == nb.keys[1..nb.numKeys] == j.keys[k + 1..];
    assert nb'.ptrs[..nb'.numKeys] == nb.ptrs[1..nb.numKeys] == j.recs[k + 1..];
    assert n'.keys[..k + 1] == j.keys[..k + 1] && n'.ptrs[..k + 1] == j.recs[..k + 1];
  }

  /** redistribute_nodes for a leftmost inner node: the first child of the right neighbour joins n. */
  method NodeFromRight(n: Node, nb: Node, order: nat, sep: int) returns (n': Node, nb': Node, sep': int)
    requires Fits(nb, order) && Fits(n, order) && !nb.isLeaf && !n.isLeaf
    requires nb.numKeys >= 1 && n.numKeys < order - 1
    ensures Fits(nb', order) && Fits(n', order)
    ensures Recut(ViewOf(n, order), sep, ViewOf(nb, order), n.numKeys + 1, ViewOf(n', order), sep', ViewOf(nb', order))
  {
    var k := n.numKeys;
    n' := Node(n.keys[k := sep], n.ptrs[k + 1 := nb.ptrs[0]], k + 1, false, n.parent);
    sep' := nb.keys[0];
    var keys := ShiftDown(nb.keys, 0, nb.numKeys);
    var ptrs := ShiftDown(nb.ptrs, 0, nb.numKeys + 1);
    nb' := Node(keys, ptrs, nb.numKeys - 1, false, nb.parent);
    ghost var j := Joined(ViewOf(n, order), sep, ViewOf(nb, order));
    assert nb'.keys[..nb'.numKeys] == nb.keys[1..nb.numKeys] == j.keys[k + 2..];
    assert nb'.ptrs[..nb'.numKeys + 1] == nb.ptrs[1..nb.numKeys + 1] == j.kids[k + 2..];
    assert n'.keys[..k + 1] == j.keys[..k + 1] && n'.ptrs[..k + 2] == j.kids[..k + 2];
  }
}
