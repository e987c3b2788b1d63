/**
  The six moves every insertion and deletion is made of, on views.

  Split and Merge are each other's opposites, and so are GrowRoot and ShrinkRoot.
  Node sizes play no part here: a move may pass through a node with too many or
  too few keys.  Each move keeps Shape.
*/
module BTreeMoves {
  import opened BTreeShape

  // ------------------------------------------------------------------ split

  /** The key that goes up when node v is cut at position at. */
  function Separator(v: View, at: nat): int
    requires at < |v.keys|
  {
    v.keys[at]
  }

  ghost predicate CanCut(v: View, at: nat) {
    at < |v.keys| && match v
    case Leaf(keys, recs, _, _) => 0 < at && |recs| == |keys|
    case Inner(keys, kids, _) => |kids| == |keys| + 1
  }

  function LeftHalf(v: View, at: nat, right: nat): View
    requires CanCut(v, at)
  {
    match v
    case Leaf(keys, recs, next, parent) => Leaf(keys[..at], recs[..at], right, parent)
    case Inner(keys, kids, parent) => Inner(keys[..at], kids[..at + 1], parent)
  }

  function RightHalf(v: View, at: nat): View
    requires CanCut(v, at)
  {
    match v
    case Leaf(keys, recs, next, parent) => Leaf(keys[at..], recs[at..], next, parent)
    case Inner(keys, kids, parent) => Inner(keys[at + 1..], kids[at + 1..], parent)
  }

  function Reparent(v: View, p: nat): (r: View)
    ensures r.parent == p && r.keys == v.keys && (r.Leaf? <==> v.Leaf?)
    ensures v.Leaf? ==> r.recs == v.recs && r.next == v.next
    ensures v.Inner? ==> r.kids == v.kids
  {
    match v
    case Leaf(keys, recs, next, _) => Leaf(keys, recs, next, p)
    case Inner(keys, kids, _) => Inner(keys, kids, p)
  }

  function Movers(v: View): seq<nat> {
    if v.Inner? then v.kids else []
  }

  /** Point the parent field of every node of s at p. */
  ghost function Adopt(h: Heap, s: seq<nat>, p: nat): (r: Heap)
    ensures r.Keys == h.Keys
    ensures forall n :: n in h ==> r[n] == if n in s then Reparent(h[n], p) else h[n]
  {
    map n | n in h :: if n in s then Reparent(h[n], p) else h[n]
  }

  /** Node n is cut in two, the right half stored at q; the parent of n does not know yet. */
  ghost function Halves(h: Heap, n: nat, at: nat, q: nat): Heap
    requires n in h && CanCut(h[n], at)
  {
    Adopt(h[n := LeftHalf(h[n], at, q)][q := RightHalf(h[n], at)], Movers(RightHalf(h[n], at)), q)
  }

  ghost predicate IsKid(h: Heap, g: nat, i: nat, n: nat) {
    && g in h && h[g].Inner?
    && i < |h[g].kids| == |h[g].keys| + 1
    && h[g].kids[i] == n
  }

  ghost function AddKid(v: View, i: nat, key: int, q: nat): View
    requires v.Inner? && i < |v.kids| == |v.keys| + 1
  {
    Inner(InsertAt(v.keys, i, key), InsertAt(v.kids, i + 1, q), v.parent)
  }

  /** Cut node n, child i of g, and enter the separator and the right half into g. */
  ghost function Split(h: Heap, g: nat, i: nat, n: nat, at: nat, q: nat): Heap
    requires n in h && CanCut(h[n], at) && IsKid(h, g, i, n) && g != n
  {
    Halves(h, n, at, q)[g := AddKid(h[g], i, Separator(h[n], at), q)]
  }

  ghost function SplitSpans(sp: Spans, n: nat, sep: int, q: nat): Spans
    requires n in sp
  {
    sp[n := sp[n].(hi := sep)][q := sp[n].(lo := sep)]
  }

  // ------------------------------------------------------------------ merge

  /** Two neighbouring nodes joined; sep is the key of the parent between them. */
  function Joined(l: View, sep: int, d: View): View
    requires l.Leaf? <==> d.Leaf?
  {
    match l
    case Leaf(keys, recs, _, parent) => Leaf(keys + d.keys, recs + d.recs, d.next, parent)
    case Inner(keys, kids, parent) => Inner(keys + [sep] + d.keys, kids + d.kids, parent)
  }

  ghost function DropKid(v: View, i: nat): View
    requires v.Inner? && i < |v.keys| && |v.kids| == |v.keys| + 1
  {
    Inner(RemoveAt(v.keys, i), RemoveAt(v.kids, i + 1), v.parent)
  }

  ghost predicate AreNeighbours(h: Heap, g: nat, i: nat) {
    && g in h && h[g].Inner?
    && i < |h[g].keys| && |h[g].kids| == |h[g].keys| + 1
    && h[g].kids[i] in h && h[g].kids[i + 1] in h
    && h[g].kids[i] != h[g].kids[i + 1] && g != h[g].kids[i] && g != h[g].kids[i + 1]
    && (h[h[g].kids[i]].Leaf? <==> h[h[g].kids[i + 1]].Leaf?)
  }

  /** Child i of g absorbs child i + 1, whose node is given up; g does not know yet. */
  ghost function Absorbed(h: Heap, g: nat, i: nat): Heap
    requires AreNeighbours(h, g, i)
  {
    var l, d := h[g].kids[i], h[g].kids[i + 1];
    Adopt(h[l := Joined(h[l], h[g].keys[i], h[d])], Movers(h[d]), l) - {d}
  }

  /** Child i of g absorbs child i + 1, and g drops the separator and the child. */
  ghost function Merge(h: Heap, g: nat, i: nat): Heap
    requires AreNeighbours(h, g, i)
  {
    Absorbed(h, g, i)[g := DropKid(h[g], i)]
  }

  ghost function MergeSpans(sp: Spans, l: nat, d: nat): Spans
    requires l in sp && d in sp
  {
    sp[l := sp[l].(hi := sp[d].hi)] - {d}
  }

  // ------------------------------------------------------------------- root

  ghost function GrowRoot(h: Heap, root: nat, r: nat): Heap
    requires root in h
  {
    h[root := Reparent(h[root], r)][r := Inner([], [root], NULL)]
  }

  ghost function GrowSpans(sp: Spans, root: nat, r: nat): Spans
    requires root in sp
  {
    sp[r := Span(sp[root].lvl + 1, 0, LIMIT)]
  }

  ghost function ShrinkRoot(h: Heap, root: nat): Heap
    requires root in h && h[root].Inner? && |h[root].kids| == 1 && h[root].kids[0] in h
  {
    h[h[root].kids[0] := Reparent(h[h[root].kids[0]], NULL)] - {root}
  }

  // ------------------------------------------------------------------- leaf

  ghost function LeafPut(v: View, i: nat, key: int, rec: nat): View
    requires v.Leaf? && i <= |v.keys| == |v.recs|
  {
    Leaf(InsertAt(v.keys, i, key), InsertAt(v.recs, i, rec), v.next, v.parent)
  }

  ghost function LeafCut(v: View, i: nat): View
    requires v.Leaf? && i < |v.keys| == |v.recs|
  {
    Leaf(RemoveAt(v.keys, i), RemoveAt(v.recs, i), v.next, v.parent)
  }
}
