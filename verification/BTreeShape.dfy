/**
  The shape of a B+ tree, stated over a heap of node views.

  A view is what the code can see of one node: its live keys, its live pointers,
  its parent pointer and, for a leaf, the pointer to the next leaf.  Every node
  also has a ghost span: its height above the leaves and the half-open key range
  [lo, hi) that the separators above it leave to it.  All conditions below are
  local to one node and its neighbours; what they imply for whole paths and for
  the whole leaf chain is proved in BTreeTheory.
*/
module BTreeShape {

  /** Keys are uint64_t; addresses are natural numbers and 0 is the null pointer. */
  const LIMIT := 0x1_0000_0000_0000_0000
  const NULL: nat := 0

  datatype View =
    | Leaf(keys: seq<int>, recs: seq<nat>, next: nat, parent: nat)
    | Inner(keys: seq<int>, kids: seq<nat>, parent: nat)

  type Heap = map<nat, View>

  datatype Span = Span(lvl: nat, lo: int, hi: int)

  type Spans = map<nat, Span>

  predicate Sorted(s: seq<int>) {
    forall i, j :: 0 <= i < j < |s| ==> s[i] < s[j]
  }

  ghost predicate LocalOk(v: View, s: Span) {
    && s.lo < s.hi
    && Sorted(v.keys)
    && match v
       case Leaf(keys, recs, _, _) =>
         s.lvl == 0 && |recs| == |keys| && forall i :: 0 <= i < |keys| ==> s.lo <= keys[i] < s.hi
       case Inner(keys, kids, _) =>
         s.lvl > 0 && |kids| == |keys| + 1 && forall i :: 0 <= i < |keys| ==> s.lo < keys[i] < s.hi
  }

  ghost function KidLo(keys: seq<int>, lo: int, i: nat): int
    requires i <= |keys|
  {
    if i == 0 then lo else keys[i - 1]
  }

  ghost function KidHi(keys: seq<int>, hi: int, i: nat): int
    requires i <= |keys|
  {
    if i == |keys| then hi else keys[i]
  }

  ghost predicate NodeOk(h: Heap, sp: Spans, n: nat) {
    n in h && n in sp && LocalOk(h[n], sp[n])
  }

  /** Child i of n hangs one level lower, in exactly the range between its two separators. */
  ghost predicate KidOk(h: Heap, sp: Spans, n: nat, i: nat) {
    && n in h && n in sp && h[n].Inner? && sp[n].lvl > 0
    && i < |h[n].kids| == |h[n].keys| + 1
    && var c := h[n].kids[i];
    && c in h && c in sp
    && h[c].parent == n
    && sp[c] == Span(sp[n].lvl - 1, KidLo(h[n].keys, sp[n].lo, i), KidHi(h[n].keys, sp[n].hi, i))
  }

  /** Every node but the root is a child of the node its parent pointer names. */
  ghost predicate ParentOk(h: Heap, root: nat, n: nat) {
    n in h && (n == root || (h[n].parent in h && h[h[n].parent].Inner? && n in h[h[n].parent].kids))
  }

  ghost predicate ApartPair(sp: Spans, a: nat, b: nat) {
    && a in sp && b in sp
    && (sp[a].lvl == sp[b].lvl ==> sp[a].hi <= sp[b].lo || sp[b].hi <= sp[a].lo)
  }

  /** The next pointer of a leaf names the leaf that starts where this one ends. */
  ghost predicate LinkOk(h: Heap, sp: Spans, n: nat) {
    && n in h && n in sp && h[n].Leaf?
    && if sp[n].hi == LIMIT then h[n].next == NULL
       else h[n].next in h && h[n].next in sp && h[h[n].next].Leaf? && sp[h[n].next].lo == sp[n].hi
  }

  ghost predicate LevelOk(sp: Spans, root: nat, n: nat) {
    root in sp && n in sp && sp[n].lvl <= sp[root].lvl
  }

  ghost predicate Locals(h: Heap, sp: Spans) {
    && h.Keys == sp.Keys
    && NULL !in h
    && forall n {:trigger NodeOk(h, sp, n)} :: n in h ==> NodeOk(h, sp, n)
  }

  ghost predicate Kids(h: Heap, sp: Spans) {
    forall n, i: nat {:trigger KidOk(h, sp, n, i)} ::
      n in h && h[n].Inner? && i < |h[n].kids| ==> KidOk(h, sp, n, i)
  }

  ghost predicate Parents(h: Heap, root: nat) {
    forall n {:trigger ParentOk(h, root, n)} :: n in h ==> ParentOk(h, root, n)
  }

  /** Two nodes of one level never share a key range. */
  ghost predicate Apart(sp: Spans) {
    forall a, b {:trigger ApartPair(sp, a, b)} :: a in sp && b in sp && a != b ==> ApartPair(sp, a, b)
  }

  ghost predicate Chain(h: Heap, sp: Spans) {
    forall n {:trigger LinkOk(h, sp, n)} :: n in h && h[n].Leaf? ==> LinkOk(h, sp, n)
  }

  ghost predicate RootOk(h: Heap, sp: Spans, root: nat) {
    && root in h && root in sp
    && h[root].parent == NULL
    && sp[root].lo == 0 && sp[root].hi == LIMIT
    && forall n {:trigger LevelOk(sp, root, n)} :: n in sp ==> LevelOk(sp, root, n)
  }

  ghost predicate Shape(h: Heap, sp: Spans, root: nat) {
    && Locals(h, sp)
    && Kids(h, sp)
    && Parents(h, root)
    && Apart(sp)
    && Chain(h, sp)
    && RootOk(h, sp, root)
  }

  // ---------------------------------------------------------------- sizes

  /** cut of the source: the place at which a node that is too big is split. */
  function Cut(length: nat): (r: nat)
    ensures r + r == length || r + r == length + 1
  {
    if length % 2 == 0 then length / 2 else length / 2 + 1
  }

  function MinKeys(v: View, order: nat): int {
    if v.Leaf? then Cut(if order == 0 then 0 else order - 1) else Cut(order) - 1
  }

  ghost predicate SizeOk(h: Heap, root: nat, order: nat, n: nat) {
    && n in h
    && |h[n].keys| < order
    && (if n == root then |h[n].keys| >= 1 else |h[n].keys| >= MinKeys(h[n], order))
  }

  /** Every node except x has a legal number of keys; x itself is free. */
  ghost predicate SizesExcept(h: Heap, root: nat, order: nat, x: nat) {
    forall n {:trigger SizeOk(h, root, order, n)} :: n in h && n != x ==> SizeOk(h, root, order, n)
  }

  ghost predicate Sizes(h: Heap, root: nat, order: nat) {
    forall n {:trigger SizeOk(h, root, order, n)} :: n in h ==> SizeOk(h, root, order, n)
  }

  // -------------------------------------------------------------- contents

  /** index maps each stored key to the record its leaf points at. */
  ghost predicate Indexed(h: Heap, index: map<int, nat>) {
    && (forall n, i: nat {:trigger EntryOk(h, index, n, i)} ::
          n in h && h[n].Leaf? && i < |h[n].keys| ==> EntryOk(h, index, n, i))
    && (forall k {:trigger Stored(h, k)} :: k in index ==> Stored(h, k))
  }

  ghost predicate EntryOk(h: Heap, index: map<int, nat>, n: nat, i: nat) {
    && n in h && h[n].Leaf? && i < |h[n].keys| && i < |h[n].recs|
    && h[n].keys[i] in index && index[h[n].keys[i]] == h[n].recs[i]
  }

  ghost predicate Holds(h: Heap, n: nat, k: int) {
    n in h && h[n].Leaf? && k in h[n].keys
  }

  ghost predicate Stored(h: Heap, k: int) {
    exists n :: Holds(h, n, k)
  }

  // --------------------------------------------------------- sequence edits

  function InsertAt<T>(s: seq<T>, i: nat, x: T): (r: seq<T>)
    requires i <= |s|
    ensures |r| == |s| + 1
  {
    s[..i] + [x] + s[i..]
  }

  function RemoveAt<T>(s: seq<T>, i: nat): (r: seq<T>)
    requires i < |s|
    ensures |r| == |s| - 1
  {
    s[..i] + s[i + 1..]
  }
}
