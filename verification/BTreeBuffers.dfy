/**
  The loops that work inside one node: searching, shifting and copying key and
  pointer buffers.  Buffers have the fixed length the source allocates for them,
  so every index below is also proved to be inside its buffer.
*/
module BTreeBuffers {
  import opened BTreeShape

  /** keys[i] and up move one place to the right, so that a new key fits at from. */
  method ShiftUp<T>(buf: seq<T>, from: nat, n: nat) returns (r: seq<T>)
    requires from <= n < |buf|
    ensures |r| == |buf|
    ensures r[..from] == buf[..from] && r[from + 1..n + 1] == buf[from..n] && r[n + 1..] == buf[n + 1..]
  {
    r := buf;
    var i := n;
    while i > from
      invariant from <= i <= n && |r| == |buf|
      invariant r[..i + 1] == buf[..i + 1]
      invariant r[i + 1..n + 1] == buf[i..n]
      invariant r[n + 1..] == buf[n + 1..]
    {
      r := r[i := r[i - 1]];
      i := i - 1;
    }
  }

  /** The elements after at move one place to the left, over the element at at. */
  method ShiftDown<T>(buf: seq<T>, at: nat, n: nat) returns (r: seq<T>)
    requires at < n <= |buf|
    ensures |r| == |buf|
    ensures r[..at] == buf[..at] && r[at..n - 1] == buf[at + 1..n] && r[n - 1..] == buf[n - 1..]
  {
    r := buf;
    var i := at + 1;
    while i < n
      invariant at < i <= n && |r| == |buf|
      invariant forall k :: at <= k < i - 1 ==> r[k] == buf[k + 1]
      invariant forall k :: 0 <= k < at || i - 1 <= k < |buf| ==> r[k] == buf[k]
    {
      r := r[i - 1 := r[i]];
      i := i + 1;
    }
  }

  /** Copy src[..n] into temp, leaving one place free at gap. */
  method CopyWithGap<T>(src: seq<T>, n: nat, gap: nat, temp: seq<T>) returns (r: seq<T>)
    requires gap <= n <= |src| && n < |temp|
    ensures |r| == |temp|
    ensures r[..gap] == src[..gap] && r[gap + 1..n + 1] == src[gap..n]
  {
    r := temp;
    var i, j := 0, 0;
    while i < n
      invariant 0 <= i <= n && |r| == |temp|
      invariant j == if i <= gap then i else i + 1
      invariant forall k :: 0 <= k < i ==> r[if k < gap then k else k + 1] == src[k]
    {
      if j == gap {
        j := j + 1;
      }
      r := r[j := src[i]];
      i, j := i + 1, j + 1;
    }
    assert forall k :: 0 <= k < gap ==> r[if k < gap then k else k + 1] == src[k];
    assert forall k :: gap <= k < n ==> r[if k < gap then k else k + 1] == src[k];
  }

  /** The temporary buffer of a split: src[..n] with x entered at gap. */
  method Staged<T>(src: seq<T>, n: nat, gap: nat, x: T, temp: seq<T>) returns (r: seq<T>)
    requires gap <= n <= |src| && n < |temp|
    ensures |r| == |temp|
    ensures r[..n + 1] == InsertAt(src[..n], gap, x)
  {
    r := CopyWithGap(src, n, gap, temp);
    r := r[gap := x];
    assert src[..n][..gap] == src[..gap] && src[..n][gap..] == src[gap..n];
  }

  /** Copy src[from..to] to dst, starting at at. */
  method CopyRange<T>(src: seq<T>, from: nat, to: nat, dst: seq<T>, at: nat) returns (r: seq<T>)
    requires from <= to <= |src| && at + (to - from) <= |dst|
    ensures |r| == |dst|
    ensures r[..at] == dst[..at]
    ensures r[at..at + (to - from)] == src[from..to]
    ensures r[at + (to - from)..] == dst[at + (to - from)..]
  {
    r := dst;
    var i, j := from, at;
    while i < to
      invariant from <= i <= to && j == at + (i - from) && |r| == |dst|
      invariant forall k :: 0 <= k < |dst| ==> r[k] == if at <= k < j then src[from + (k - at)] else dst[k]
    {
      r := r[j := src[i]];
      i, j := i + 1, j + 1;
    }
  }

  /** Set buf[from..to] to the null pointer. */
  method Clear(buf: seq<nat>, from: nat, to: nat) returns (r: seq<nat>)
    requires to <= |buf|
    ensures |r| == |buf|
    ensures from <= to ==> r[..from] == buf[..from] && r[to..] == buf[to..]
    ensures from > to ==> r == buf
    ensures forall i :: from <= i < to ==> r[i] == NULL
  {
    r := buf;
    var i := from;
    while i < to
      invariant from <= i && (from <= to ==> i <= to) && (from > to ==> r == buf)
      invariant |r| == |buf|
      invariant from <= to ==> r[..from] == buf[..from] && r[to..] == buf[to..]
      invariant forall j :: from <= j < i && j < to ==> r[j] == NULL
    {
      r := r[i := NULL];
      i := i + 1;
    }
  }

  /** The number of keys below key, by the source's forward scan. */
  method InsertionPoint(keys: seq<int>, n: nat, key: int) returns (i: nat)
    requires n <= |keys| && Sorted(keys[..n])
    ensures i <= n
    ensures forall j :: 0 <= j < i ==> keys[j] < key
    ensures forall j :: i <= j < n ==> key <= keys[j]
  {
    i := 0;
    while i < n && keys[i] < key
      invariant i <= n
      invariant forall j :: 0 <= j < i ==> keys[j] < key
    {
      i := i + 1;
    }
    forall j | i <= j < n
      ensures key <= keys[j]
    {
      assert keys[..n][i] <= keys[..n][j];
    }
  }

  /** First position of x, as the source's unbounded while loops find it. */
  method FirstIndex<T(==)>(buf: seq<T>, x: T, ghost n: nat) returns (i: nat)
    requires n < |buf| && buf[n] == x
    ensures i <= n && buf[i] == x
    ensures forall j :: 0 <= j < i ==> buf[j] != x
  {
    i := 0;
    while buf[i] != x
      invariant i <= n
      invariant forall j :: 0 <= j < i ==> buf[j] != x
      decreases n - i
    {
      i := i + 1;
    }
  }
}
