/** Arrays that hold every number below their length once, and the shuffle of the solvers of liblinear. */
module Permutations {
  import F = Frontier

  ghost predicate Permutation(idx: seq<nat>, l: nat) {
    |idx| == l && (forall a :: 0 <= a < l ==> idx[a] < l) && F.Distinct(idx)
  }

  lemma Apart(idx: seq<nat>)
    ensures F.Distinct(idx) <==> forall a, b :: 0 <= a < b < |idx| ==> idx[a] != idx[b]
  {
    if F.Distinct(idx) {
      forall a, b | 0 <= a < b < |idx|
        ensures idx[a] != idx[b]
      {
        assert F.DistinctAt(idx, b);
      }
    } else {
      var b: nat :| b < |idx| && !F.DistinctAt(idx, b);
    }
  }

  lemma TwoCopies(r: seq<nat>, i: nat, j: nat)
    requires i < j < |r| && r[i] == r[j]
    ensures multiset(r)[r[i]] >= 2
  {
    assert r == r[..i] + [r[i]] + r[i + 1..j] + [r[j]] + r[j + 1..];
  }

  /** Every number below l has its place. */
  lemma PlaceOf(idx: seq<nat>, l: nat, x: nat) returns (a: nat)
    requires Permutation(idx, l) && x < l
    ensures a < l && idx[a] == x
  {
    F.DistinctSize(idx);
    assert F.Elements(idx) <= F.Below(l);
    F.SubsetSize(F.Elements(idx), F.Below(l));
    assert x in F.Elements(idx);
    a :| a < l && idx[a] == x;
  }

  ghost predicate OnceAt(s: seq<nat>, l: nat, v: nat) {
    multiset(s)[v] <= if v < l then 1 else 0
  }

  /** Nothing is listed twice. */
  ghost predicate Once(s: seq<nat>, l: nat) {
    forall v: nat {:trigger OnceAt(s, l, v)} :: OnceAt(s, l, v)
  }

  lemma {:induction false} DistinctOnce(s: seq<nat>, l: nat, v: nat)
    requires F.Distinct(s) && forall a :: 0 <= a < |s| ==> s[a] < l
    ensures OnceAt(s, l, v)
  {
    if s != [] {
      var m := |s| - 1;
      forall i: nat | i < m
        ensures F.DistinctAt(s[..m], i)
      {
        assert F.DistinctAt(s, i);
      }
      DistinctOnce(s[..m], l, v);
      assert F.DistinctAt(s, m) && s == s[..m] + [s[m]];
      assert s[m] !in s[..m];
      assert multiset(s[..m])[s[m]] == 0;
    }
  }

  lemma PermutationOnce(s: seq<nat>, l: nat)
    requires Permutation(s, l)
    ensures Once(s, l)
  {
    forall v: nat
      ensures OnceAt(s, l, v)
    {
      DistinctOnce(s, l, v);
    }
  }

  lemma OnceDistinct(s: seq<nat>, l: nat)
    requires Once(s, l)
    ensures F.Distinct(s) && forall a :: 0 <= a < |s| ==> s[a] < l
  {
    forall a | 0 <= a < |s|
      ensures s[a] < l
    {
      assert OnceAt(s, l, s[a]) && s[a] in multiset(s);
    }
    forall a: nat | a < |s|
      ensures F.DistinctAt(s, a)
    {
      forall b: nat | b < a
        ensures s[b] != s[a]
      {
        assert OnceAt(s, l, s[a]);
        if s[b] == s[a] {
          TwoCopies(s, b, a);
        }
      }
    }
  }

  lemma OnceOf(a: seq<nat>, b: seq<nat>, l: nat)
    requires Once(a, l) && multiset(a) == multiset(b)
    ensures Once(b, l)
  {
    forall v: nat
      ensures OnceAt(b, l, v)
    {
      assert OnceAt(a, l, v);
    }
  }

  /** An exchange of positions: every position takes its number from another one, each from its own. */
  lemma MovedPermutation(idx: seq<nat>, l: nat, idx': seq<nat>, from: seq<nat>)
    requires Permutation(idx, l) && |idx'| == l && |from| == l
    requires forall a :: 0 <= a < l ==> from[a] < l && idx'[a] == idx[from[a]]
    requires forall a, b :: 0 <= a < b < l ==> from[a] != from[b]
    ensures Permutation(idx', l)
  {
    Apart(idx);
    Apart(idx');
    forall a, b | 0 <= a < b < l
      ensures idx'[a] != idx'[b]
    {
      assert from[a] < from[b] || from[b] < from[a];
    }
  }

  ghost function Places(l: nat): seq<nat> {
    seq(l, a => a)
  }

  lemma SwappedPermutation(idx: seq<nat>, l: nat, i: nat, j: nat)
    requires Permutation(idx, l) && i <= j < l
    ensures Permutation(idx[i := idx[j]][j := idx[i]], l)
  {
    var places := Places(l);
    MovedPermutation(idx, l, idx[i := idx[j]][j := idx[i]], places[i := places[j]][j := places[i]]);
  }

  lemma SwappedPart(idx: seq<nat>, i: nat, j: nat, active: nat)
    requires i <= j < active <= |idx|
    ensures multiset(idx[i := idx[j]][j := idx[i]][..active]) == multiset(idx[..active])
    ensures idx[i := idx[j]][j := idx[i]][active..] == idx[active..]
  {
    var s := idx[..active];
    assert idx[i := idx[j]][j := idx[i]][..active] == s[i := s[j]][j := s[i]];
  }

  /** swap(index[i], index[i + rand_int(active - i)]) for every active i: any draws keep the active numbers. */
  method Shuffle(index: array<nat>, active: nat, rand: nat -> nat)
    requires active <= index.Length && Permutation(index[..], index.Length)
    modifies index
    ensures Permutation(index[..], index.Length)
    ensures multiset(index[..active]) == multiset(old(index[..active])) && index[active..] == old(index[active..])
  {
    for i := 0 to active
      invariant Permutation(index[..], index.Length)
      invariant multiset(index[..active]) == multiset(old(index[..active])) && index[active..] == old(index[active..])
    {
      var j := i + rand(i) % (active - i);
      ghost var idx := index[..];
      SwappedPart(idx, i, j, active);
      SwappedPermutation(idx, index.Length, i, j);
      index[i], index[j] := index[j], index[i];
      assert index[..] == idx[i := idx[j]][j := idx[i]];
    }
  }

  // ------------------------------------------------------------ working through the index

  lemma TwoParts(x: nat, p: seq<nat>, z: nat)
    ensures multiset([x] + p + [z]) == multiset([z] + p) + multiset{x}
  {
  }

  lemma NextRest(idx: seq<nat>, a: nat, c: nat)
    requires a < c <= |idx|
    ensures multiset(idx[a..c]) == multiset(idx[a + 1..c]) + multiset{idx[a]}
  {
    assert idx[a..c] == [idx[a]] + idx[a + 1..c];
  }

  /** The last active number takes the place of the one at a, which goes out. */
  lemma SwappedOut(idx: seq<nat>, a: nat, c: nat)
    requires a <= c < |idx|
    ensures multiset(idx[a..c + 1]) == multiset(idx[a := idx[c]][c := idx[a]][a..c]) + multiset{idx[a]}
  {
    if a == c {
      assert idx[a..c + 1] == [idx[a]];
    } else {
      assert idx[a..c + 1] == [idx[a]] + idx[a + 1..c] + [idx[c]];
      assert idx[a := idx[c]][c := idx[a]][a..c] == [idx[c]] + idx[a + 1..c];
      TwoParts(idx[a], idx[a + 1..c], idx[c]);
    }
  }

  ghost predicate AccountedFor(start: seq<nat>, idx: seq<nat>, t: nat, next: nat, active: nat, active0: nat, examined: seq<nat>, v: nat) {
    && t <= active0 <= |start| && next <= active <= |idx|
    && multiset(start[t..active0])[v] == multiset(examined)[v] + multiset(idx[next..active])[v]
  }

  /** Every number of the active part has been examined or is still to come, as often as it stands there. */
  ghost predicate Accounted(start: seq<nat>, idx: seq<nat>, t: nat, next: nat, active: nat, active0: nat, examined: seq<nat>) {
    forall v: nat {:trigger AccountedFor(start, idx, t, next, active, active0, examined, v)} ::
      AccountedFor(start, idx, t, next, active, active0, examined, v)
  }

  lemma AccountedStart(start: seq<nat>, t: nat, active0: nat)
    requires t <= active0 <= |start|
    ensures Accounted(start, start, t, t, active0, active0, [])
  {
    forall v: nat
      ensures AccountedFor(start, start, t, t, active0, active0, [], v)
    {
    }
  }

  lemma AccountedIs(start: seq<nat>, idx: seq<nat>, t: nat, next: nat, active: nat, active0: nat, examined: seq<nat>)
    requires Accounted(start, idx, t, next, active, active0, examined)
    ensures t <= active0 <= |start| && next <= active <= |idx|
    ensures multiset(start[t..active0]) == multiset(examined) + multiset(idx[next..active])
  {
    assert AccountedFor(start, idx, t, next, active, active0, examined, 0);
    forall v: nat
      ensures multiset(start[t..active0])[v] == (multiset(examined) + multiset(idx[next..active]))[v]
    {
      assert AccountedFor(start, idx, t, next, active, active0, examined, v);
    }
  }

  lemma AccountedMove(start: seq<nat>, idx: seq<nat>, idx': seq<nat>, t: nat, next: nat, next': nat, active: nat, active': nat, active0: nat,
                      examined: seq<nat>, i: nat)
    requires Accounted(start, idx, t, next, active, active0, examined) && next <= active <= |idx| && next' <= active' <= |idx'|
    requires multiset(idx[next..active]) == multiset(idx'[next'..active']) + multiset{i}
    ensures Accounted(start, idx', t, next', active', active0, examined + [i])
  {
    forall v: nat
      ensures AccountedFor(start, idx', t, next', active', active0, examined + [i], v)
    {
      assert AccountedFor(start, idx, t, next, active, active0, examined, v);
      assert multiset(idx[next..active])[v] == multiset(idx'[next'..active'])[v] + multiset{i}[v];
      assert multiset(examined + [i])[v] == multiset(examined)[v] + multiset{i}[v];
    }
  }
}
