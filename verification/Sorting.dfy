/** One sort for the calls of std::sort and qsort: a permutation in the order of the comparison. */
module Sorting {

  /** Of two elements one may stand before the other. */
  ghost predicate Total<T(!new)>(le: (T, T) -> bool) {
    forall a: T, b: T :: le(a, b) || le(b, a)
  }

  ghost predicate Ordered<T>(le: (T, T) -> bool, s: seq<T>) {
    forall i :: 0 < i < |s| ==> le(s[i - 1], s[i])
  }

  lemma Inserted<T>(le: (T, T) -> bool, r: seq<T>, k: nat, x: T)
    requires k <= |r| && Ordered(le, r) && (k > 0 ==> le(r[k - 1], x)) && (k < |r| ==> le(x, r[k]))
    ensures Ordered(le, r[..k] + [x] + r[k..])
  {
  }

  lemma InsertedOnce<T>(r: seq<T>, k: nat, x: T)
    requires k <= |r|
    ensures multiset(r[..k] + [x] + r[k..]) == multiset(r) + multiset{x}
  {
    assert r == r[..k] + r[k..];
  }

  method Sort<T(!new)>(s: seq<T>, le: (T, T) -> bool) returns (r: seq<T>)
    requires Total(le)
    ensures multiset(r) == multiset(s) && Ordered(le, r)
  {
    r := [];
    for i := 0 to |s|
      invariant multiset(r) == multiset(s[..i]) && Ordered(le, r)
    {
      assert s[..i + 1] == s[..i] + [s[i]];
      var k := |r|;
      while k > 0 && !le(r[k - 1], s[i])
        invariant 0 <= k <= |r| && (k < |r| ==> le(s[i], r[k]))
      {
        k := k - 1;
      }
      Inserted(le, r, k, s[i]);
      InsertedOnce(r, k, s[i]);
      r := r[..k] + [s[i]] + r[k..];
    }
    assert s[..|s|] == s;
  }
}
