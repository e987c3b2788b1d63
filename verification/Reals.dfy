/** Sums and products of reals, with their laws; doubles are modelled as reals. */
module Reals {

  /** A bound or threshold; INF, or -INF for a lower one, does not bind. */
  datatype Limit = Finite(value: real) | Infinite

  function Larger(limit: Limit, x: real): Limit {
    if limit.Infinite? || limit.value < x then Finite(x) else limit
  }

  function Smaller(limit: Limit, x: real): Limit {
    if limit.Infinite? || limit.value > x then Finite(x) else limit
  }

  // ------------------------------------------------------------------------ products

  /** Taking k times b from p leaves the product of a - k and b. */
  ghost predicate ProductAt(a: real, b: real, p: real, k: real) {
    p - k * b == (a - k) * b
  }

  ghost predicate IsProduct(a: real, b: real, p: real) {
    forall k: real {:trigger ProductAt(a, b, p, k)} :: ProductAt(a, b, p, k)
  }

  /**
    Multiplication, by its characteristic property, so that proofs about sums of products
    appeal to its laws and not to the solver's non-linear arithmetic.
  */
  ghost function Mul(a: real, b: real): real {
    ProductExists(a, b);
    var p :| IsProduct(a, b, p);
    p
  }

  lemma ProductExists(a: real, b: real)
    ensures IsProduct(a, b, a * b)
  {
    var p := a * b;
    forall k: real
      ensures ProductAt(a, b, p, k)
    {
    }
  }

  lemma MulIs(a: real, b: real)
    ensures Mul(a, b) == a * b
  {
    ProductExists(a, b);
    assert ProductAt(a, b, Mul(a, b), 0.0);
  }

  lemma MulPlus(k: real, a: real, b: real)
    ensures Mul(k, a + b) == Mul(k, a) + Mul(k, b)
    ensures Mul(a + b, k) == Mul(a, k) + Mul(b, k)
  {
    MulIs(k, a + b);
    MulIs(k, a);
    MulIs(k, b);
    MulIs(a + b, k);
    MulIs(a, k);
    MulIs(b, k);
  }

  lemma MulMinus(k: real, a: real, b: real)
    ensures Mul(k, a - b) == Mul(k, a) - Mul(k, b)
    ensures Mul(a - b, k) == Mul(a, k) - Mul(b, k)
  {
    MulPlus(k, a - b, b);
  }

  lemma MulZero(a: real)
    ensures Mul(a, 0.0) == 0.0 && Mul(0.0, a) == 0.0 && Mul(a, 1.0) == a && Mul(1.0, a) == a
  {
    MulIs(a, 0.0);
    MulIs(0.0, a);
    MulIs(a, 1.0);
    MulIs(1.0, a);
  }

  lemma MulCommutes(a: real, b: real)
    ensures Mul(a, b) == Mul(b, a)
  {
    MulIs(a, b);
    MulIs(b, a);
  }

  lemma MulAssociates(a: real, b: real, c: real)
    ensures Mul(Mul(a, b), c) == Mul(a, Mul(b, c))
  {
    MulIs(a, b);
    MulIs(b, c);
    MulIs(a * b, c);
    MulIs(a, b * c);
    Associate(a, b, c);
  }

  lemma Associate(a: real, b: real, c: real)
    ensures (a * b) * c == a * (b * c)
  {
  }

  lemma MulSign(a: real, b: real)
    ensures a >= 0.0 && b >= 0.0 ==> Mul(a, b) >= 0.0
    ensures a <= 0.0 && b <= 0.0 ==> Mul(a, b) >= 0.0
    ensures (a > 0.0 && b > 0.0) || (a < 0.0 && b < 0.0) ==> Mul(a, b) > 0.0
  {
    MulIs(a, b);
  }

  lemma MulDiv(a: real, x: real)
    requires a > 0.0
    ensures Mul(a, x / a) == x
  {
    MulIs(a, x / a);
  }

  lemma MulCancel(a: real, x: real, y: real)
    requires a > 0.0 && Mul(a, x) == Mul(a, y)
    ensures x == y
  {
    MulMinus(a, x, y);
    MulMinus(a, y, x);
    MulSign(a, x - y);
    MulSign(a, y - x);
  }

  /** The quotient, by what multiplying it back gives. */
  ghost function Over(g: real, q: real): (r: real)
    requires q > 0.0
    ensures Mul(q, r) == g
  {
    MulDiv(q, g);
    var r :| Mul(q, r) == g;
    r
  }

  lemma OverIs(g: real, q: real)
    requires q > 0.0
    ensures Over(g, q) == g / q
  {
    MulDiv(q, g);
    MulCancel(q, Over(g, q), g / q);
  }

  // ---------------------------------------------------------------------------- sums

  ghost function Sum(s: seq<real>): real {
    if s == [] then 0.0 else Sum(s[..|s| - 1]) + s[|s| - 1]
  }

  lemma {:induction false} SumUpdate(s: seq<real>, i: nat, x: real)
    requires i < |s|
    ensures Sum(s[i := x]) == Sum(s) - s[i] + x
  {
    var m := |s| - 1;
    if i == m {
      assert s[i := x][..m] == s[..m];
    } else {
      SumUpdate(s[..m], i, x);
      assert s[i := x][..m] == s[..m][i := x];
    }
  }

  lemma {:induction false} SumConcat(s: seq<real>, t: seq<real>)
    ensures Sum(s + t) == Sum(s) + Sum(t)
    decreases |t|
  {
    if t == [] {
      assert s + t == s;
    } else {
      var m := |t| - 1;
      SumConcat(s, t[..m]);
      assert (s + t)[..|s| + m] == s + t[..m];
    }
  }

  ghost function Zeros(n: nat): seq<real> {
    seq(n, i => 0.0)
  }

  lemma {:induction false} SumZeros(s: seq<real>)
    requires forall i :: 0 <= i < |s| ==> s[i] == 0.0
    ensures Sum(s) == 0.0
  {
    if s != [] {
      SumZeros(s[..|s| - 1]);
    }
  }

  lemma SumSingle(x: real)
    ensures Sum([x]) == x
  {
    assert [x][..0] == [];
  }

  /** Taking the same value out of both leaves permutations of each other. */
  lemma RemoveOne(s: seq<real>, t: seq<real>) returns (i: nat)
    requires multiset(s) == multiset(t) && s != []
    ensures i < |t| && t[i] == s[|s| - 1] && |s| == |t|
    ensures multiset(s[..|s| - 1]) == multiset(t[..i] + t[i + 1..])
    ensures t == t[..i] + [t[i]] + t[i + 1..]
  {
    var m := |s| - 1;
    assert |s| == |multiset(s)| == |multiset(t)| == |t|;
    assert s[m] in multiset(s);
    i :| i < |t| && t[i] == s[m];
    assert s == s[..m] + [s[m]];
    assert t == t[..i] + [t[i]] + t[i + 1..];
    assert multiset(s[..m]) == multiset(s) - multiset{s[m]};
    assert multiset(t[..i] + t[i + 1..]) == multiset(t) - multiset{t[i]};
  }

  /** A sum does not depend on the order. */
  lemma {:induction false} SumPermuted(s: seq<real>, t: seq<real>)
    requires multiset(s) == multiset(t)
    ensures Sum(s) == Sum(t)
    decreases |s|
  {
    if s == [] {
      assert |t| == |multiset(t)| == |multiset(s)|;
    } else {
      var m := |s| - 1;
      var i := RemoveOne(s, t);
      SumPermuted(s[..m], t[..i] + t[i + 1..]);
      SumConcat(t[..i], t[i + 1..]);
      SumConcat(t[..i] + [t[i]], t[i + 1..]);
      SumConcat(t[..i], [t[i]]);
      SumSingle(t[i]);
    }
  }
}
