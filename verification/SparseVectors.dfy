/** sparse_operator of trident-workloads/liblinear/linear.cpp, over the reals. */
module SparseVectors {
  import opened Reals

  /** A feature_node; the end marker is the end of the sequence. */
  datatype Feature = Feature(index: nat, value: real)

  /** Indices count from 1. */
  ghost predicate InRange(x: seq<Feature>, n: nat) {
    forall i :: 0 <= i < |x| ==> 1 <= x[i].index <= n
  }

  /** Indices increase, as in a problem file. */
  ghost predicate Vector(x: seq<Feature>, n: nat) {
    InRange(x, n) && forall i, j :: 0 <= i < j < |x| ==> x[i].index < x[j].index
  }

  /** The k-th component: all entries for that index together. */
  ghost function Component(x: seq<Feature>, k: nat): real {
    if x == [] then 0.0
    else Component(x[..|x| - 1], k) + if x[|x| - 1].index == k + 1 then x[|x| - 1].value else 0.0
  }

  /** The inner product of w and x. */
  ghost function Inner(w: seq<real>, x: seq<Feature>): real
    requires InRange(x, |w|)
  {
    if x == [] then 0.0
    else Inner(w, x[..|x| - 1]) + Mul(w[x[|x| - 1].index - 1], x[|x| - 1].value)
  }

  ghost function SquaredNorm(x: seq<Feature>): real {
    if x == [] then 0.0 else SquaredNorm(x[..|x| - 1]) + Mul(x[|x| - 1].value, x[|x| - 1].value)
  }

  ghost function Squares(w: seq<real>): seq<real> {
    seq(|w|, k requires 0 <= k < |w| => Mul(w[k], w[k]))
  }

  lemma {:induction false} SquaredNormSign(x: seq<Feature>)
    ensures SquaredNorm(x) >= 0.0
  {
    if x != [] {
      SquaredNormSign(x[..|x| - 1]);
      MulSign(x[|x| - 1].value, x[|x| - 1].value);
    }
  }

  /** w + a x */
  ghost function Added(w: seq<real>, a: real, x: seq<Feature>): (r: seq<real>)
    requires InRange(x, |w|)
    ensures |r| == |w|
  {
    if x == [] then w
    else
      var before := Added(w, a, x[..|x| - 1]);
      var k := x[|x| - 1].index - 1;
      before[k := before[k] + Mul(a, x[|x| - 1].value)]
  }

  lemma AddedNext(w: seq<real>, a: real, x: seq<Feature>, i: nat)
    requires InRange(x, |w|) && i < |x|
    ensures var k, before := x[i].index - 1, Added(w, a, x[..i]);
      Added(w, a, x[..i + 1]) == before[k := before[k] + Mul(a, x[i].value)]
  {
    assert x[..i + 1][..i] == x[..i];
  }

  /** Each component of w + a x. */
  lemma {:induction false} AddedAt(w: seq<real>, a: real, x: seq<Feature>, k: nat)
    requires InRange(x, |w|) && k < |w|
    ensures Added(w, a, x)[k] == w[k] + Mul(a, Component(x, k))
    decreases |x|
  {
    MulZero(a);
    if x != [] {
      var m := |x| - 1;
      AddedAt(w, a, x[..m], k);
      MulPlus(a, Component(x[..m], k), if x[m].index == k + 1 then x[m].value else 0.0);
    }
  }

  /** An index that does not occur has component zero. */
  lemma {:induction false} AbsentComponent(x: seq<Feature>, k: nat)
    requires forall i :: 0 <= i < |x| ==> x[i].index != k + 1
    ensures Component(x, k) == 0.0
  {
    if x != [] {
      AbsentComponent(x[..|x| - 1], k);
    }
  }

  /** |w + a x|^2 = |w|^2 + 2 a w x + a^2 |x|^2 */
  lemma {:induction false} NormOfAdded(w: seq<real>, a: real, x: seq<Feature>)
    requires Vector(x, |w|)
    ensures Sum(Squares(Added(w, a, x))) == Sum(Squares(w)) + 2.0 * Mul(a, Inner(w, x)) + Mul(Mul(a, a), SquaredNorm(x))
    decreases |x|
  {
    if x == [] {
      MulZero(a);
      MulZero(Mul(a, a));
    } else {
      var m := |x| - 1;
      NormOfAdded(w, a, x[..m]);
      var before, k, v := Added(w, a, x[..m]), x[m].index - 1, x[m].value;
      AddedAt(w, a, x[..m], k);
      AbsentComponent(x[..m], k);
      MulZero(a);
      SquaresUpdate(before, k, w[k] + Mul(a, v));
      SquareOfSum(w[k], a, v);
      MulPlus(a, Inner(w, x[..m]), Mul(w[k], v));
      MulPlus(Mul(a, a), SquaredNorm(x[..m]), Mul(v, v));
    }
  }

  lemma SquaresUpdate(w: seq<real>, k: nat, x: real)
    requires k < |w|
    ensures Sum(Squares(w[k := x])) == Sum(Squares(w)) - Mul(w[k], w[k]) + Mul(x, x)
  {
    assert Squares(w[k := x]) == Squares(w)[k := Mul(x, x)];
    SumUpdate(Squares(w), k, Mul(x, x));
  }

  /** (u + a v)^2 = u^2 + 2 a (u v) + (a a) (v v) */
  lemma SquareOfSum(u: real, a: real, v: real)
    ensures Mul(u + Mul(a, v), u + Mul(a, v)) == Mul(u, u) + 2.0 * Mul(a, Mul(u, v)) + Mul(Mul(a, a), Mul(v, v))
  {
    var p := Mul(a, v);
    MulPlus(u + p, u, p);
    MulPlus(u, u, p);
    MulPlus(p, u, p);
    MulCommutes(u, p);
    assert Mul(p, u) == Mul(a, Mul(u, v)) by {
      MulAssociates(a, v, u);
      MulCommutes(v, u);
    }
    assert Mul(p, p) == Mul(Mul(a, a), Mul(v, v)) by {
      MulAssociates(a, v, p);
      MulCommutes(v, p);
      MulAssociates(a, v, v);
      MulAssociates(a, a, Mul(v, v));
    }
  }

  // --------------------------------------------------------- combinations of examples

  /** The contributions of the examples to component k. */
  ghost function Shares(xs: seq<seq<Feature>>, coeffs: seq<real>, k: nat): seq<real>
    requires |coeffs| == |xs|
  {
    seq(|xs|, i requires 0 <= i < |xs| => Mul(coeffs[i], Component(xs[i], k)))
  }

  ghost predicate CombinesAt(xs: seq<seq<Feature>>, coeffs: seq<real>, w: seq<real>, k: nat) {
    k < |w| && |coeffs| == |xs| && w[k] == Sum(Shares(xs, coeffs, k))
  }

  /** w is the sum of the examples, each times its coefficient. */
  ghost predicate Combines(xs: seq<seq<Feature>>, coeffs: seq<real>, w: seq<real>) {
    |coeffs| == |xs| && forall k: nat {:trigger CombinesAt(xs, coeffs, w, k)} :: k < |w| ==> CombinesAt(xs, coeffs, w, k)
  }

  /** One share changes with one coefficient. */
  lemma ShareStep(xs: seq<seq<Feature>>, coeffs: seq<real>, i: nat, d: real, k: nat)
    requires |coeffs| == |xs| && i < |xs|
    ensures Sum(Shares(xs, coeffs[i := coeffs[i] + d], k)) == Sum(Shares(xs, coeffs, k)) + Mul(d, Component(xs[i], k))
  {
    var c := Component(xs[i], k);
    var share := Mul(coeffs[i] + d, c);
    assert Shares(xs, coeffs[i := coeffs[i] + d], k) == Shares(xs, coeffs, k)[i := share];
    SumUpdate(Shares(xs, coeffs, k), i, share);
    MulPlus(c, coeffs[i], d);
  }

  /** A coefficient moves and w with it. */
  lemma CombinesStep(xs: seq<seq<Feature>>, coeffs: seq<real>, w: seq<real>, i: nat, d: real)
    requires Combines(xs, coeffs, w) && i < |xs| && InRange(xs[i], |w|)
    ensures Combines(xs, coeffs[i := coeffs[i] + d], Added(w, d, xs[i]))
  {
    var coeffs', w' := coeffs[i := coeffs[i] + d], Added(w, d, xs[i]);
    forall k: nat | k < |w'|
      ensures CombinesAt(xs, coeffs', w', k)
    {
      assert CombinesAt(xs, coeffs, w, k);
      AddedAt(w, d, xs[i], k);
      ShareStep(xs, coeffs, i, d, k);
    }
  }

  lemma CombinesZero(xs: seq<seq<Feature>>, coeffs: seq<real>, w: seq<real>)
    requires |coeffs| == |xs| && (forall i :: 0 <= i < |coeffs| ==> coeffs[i] == 0.0) && forall k :: 0 <= k < |w| ==> w[k] == 0.0
    ensures Combines(xs, coeffs, w)
  {
    forall k: nat | k < |w|
      ensures CombinesAt(xs, coeffs, w, k)
    {
      forall i: nat | i < |xs|
        ensures Shares(xs, coeffs, k)[i] == 0.0
      {
        MulZero(Component(xs[i], k));
      }
      SumZeros(Shares(xs, coeffs, k));
    }
  }

  // ------------------------------------------------------------------- the operations

  /** nrm2_sq */
  method Nrm2Sq(x: seq<Feature>) returns (ret: real)
    ensures ret == SquaredNorm(x)
  {
    ret := 0.0;
    for i := 0 to |x|
      invariant ret == SquaredNorm(x[..i])
    {
      assert x[..i + 1][..i] == x[..i];
      MulIs(x[i].value, x[i].value);
      ret := ret + x[i].value * x[i].value;
    }
    assert x[..|x|] == x;
  }

  /** dot */
  method Dot(s: array<real>, x: seq<Feature>) returns (ret: real)
    requires InRange(x, s.Length)
    ensures ret == Inner(s[..], x)
  {
    ret := 0.0;
    for i := 0 to |x|
      invariant ret == Inner(s[..], x[..i])
    {
      assert x[..i + 1][..i] == x[..i];
      MulIs(s[x[i].index - 1], x[i].value);
      ret := ret + s[x[i].index - 1] * x[i].value;
    }
    assert x[..|x|] == x;
  }

  /** axpy */
  method Axpy(a: real, x: seq<Feature>, y: array<real>)
    requires InRange(x, y.Length)
    modifies y
    ensures y[..] == Added(old(y[..]), a, x)
  {
    ghost var w := y[..];
    for i := 0 to |x|
      invariant y[..] == Added(w, a, x[..i])
    {
      AddedNext(w, a, x, i);
      MulIs(a, x[i].value);
      var k, v := x[i].index - 1, a * x[i].value;
      ghost var before := y[..];
      y[k] := y[k] + v;
      assert y[..] == before[k := before[k] + v];
      assert v == Mul(a, x[i].value) && before == Added(w, a, x[..i]);
    }
    assert x[..|x|] == x;
  }
}
