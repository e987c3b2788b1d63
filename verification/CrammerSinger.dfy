/**
  The one-example subproblem of the Crammer-Singer solver
  (trident-workloads/liblinear/linear.cpp, Solver_MCSVM_CS), over the reals.
*/
module CrammerSinger {

  import opened Reals
  import opened Sorting

  // --------------------------------------------------------------- the threshold beta

  function Min(a: real, b: real): real { if a <= b then a else b }

  /** How much d exceeds the threshold. */
  ghost function Excess(beta: real, d: real): real {
    if d > beta then d - beta else 0.0
  }

  ghost function Excesses(beta: real, s: seq<real>): seq<real> {
    seq(|s|, i requires 0 <= i < |s| => Excess(beta, s[i]))
  }

  ghost predicate Descending(s: seq<real>) {
    forall i :: 0 < i < |s| ==> s[i - 1] >= s[i]
  }

  lemma {:induction false} DescendingPair(s: seq<real>, i: nat, j: nat)
    requires Descending(s) && i <= j < |s|
    ensures s[i] >= s[j]
  {
    if i < j {
      DescendingPair(s, i, j - 1);
    }
  }

  lemma {:induction false} ExcessesPermuted(beta: real, s: seq<real>, t: seq<real>)
    requires multiset(s) == multiset(t)
    ensures Sum(Excesses(beta, s)) == Sum(Excesses(beta, t))
    decreases |s|
  {
    if s == [] {
      assert |t| == |multiset(t)| == |multiset(s)|;
      assert Excesses(beta, s) == Excesses(beta, t);
    } else {
      var m := |s| - 1;
      var i := RemoveOne(s, t);
      var a, b := t[..i], t[i + 1..];
      ExcessesPermuted(beta, s[..m], a + b);
      ExcessesConcat(beta, a + [t[i]], b);
      ExcessesConcat(beta, a, [t[i]]);
      ExcessesConcat(beta, a, b);
      assert Excesses(beta, s)[..m] == Excesses(beta, s[..m]);
      ExcessOfOne(beta, t[i]);
    }
  }

  lemma ExcessesConcat(beta: real, s: seq<real>, t: seq<real>)
    ensures Sum(Excesses(beta, s + t)) == Sum(Excesses(beta, s)) + Sum(Excesses(beta, t))
  {
    assert Excesses(beta, s + t) == Excesses(beta, s) + Excesses(beta, t);
    SumConcat(Excesses(beta, s), Excesses(beta, t));
  }

  lemma ExcessOfOne(beta: real, d: real)
    ensures Sum(Excesses(beta, [d])) == Excess(beta, d)
  {
    assert Excesses(beta, [d])[..0] == [];
  }

  /** If exactly the first k entries reach the threshold, the excesses add up to their sum less k times the threshold. */
  lemma {:induction false} ExcessOfSorted(beta: real, s: seq<real>, k: nat, n: nat)
    requires k <= |s| && n <= |s|
    requires forall i :: 0 <= i < k ==> s[i] >= beta
    requires forall i :: k <= i < |s| ==> s[i] <= beta
    ensures Sum(Excesses(beta, s[..n])) == if n <= k then Sum(s[..n]) - Mul(n as real, beta) else Sum(s[..k]) - Mul(k as real, beta)
    decreases n
  {
    if n > 0 {
      ExcessOfSorted(beta, s, k, n - 1);
      assert s[..n][..n - 1] == s[..n - 1];
      assert Excesses(beta, s[..n])[..n - 1] == Excesses(beta, s[..n - 1]);
      MulNext(n - 1, beta);
    } else {
      MulZero(beta);
      assert s[..0] == [] && Excesses(beta, s[..0]) == [];
    }
  }

  lemma MulNext(n: nat, x: real)
    ensures Mul((n + 1) as real, x) == Mul(n as real, x) + x
  {
    MulPlus(x, n as real, 1.0);
    MulZero(x);
  }

  /** qsort with compare_double: largest first. */
  method SortDown(s: seq<real>) returns (r: seq<real>)
    ensures multiset(r) == multiset(s) && Descending(r)
  {
    r := Sort(s, (a, b) => a >= b);
  }

  /** The loop over the sorted values: beta, and how many values reach it. */
  method Threshold(d: seq<real>, slack: real) returns (beta: real, k: nat)
    requires Descending(d) && |d| > 0 && slack >= 0.0
    ensures 1 <= k <= |d| && Mul(k as real, beta) == Sum(d[..k]) - slack
    ensures forall i :: 0 <= i < k ==> d[i] >= beta
    ensures forall i :: k <= i < |d| ==> d[i] <= beta
  {
    beta := d[0] - slack;
    var r := 1;
    SumOfOne(d);
    MulZero(d[0]);
    var next := Scaled(d, r);
    while r < |d| && beta < next
      invariant 1 <= r <= |d| && beta == Sum(d[..r]) - slack && beta <= Mul(r as real, d[r - 1])
      invariant r < |d| ==> next == Mul(r as real, d[r])
    {
      assert d[..r + 1][..r] == d[..r];
      MulNext(r, d[r]);
      beta := beta + d[r];
      r := r + 1;
      next := Scaled(d, r);
    }
    k := r;
    ThresholdDone(d, r, beta);
    beta := beta / (r as real);
  }

  /** The product r * d[r] of the loop's test. */
  method Scaled(d: seq<real>, r: nat) returns (x: real)
    ensures r < |d| ==> x == Mul(r as real, d[r])
  {
    x := 0.0;
    if r < |d| {
      MulIs(r as real, d[r]);
      x := (r as real) * d[r];
    }
  }

  lemma ThresholdDone(d: seq<real>, r: nat, total: real)
    requires Descending(d) && 1 <= r <= |d| && total <= Mul(r as real, d[r - 1]) && (r < |d| ==> total >= Mul(r as real, d[r]))
    ensures var beta := total / (r as real);
      && Mul(r as real, beta) == total
      && (forall i :: 0 <= i < r ==> d[i] >= beta)
      && (forall i :: r <= i < |d| ==> d[i] <= beta)
  {
    Quotient(total, r as real, d[r - 1]);
    if r < |d| {
      Quotient(total, r as real, d[r]);
    }
    forall i: nat | i < |d|
      ensures i < r ==> d[i] >= d[r - 1]
      ensures r <= i ==> d[r] >= d[i]
    {
      if i < r {
        DescendingPair(d, i, r - 1);
      } else {
        DescendingPair(d, r, i);
      }
    }
  }

  lemma Quotient(total: real, r: real, x: real)
    requires r >= 1.0
    ensures Mul(r, total / r) == total
    ensures total <= Mul(r, x) ==> total / r <= x
    ensures total >= Mul(r, x) ==> total / r >= x
  {
    var q := total / r;
    MulDiv(r, total);
    MulMinus(r, q, x);
    MulMinus(r, x, q);
    MulSign(r, q - x);
    MulSign(r, x - q);
  }

  lemma SumOfOne(d: seq<real>)
    requires |d| > 0
    ensures Sum(d[..1]) == d[0]
  {
    assert d[..1][..0] == [];
  }

  // ---------------------------------------------------------------- solve_sub_problem

  /** The upper bound of the variable at position m. */
  function Bound(m: nat, yi: nat, c: real): real {
    if m == yi then c else 0.0
  }

  ghost function Bounds(n: nat, yi: nat, c: real): seq<real> {
    seq(n, m requires 0 <= m < n => Bound(m, yi, c))
  }

  lemma {:induction false} SumBounds(n: nat, yi: nat, c: real)
    ensures Sum(Bounds(n, yi, c)) == if yi < n then c else 0.0
  {
    if n > 0 {
      SumBounds(n - 1, yi, c);
      assert Bounds(n, yi, c)[..n - 1] == Bounds(n - 1, yi, c);
    }
  }

  /** alpha meets its bounds and has gradient beta wherever it is not at its bound: the optimality condition. */
  ghost predicate OptimalAt(a: real, b: seq<real>, yi: nat, c: real, beta: real, alpha: seq<real>, m: nat) {
    && m < |alpha| && |b| == |alpha| && alpha[m] <= Bound(m, yi, c)
    && Mul(a, alpha[m]) + b[m] <= beta && (alpha[m] < Bound(m, yi, c) ==> Mul(a, alpha[m]) + b[m] == beta)
  }

  ghost predicate Optimal(a: real, b: seq<real>, yi: nat, c: real, beta: real, alpha: seq<real>) {
    |b| == |alpha| && forall m: nat {:trigger OptimalAt(a, b, yi, c, beta, alpha, m)} :: m < |alpha| ==> OptimalAt(a, b, yi, c, beta, alpha, m)
  }

  /** One entry of the solution. */
  function Entry(a: real, b: real, bound: real, beta: real): real
    requires a > 0.0
  {
    Min(bound, (beta - b) / a)
  }

  lemma EntryIs(a: real, b: real, bound: real, beta: real)
    requires a > 0.0
    ensures Mul(a, Entry(a, b, bound, beta)) == Mul(a, bound) - Excess(beta, b + Mul(a, bound))
    ensures Mul(a, Entry(a, b, bound, beta)) + b <= beta
    ensures Entry(a, b, bound, beta) < bound ==> Mul(a, Entry(a, b, bound, beta)) + b == beta
  {
    var q := (beta - b) / a;
    MulDiv(a, beta - b);
    MulMinus(a, bound, q);
    MulMinus(a, q, bound);
    MulSign(a, bound - q);
    MulSign(a, q - bound);
  }

  lemma {:induction false} SumEntries(a: real, bounds: seq<real>, d: seq<real>, beta: real, alpha: seq<real>)
    requires |bounds| == |d| == |alpha| && forall m :: 0 <= m < |d| ==> Mul(a, alpha[m]) == Mul(a, bounds[m]) - Excess(beta, d[m])
    ensures Mul(a, Sum(alpha)) == Mul(a, Sum(bounds)) - Sum(Excesses(beta, d))
    decreases |d|
  {
    if d == [] {
      MulZero(a);
    } else {
      var m := |d| - 1;
      SumEntries(a, bounds[..m], d[..m], beta, alpha[..m]);
      assert Excesses(beta, d)[..m] == Excesses(beta, d[..m]);
      MulPlus(a, Sum(alpha[..m]), alpha[m]);
      MulPlus(a, Sum(bounds[..m]), bounds[m]);
    }
  }

  /**
    solve_sub_problem: within their bounds, the new values of the active variables add up to
    what the shrunk ones leave (0, or -c if the variable of the example's own class is shrunk
    at its bound c), and satisfy the optimality condition.
  */
  method SolveSubProblem(a: real, yi: nat, c: real, b: seq<real>) returns (alphaNew: seq<real>, ghost beta: real)
    requires a > 0.0 && c >= 0.0 && |b| > 0
    ensures |alphaNew| == |b| && Optimal(a, b, yi, c, beta, alphaNew)
    ensures Sum(alphaNew) == if yi < |b| then 0.0 else -c
  {
    var d := b;
    if yi < |b| {
      d := d[yi := d[yi] + a * c];
    }
    var sorted := SortDown(d);
    assert |sorted| == |multiset(sorted)| == |multiset(d)| == |d|;
    MulIs(a, c);
    MulSign(a, c);
    var threshold, k;
    threshold, k := Threshold(sorted, a * c);
    beta := threshold;
    alphaNew := seq(|b|, r requires 0 <= r < |b| => Entry(a, b[r], Bound(r, yi, c), threshold));
    forall m: nat | m < |b|
      ensures EntryAt(a, yi, c, b, d, beta, alphaNew, m)
    {
      BoundProduct(a, m, yi, c);
    }
    SubProblemDone(a, yi, c, b, d, sorted, k, beta, alphaNew);
  }

  lemma BoundProduct(a: real, m: nat, yi: nat, c: real)
    ensures Mul(a, Bound(m, yi, c)) == if m == yi then Mul(a, c) else 0.0
  {
    MulZero(a);
  }

  /** Entry m of the sorted values and of the solution. */
  ghost predicate EntryAt(a: real, yi: nat, c: real, b: seq<real>, d: seq<real>, beta: real, alphaNew: seq<real>, m: nat) {
    && a > 0.0 && m < |b| && |b| == |d| == |alphaNew|
    && d[m] == b[m] + Mul(a, Bound(m, yi, c)) && alphaNew[m] == Entry(a, b[m], Bound(m, yi, c), beta)
  }

  lemma EntryDone(a: real, yi: nat, c: real, b: seq<real>, d: seq<real>, beta: real, alphaNew: seq<real>, m: nat)
    requires EntryAt(a, yi, c, b, d, beta, alphaNew, m)
    ensures OptimalAt(a, b, yi, c, beta, alphaNew, m)
    ensures Mul(a, alphaNew[m]) == Mul(a, Bounds(|b|, yi, c)[m]) - Excess(beta, d[m])
  {
    EntryIs(a, b[m], Bound(m, yi, c), beta);
  }

  lemma EntriesOptimal(a: real, yi: nat, c: real, b: seq<real>, d: seq<real>, beta: real, alphaNew: seq<real>)
    requires |b| == |d| == |alphaNew|
    requires forall m: nat {:trigger EntryAt(a, yi, c, b, d, beta, alphaNew, m)} :: m < |b| ==> EntryAt(a, yi, c, b, d, beta, alphaNew, m)
    ensures Optimal(a, b, yi, c, beta, alphaNew)
    ensures Mul(a, Sum(alphaNew)) == Mul(a, Sum(Bounds(|b|, yi, c))) - Sum(Excesses(beta, d))
  {
    forall m: nat | m < |b|
      ensures OptimalAt(a, b, yi, c, beta, alphaNew, m) && Mul(a, alphaNew[m]) == Mul(a, Bounds(|b|, yi, c)[m]) - Excess(beta, d[m])
    {
      assert EntryAt(a, yi, c, b, d, beta, alphaNew, m);
      EntryDone(a, yi, c, b, d, beta, alphaNew, m);
    }
    SumEntries(a, Bounds(|b|, yi, c), d, beta, alphaNew);
  }

  lemma SubProblemDone(a: real, yi: nat, c: real, b: seq<real>, d: seq<real>, sorted: seq<real>, k: nat, beta: real, alphaNew: seq<real>)
    requires a > 0.0 && |b| == |d| == |alphaNew| == |sorted| && k <= |b| && multiset(sorted) == multiset(d)
    requires forall m: nat {:trigger EntryAt(a, yi, c, b, d, beta, alphaNew, m)} :: m < |b| ==> EntryAt(a, yi, c, b, d, beta, alphaNew, m)
    requires Mul(k as real, beta) == Sum(sorted[..k]) - Mul(a, c)
    requires forall i :: 0 <= i < k ==> sorted[i] >= beta
    requires forall i :: k <= i < |sorted| ==> sorted[i] <= beta
    ensures Optimal(a, b, yi, c, beta, alphaNew)
    ensures Sum(alphaNew) == if yi < |b| then 0.0 else -c
  {
    EntriesOptimal(a, yi, c, b, d, beta, alphaNew);
    ExcessTotal(sorted, d, k, beta, Mul(a, c));
    SumLeft(a, c, Sum(Bounds(|b|, yi, c)), Sum(alphaNew), Sum(Excesses(beta, d)));
    SumBounds(|b|, yi, c);
  }

  lemma ExcessTotal(sorted: seq<real>, d: seq<real>, k: nat, beta: real, slack: real)
    requires |d| == |sorted| && k <= |d| && multiset(sorted) == multiset(d) && Mul(k as real, beta) == Sum(sorted[..k]) - slack
    requires forall i :: 0 <= i < k ==> sorted[i] >= beta
    requires forall i :: k <= i < |sorted| ==> sorted[i] <= beta
    ensures Sum(Excesses(beta, d)) == slack
  {
    ExcessesPermuted(beta, sorted, d);
    ExcessOfSorted(beta, sorted, k, |sorted|);
    assert sorted[..|sorted|] == sorted;
  }

  lemma SumLeft(a: real, c: real, bounds: real, alpha: real, excess: real)
    requires a > 0.0 && Mul(a, alpha) == Mul(a, bounds) - excess && excess == Mul(a, c)
    ensures alpha == bounds - c
  {
    MulMinus(a, bounds, c);
    MulCancel(a, alpha, bounds - c);
  }

  // ---------------------------------------------- the optimality condition is enough

  /** The part of the dual objective that depends on the example's variables. */
  ghost function Objective(a: real, b: seq<real>, alpha: seq<real>): real
    requires |b| == |alpha|
  {
    Sum(seq(|b|, m requires 0 <= m < |b| => Term(a, b[m], alpha[m])))
  }

  ghost function Term(a: real, b: real, x: real): real {
    Mul(a, Mul(x, x)) / 2.0 + Mul(b, x)
  }

  lemma TermAbove(a: real, b: real, bound: real, beta: real, x: real, y: real)
    requires a >= 0.0 && y <= bound && x <= bound
    requires Mul(a, x) + b <= beta && (x < bound ==> Mul(a, x) + b == beta)
    ensures Term(a, b, y) - Mul(beta, y) >= Term(a, b, x) - Mul(beta, x)
  {
    MulSign(Mul(a, x) + b - beta, y - x);
    MulZero(y - x);
    MulSign(y - x, y - x);
    MulSign(a, Mul(y - x, y - x));
    Square(a, b, beta, x, y);
  }

  lemma Square(a: real, b: real, beta: real, x: real, y: real)
    ensures (Term(a, b, y) - Mul(beta, y)) - (Term(a, b, x) - Mul(beta, x))
      == Mul(Mul(a, x) + b - beta, y - x) + Mul(a, Mul(y - x, y - x)) / 2.0
  {
    var d := y - x;
    MulPlus(x, x, d);
    MulPlus(d, x, d);
    MulPlus(x + d, x, d);
    MulCommutes(x, d);
    assert Mul(y, y) == Mul(x, x) + Mul(x, d) + Mul(x, d) + Mul(d, d) by {
      MulPlus(y, x, d);
      MulPlus(x, x, d);
      MulPlus(d, x, d);
    }
    MulPlus(a, Mul(x, x) + Mul(x, d) + Mul(x, d), Mul(d, d));
    MulPlus(a, Mul(x, x) + Mul(x, d), Mul(x, d));
    MulPlus(a, Mul(x, x), Mul(x, d));
    MulAssociates(a, x, d);
    MulPlus(d, Mul(a, x) + b, -beta);
    MulPlus(d, Mul(a, x), b);
    MulMinus(d, 0.0, beta);
    MulZero(d);
    MulPlus(b, x, d);
    MulPlus(beta, x, d);
  }

  /** Term by term domination, with a multiple of the variables taken off, adds up. */
  lemma {:induction false} SumDominates(p: seq<real>, x: seq<real>, q: seq<real>, y: seq<real>, beta: real)
    requires |p| == |x| == |q| == |y| && forall m :: 0 <= m < |p| ==> p[m] - Mul(beta, x[m]) >= q[m] - Mul(beta, y[m])
    ensures Sum(p) - Mul(beta, Sum(x)) >= Sum(q) - Mul(beta, Sum(y))
    decreases |p|
  {
    if p != [] {
      var m := |p| - 1;
      SumDominates(p[..m], x[..m], q[..m], y[..m], beta);
      MulPlus(beta, Sum(x[..m]), x[m]);
      MulPlus(beta, Sum(y[..m]), y[m]);
    }
  }

  /** No other values within the bounds and with the same sum have a lower objective. */
  lemma OptimalIsBest(a: real, b: seq<real>, yi: nat, c: real, beta: real, alpha: seq<real>, other: seq<real>)
    requires a >= 0.0 && Optimal(a, b, yi, c, beta, alpha) && |other| == |b| && Sum(other) == Sum(alpha)
    requires forall m :: 0 <= m < |b| ==> other[m] <= Bound(m, yi, c)
    ensures Objective(a, b, alpha) <= Objective(a, b, other)
  {
    var p := seq(|b|, m requires 0 <= m < |b| => Term(a, b[m], other[m]));
    var q := seq(|b|, m requires 0 <= m < |b| => Term(a, b[m], alpha[m]));
    forall m: nat | m < |b|
      ensures p[m] - Mul(beta, other[m]) >= q[m] - Mul(beta, alpha[m])
    {
      assert OptimalAt(a, b, yi, c, beta, alpha, m);
      TermAbove(a, b[m], Bound(m, yi, c), beta, alpha[m], other[m]);
    }
    SumDominates(p, other, q, alpha, beta);
  }
}
