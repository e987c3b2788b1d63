/**
  The order of the variables of one training example in the Crammer-Singer solver
  (trident-workloads/liblinear/linear.cpp, Solver_MCSVM_CS::Solve): one variable per class,
  the shrunk ones last, and what writing new values for the others keeps and gains.
*/
module CrammerOrder {
  import opened Reals
  import opened CrammerSinger
  import opened Permutations

  predicate Under(x: real, limit: Limit) {
    limit.Infinite? || x < limit.value
  }

  /** The variables in the order of ai. */
  ghost function Values(al: seq<real>, ai: seq<nat>): seq<real>
    requires forall p :: 0 <= p < |ai| ==> ai[p] < |al|
  {
    seq(|ai|, p requires 0 <= p < |ai| => al[ai[p]])
  }

  /** ai is a permutation that knows where the example's own class y is, and lists every variable once. */
  ghost predicate Indexed(n: nat, y: nat, al: seq<real>, ai: seq<nat>, yIndex: nat) {
    && |al| == n && Permutation(ai, n) && y < n && yIndex < n && ai[yIndex] == y
    && multiset(Values(al, ai)) == multiset(al)
  }

  ghost predicate AtBound(c: real, al: seq<real>, ai: seq<nat>, yIndex: nat, p: nat) {
    p < |ai| && ai[p] < |al| && al[ai[p]] == Bound(p, yIndex, c)
  }

  /** From position k on, every variable is at its bound. */
  ghost predicate ShrunkFrom(c: real, al: seq<real>, ai: seq<nat>, yIndex: nat, k: int) {
    forall p: nat {:trigger AtBound(c, al, ai, yIndex, p)} :: k <= p < |ai| ==> AtBound(c, al, ai, yIndex, p)
  }

  ghost predicate Within(n: nat, y: nat, c: real, al: seq<real>) {
    |al| == n && forall m: nat :: m < n ==> al[m] <= Bound(m, y, c)
  }

  ghost predicate RowOk(n: nat, y: nat, c: real, al: seq<real>, ai: seq<nat>, yIndex: nat, active: nat) {
    && Indexed(n, y, al, ai, yIndex) && active <= n && c >= 0.0
    && Within(n, y, c, al) && ShrunkFrom(c, al, ai, yIndex, active) && Sum(al) == 0.0
  }

  // ------------------------------------------------------------------------ shrinking

  function Followed(yIndex: nat, m: nat, k: nat): nat {
    if yIndex == k then m else if yIndex == m then k else yIndex
  }

  /** Exchanging two positions keeps the index, if y_index follows. */
  lemma SwapIndexed(n: nat, y: nat, al: seq<real>, ai: seq<nat>, yIndex: nat, m: nat, k: nat)
    requires Indexed(n, y, al, ai, yIndex) && m < k < n
    ensures Indexed(n, y, al, ai[m := ai[k]][k := ai[m]], Followed(yIndex, m, k))
  {
    var ai' := ai[m := ai[k]][k := ai[m]];
    SwappedPermutation(ai, n, m, k);
    var v, v' := Values(al, ai), Values(al, ai');
    assert v' == v[m := v[k]][k := v[m]];
    SwappedMultiset(v, m, k);
  }

  lemma SwappedMultiset(v: seq<real>, m: nat, k: nat)
    requires m < k < |v|
    ensures multiset(v[m := v[k]][k := v[m]]) == multiset(v)
  {
  }

  lemma SwapShrunk(c: real, al: seq<real>, ai: seq<nat>, yIndex: nat, m: nat, k: nat)
    requires m < k < |ai| && ShrunkFrom(c, al, ai, yIndex, k + 1) && AtBound(c, al, ai, yIndex, m)
    ensures ShrunkFrom(c, al, ai[m := ai[k]][k := ai[m]], Followed(yIndex, m, k), k)
  {
    var ai' := ai[m := ai[k]][k := ai[m]];
    forall p: nat | k <= p < |ai'|
      ensures AtBound(c, al, ai', Followed(yIndex, m, k), p)
    {
      if p > k {
        assert AtBound(c, al, ai, yIndex, p);
      }
    }
  }

  lemma BoundFrom(c: real, al: seq<real>, ai: seq<nat>, yIndex: nat, k: nat)
    requires ShrunkFrom(c, al, ai, yIndex, k + 1) && AtBound(c, al, ai, yIndex, k)
    ensures ShrunkFrom(c, al, ai, yIndex, k)
  {
  }

  // --------------------------------------------------------------------- writing back

  /** al after the first k active variables have received their new values. */
  ghost function Written(al: seq<real>, ai: seq<nat>, new_: seq<real>, k: nat): (r: seq<real>)
    requires k <= |new_| <= |ai| && forall p :: 0 <= p < |ai| ==> ai[p] < |al|
    ensures |r| == |al|
  {
    if k == 0 then al else Written(al, ai, new_, k - 1)[ai[k - 1] := new_[k - 1]]
  }

  lemma {:induction false} WrittenValues(al: seq<real>, ai: seq<nat>, n: nat, new_: seq<real>, k: nat)
    requires Permutation(ai, n) && |al| == n && k <= |new_| <= n
    ensures Values(Written(al, ai, new_, k), ai) == new_[..k] + Values(al, ai)[k..]
  {
    if k > 0 {
      WrittenValues(al, ai, n, new_, k - 1);
      ValuesUpdate(Written(al, ai, new_, k - 1), ai, n, k - 1, new_[k - 1]);
      Splice(new_, Values(al, ai), k);
    }
  }

  lemma {:induction false} WrittenMultiset(al: seq<real>, ai: seq<nat>, n: nat, new_: seq<real>, k: nat)
    requires Permutation(ai, n) && |al| == n && k <= |new_| <= n && multiset(Values(al, ai)) == multiset(al)
    ensures multiset(Values(Written(al, ai, new_, k), ai)) == multiset(Written(al, ai, new_, k))
  {
    if k > 0 {
      WrittenMultiset(al, ai, n, new_, k - 1);
      var before := Written(al, ai, new_, k - 1);
      ValuesUpdate(before, ai, n, k - 1, new_[k - 1]);
      UpdatedMultisets(Values(before, ai), k - 1, before, ai[k - 1], new_[k - 1]);
    }
  }

  lemma ValuesUpdate(al: seq<real>, ai: seq<nat>, n: nat, i: nat, x: real)
    requires Permutation(ai, n) && |al| == n && i < n
    ensures Values(al[ai[i] := x], ai) == Values(al, ai)[i := x]
  {
    Apart(ai);
  }

  lemma Splice(new_: seq<real>, v: seq<real>, k: nat)
    requires 0 < k <= |new_| && k <= |v|
    ensures (new_[..k - 1] + v[k - 1..])[k - 1 := new_[k - 1]] == new_[..k] + v[k..]
  {
  }

  lemma UpdatedMultisets(v: seq<real>, i: nat, w: seq<real>, j: nat, x: real)
    requires i < |v| && j < |w| && v[i] == w[j] && multiset(v) == multiset(w)
    ensures multiset(v[i := x]) == multiset(w[j := x])
  {
  }

  ghost function TailBounds(n: nat, yIndex: nat, c: real, k: nat): seq<real>
    requires k <= n
  {
    Bounds(n, yIndex, c)[k..]
  }

  lemma SumTail(n: nat, yIndex: nat, c: real, k: nat)
    requires k <= n && yIndex < n
    ensures Sum(TailBounds(n, yIndex, c, k)) == if yIndex < k then 0.0 else c
  {
    SumBounds(n, yIndex, c);
    SumBounds(k, yIndex, c);
    assert Bounds(n, yIndex, c) == Bounds(k, yIndex, c) + TailBounds(n, yIndex, c, k);
    SumConcat(Bounds(k, yIndex, c), TailBounds(n, yIndex, c, k));
  }

  lemma WithinBounds(a: real, b: seq<real>, yi: nat, c: real, beta: real, alpha: seq<real>)
    requires Optimal(a, b, yi, c, beta, alpha)
    ensures forall m: nat :: m < |alpha| ==> alpha[m] <= Bound(m, yi, c)
  {
    forall m: nat | m < |alpha|
      ensures alpha[m] <= Bound(m, yi, c)
    {
      assert OptimalAt(a, b, yi, c, beta, alpha, m);
    }
  }

  /** What is written where. */
  lemma WrittenAt(al: seq<real>, ai: seq<nat>, n: nat, new_: seq<real>, p: nat)
    requires Permutation(ai, n) && |al| == n && |new_| <= n && p < n
    ensures Written(al, ai, new_, |new_|)[ai[p]] == if p < |new_| then new_[p] else al[ai[p]]
  {
    WrittenValues(al, ai, n, new_, |new_|);
    assert new_[..|new_|] == new_;
    SpliceAt(new_, Values(al, ai), Values(Written(al, ai, new_, |new_|), ai), p);
  }

  lemma SpliceAt(new_: seq<real>, v: seq<real>, v': seq<real>, p: nat)
    requires |new_| <= |v| && v' == new_ + v[|new_|..] && p < |v|
    ensures v'[p] == if p < |new_| then new_[p] else v[p]
  {
  }

  /** The new values keep everything: order, bounds, shrunk variables and sum. */
  lemma WrittenOk(n: nat, y: nat, c: real, al: seq<real>, ai: seq<nat>, yIndex: nat, active: nat, new_: seq<real>)
    requires RowOk(n, y, c, al, ai, yIndex, active) && |new_| == active
    requires forall m: nat :: m < active ==> new_[m] <= Bound(m, yIndex, c)
    requires Sum(new_) == if yIndex < active then 0.0 else -c
    ensures RowOk(n, y, c, Written(al, ai, new_, active), ai, yIndex, active)
  {
    var al' := Written(al, ai, new_, active);
    WrittenMultiset(al, ai, n, new_, active);
    WrittenSum(n, c, al, ai, yIndex, active, new_);
    forall p: nat | active <= p < n
      ensures AtBound(c, al', ai, yIndex, p)
    {
      assert AtBound(c, al, ai, yIndex, p);
      WrittenAt(al, ai, n, new_, p);
    }
    forall m: nat | m < n
      ensures al'[m] <= Bound(m, y, c)
    {
      var p := PlaceOf(ai, n, m);
      WrittenAt(al, ai, n, new_, p);
      assert p >= active ==> AtBound(c, al', ai, yIndex, p);
    }
  }

  /** The new values and the bounds of the shrunk variables cancel out. */
  lemma WrittenSum(n: nat, c: real, al: seq<real>, ai: seq<nat>, yIndex: nat, active: nat, new_: seq<real>)
    requires Permutation(ai, n) && |al| == n && active <= n && yIndex < n && multiset(Values(al, ai)) == multiset(al)
    requires ShrunkFrom(c, al, ai, yIndex, active) && |new_| == active
    requires Sum(new_) == if yIndex < active then 0.0 else -c
    ensures Sum(Written(al, ai, new_, active)) == 0.0
  {
    var al' := Written(al, ai, new_, active);
    WrittenMultiset(al, ai, n, new_, active);
    SumPermuted(Values(al', ai), al');
    WrittenValues(al, ai, n, new_, active);
    assert new_[..active] == new_;
    SumConcat(new_, Values(al, ai)[active..]);
    TailIs(n, c, al, ai, yIndex, active);
    SumTail(n, yIndex, c, active);
  }

  lemma TailIs(n: nat, c: real, al: seq<real>, ai: seq<nat>, yIndex: nat, active: nat)
    requires Permutation(ai, n) && |al| == n && active <= n && ShrunkFrom(c, al, ai, yIndex, active)
    ensures Values(al, ai)[active..] == TailBounds(n, yIndex, c, active)
  {
    forall p: nat | active <= p < n
      ensures Values(al, ai)[p] == Bounds(n, yIndex, c)[p]
    {
      assert AtBound(c, al, ai, yIndex, p);
    }
  }

  /** The rest is still as it was. */
  lemma WrittenRest(al: seq<real>, ai: seq<nat>, n: nat, new_: seq<real>, k: nat)
    requires Permutation(ai, n) && |al| == n && k < |new_| <= n
    ensures Written(al, ai, new_, k)[ai[k]] == al[ai[k]]
  {
    WrittenValues(al, ai, n, new_, k);
    assert Values(Written(al, ai, new_, k), ai)[k] == (new_[..k] + Values(al, ai)[k..])[k];
  }

  // ------------------------------------------------------------------------- the gain

  /** Any values have the same multiset in the order of ai. */
  lemma ValuesPermuted(s: seq<real>, ai: seq<nat>, n: nat)
    requires Permutation(ai, n) && |s| == n
    ensures multiset(Values(s, ai)) == multiset(s)
  {
    var zeros, new_ := seq(n, m => 0.0), Values(s, ai);
    assert Values(zeros, ai) == zeros;
    WrittenMultiset(zeros, ai, n, new_, n);
    var s' := Written(zeros, ai, new_, n);
    forall m: nat | m < n
      ensures s'[m] == s[m]
    {
      var p := PlaceOf(ai, n, m);
      WrittenAt(zeros, ai, n, new_, p);
    }
    assert s' == s;
  }

  /** The change of the dual objective when a variable with gradient g goes from u to v. */
  ghost function Gain(a: real, g: real, u: real, v: real): real {
    Mul(v - u, g) + Mul(a, Mul(v - u, v - u)) / 2.0
  }

  ghost function Gains(a: real, grad: seq<real>, al: seq<real>, al': seq<real>): seq<real>
    requires |grad| == |al| == |al'|
  {
    seq(|al|, m requires 0 <= m < |al| => Gain(a, grad[m], al[m], al'[m]))
  }

  /** The gain is the difference of the terms of the subproblem. */
  lemma TermGain(a: real, b: real, g: real, u: real, v: real)
    requires b == g - Mul(a, u)
    ensures Term(a, b, v) - Term(a, b, u) == Gain(a, g, u, v)
  {
    Square(a, b, 0.0, u, v);
    MulZero(u);
    MulZero(v);
    MulCommutes(g, v - u);
  }

  /** The variables that are still active add up to what the shrunk ones leave. */
  lemma ActiveSum(n: nat, y: nat, c: real, al: seq<real>, ai: seq<nat>, yIndex: nat, active: nat)
    requires RowOk(n, y, c, al, ai, yIndex, active)
    ensures Sum(Values(al, ai)[..active]) == if yIndex < active then 0.0 else -c
  {
    var v := Values(al, ai);
    SumPermuted(v, al);
    assert v == v[..active] + v[active..];
    SumConcat(v[..active], v[active..]);
    TailIs(n, c, al, ai, yIndex, active);
    SumTail(n, yIndex, c, active);
  }

  lemma ActiveBound(n: nat, y: nat, c: real, al: seq<real>, ai: seq<nat>, yIndex: nat, active: nat, p: nat)
    requires RowOk(n, y, c, al, ai, yIndex, active) && p < n
    ensures al[ai[p]] <= Bound(p, yIndex, c)
  {
    Apart(ai);
  }

  /** Solving the subproblem exactly does not raise the objective of the active variables. */
  lemma SolvedGains(n: nat, y: nat, c: real, al: seq<real>, ai: seq<nat>, yIndex: nat, active: nat, new_: seq<real>,
                    a: real, b: seq<real>, beta: real, gains: seq<real>)
    requires RowOk(n, y, c, al, ai, yIndex, active) && |new_| == |b| == |gains| == active && a >= 0.0 && Optimal(a, b, yIndex, c, beta, new_)
    requires Sum(new_) == if yIndex < active then 0.0 else -c
    requires forall p :: 0 <= p < active ==> gains[p] == Term(a, b[p], new_[p]) - Term(a, b[p], al[ai[p]])
    ensures Sum(gains) <= 0.0
  {
    var before := Values(al, ai)[..active];
    ActiveSum(n, y, c, al, ai, yIndex, active);
    forall p | 0 <= p < active
      ensures before[p] <= Bound(p, yIndex, c)
    {
      ActiveBound(n, y, c, al, ai, yIndex, active, p);
    }
    OptimalIsBest(a, b, yIndex, c, beta, new_, before);
    var s := seq(active, p requires 0 <= p < active => Term(a, b[p], new_[p]));
    var t := seq(active, p requires 0 <= p < active => Term(a, b[p], before[p]));
    SumDifference(s, t, gains);
  }

  lemma {:induction false} SumDifference(s: seq<real>, t: seq<real>, d: seq<real>)
    requires |s| == |t| == |d| && forall i :: 0 <= i < |d| ==> d[i] == s[i] - t[i]
    ensures Sum(d) == Sum(s) - Sum(t)
  {
    if d != [] {
      var m := |d| - 1;
      SumDifference(s[..m], t[..m], d[..m]);
    }
  }

  /** Writing the solution back does not raise the dual objective. */
  lemma WrittenGains(n: nat, y: nat, c: real, al: seq<real>, ai: seq<nat>, yIndex: nat, active: nat, new_: seq<real>,
                     a: real, grad: seq<real>, b: seq<real>, beta: real)
    requires RowOk(n, y, c, al, ai, yIndex, active) && |new_| == |b| == active && a >= 0.0 && Optimal(a, b, yIndex, c, beta, new_)
    requires Sum(new_) == if yIndex < active then 0.0 else -c
    requires |grad| == n && forall p :: 0 <= p < active ==> b[p] == grad[ai[p]] - Mul(a, al[ai[p]])
    ensures Sum(Gains(a, grad, al, Written(al, ai, new_, active))) <= 0.0
  {
    var al' := Written(al, ai, new_, active);
    var gains := Gains(a, grad, al, al');
    var v := Values(gains, ai);
    ValuesPermuted(gains, ai, n);
    SumPermuted(v, gains);
    forall p: nat | p < n
      ensures p < active ==> v[p] == Term(a, b[p], new_[p]) - Term(a, b[p], al[ai[p]])
      ensures p >= active ==> v[p] == 0.0
    {
      WrittenAt(al, ai, n, new_, p);
      if p < active {
        TermGain(a, b[p], grad[ai[p]], al[ai[p]], new_[p]);
      } else {
        MulZero(grad[ai[p]]);
        MulZero(0.0);
        MulZero(a);
      }
    }
    SolvedGains(n, y, c, al, ai, yIndex, active, new_, a, b, beta, v[..active]);
    SumZeros(v[active..]);
    assert v == v[..active] + v[active..];
    SumConcat(v[..active], v[active..]);
  }
}
