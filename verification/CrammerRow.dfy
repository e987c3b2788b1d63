/**
  The variables of one training example in the Crammer-Singer solver
  (trident-workloads/liblinear/linear.cpp, Solver_MCSVM_CS::Solve): one per class, kept in an
  order that has the shrunk ones last, and updated by solving the subproblem of the others.
*/
module CrammerRow {
  import opened Reals
  import opened CrammerSinger
  import opened CrammerOrder
  import opened CrammerWeights
  import opened SparseVectors
  import opened Permutations

  /** What a row holds. */
  datatype View = View(al: seq<real>, ai: seq<nat>, yIndex: nat, active: nat)

  class Row {
    const n: nat
    const y: nat
    const c: real
    const alpha: array<real>
    const alphaIndex: array<nat>
    var yIndex: nat
    var active: nat

    ghost predicate Valid()
      reads this, alpha, alphaIndex
    {
      alpha.Length == n && alphaIndex.Length == n && RowOk(n, y, c, alpha[..], alphaIndex[..], yIndex, active)
    }

    ghost function Shown(): View
      reads this, alpha, alphaIndex
    {
      View(alpha[..], alphaIndex[..], yIndex, active)
    }

    /** All variables zero, all classes active and in their own order. */
    constructor (n: nat, y: nat, c: real)
      requires y < n && c >= 0.0
      ensures Valid() && fresh(alpha) && fresh(alphaIndex) && this.n == n && this.y == y && this.c == c
      ensures Shown() == View(Zeros(n), seq(n, m => m), y, n)
    {
      this.n, this.y, this.c := n, y, c;
      alpha := new real[n](m => 0.0);
      alphaIndex := new nat[n](m => m);
      yIndex, active := y, n;
      new;
      assert Values(alpha[..], alphaIndex[..]) == alpha[..];
      SumZeros(alpha[..]);
    }

    /** The end of a round that starts from all classes again. */
    method Reset()
      requires Valid()
      modifies this`active
      ensures Valid() && active == n
    {
      active := n;
    }

    /** be_shrunk for the variable at position m. */
    method BeShrunk(m: nat, g: array<real>, minG: Limit, ghost tr: Trial) returns (r: bool)
      requires m < n && n <= g.Length && alpha.Length == n && alphaIndex.Length == n && Indexed(n, y, alpha[..], alphaIndex[..], yIndex)
      requires tr == Trial(alpha[..], tr.grad, y, c, minG) && |tr.grad| == n && g[m] == tr.grad[alphaIndex[m]]
      ensures r ==> AtBound(c, alpha[..], alphaIndex[..], yIndex, m)
      ensures r <==> GoneAt(tr, alphaIndex[..], m)
    {
      var bound := if m == yIndex then c else 0.0;
      r := alpha[alphaIndex[m]] == bound && Under(g[m], minG);
      BoundByClass(alphaIndex[..], n, y, yIndex, c, m);
    }

    /** The last position from last down to m that is not shrunk, or m; those beyond it are. */
    method LastActive(m: nat, last: nat, g: array<real>, minG: Limit, ghost tr: Trial) returns (k: nat)
      requires m <= last < n && n <= g.Length && alpha.Length == n && alphaIndex.Length == n && Indexed(n, y, alpha[..], alphaIndex[..], yIndex)
      requires tr == Trial(alpha[..], tr.grad, y, c, minG) && |tr.grad| == n && forall p :: 0 <= p <= last ==> g[p] == tr.grad[alphaIndex[p]]
      requires ShrunkFrom(c, alpha[..], alphaIndex[..], yIndex, last + 1)
      ensures m <= k <= last && ShrunkFrom(c, alpha[..], alphaIndex[..], yIndex, k + 1)
      ensures Gone(tr, alphaIndex[..], k + 1, last + 1) && (k > m ==> LiveAt(tr, alphaIndex[..], k))
    {
      k := last;
      var shrunk := true;
      while k > m && shrunk
        invariant m <= k <= last && ShrunkFrom(c, alpha[..], alphaIndex[..], yIndex, k + 1)
        invariant Gone(tr, alphaIndex[..], k + 1, last + 1) && (!shrunk ==> LiveAt(tr, alphaIndex[..], k))
        decreases k, shrunk
      {
        shrunk := BeShrunk(k, g, minG, tr);
        if shrunk {
          k := k - 1;
        }
      }
    }

    /** Exchanges the classes at positions m and k, with their gradients; y_index follows. */
    method Exchange(m: nat, k: nat, g: array<real>, ghost grad: seq<real>)
      requires alpha.Length == n && alphaIndex.Length == n && Indexed(n, y, alpha[..], alphaIndex[..], yIndex)
      requires m < k < n && n <= g.Length && g != alpha && |grad| == n
      requires ShrunkFrom(c, alpha[..], alphaIndex[..], yIndex, k + 1) && AtBound(c, alpha[..], alphaIndex[..], yIndex, m)
      requires forall p :: 0 <= p <= k ==> g[p] == grad[alphaIndex[p]]
      modifies this`yIndex, alphaIndex, g
      ensures Indexed(n, y, alpha[..], alphaIndex[..], yIndex) && ShrunkFrom(c, alpha[..], alphaIndex[..], yIndex, k)
      ensures alphaIndex[..] == old(alphaIndex[..])[m := old(alphaIndex[k])][k := old(alphaIndex[m])]
      ensures alpha[..] == old(alpha[..]) && forall p :: 0 <= p <= k ==> g[p] == grad[alphaIndex[p]]
    {
      ghost var ai := alphaIndex[..];
      SwapIndexed(n, y, alpha[..], ai, yIndex, m, k);
      SwapShrunk(c, alpha[..], ai, yIndex, m, k);
      alphaIndex[m], alphaIndex[k] := alphaIndex[k], alphaIndex[m];
      g[m], g[k] := g[k], g[m];
      assert alphaIndex[..] == ai[m := ai[k]][k := ai[m]];
      yIndex := Followed(yIndex, m, k);
    }

    /** The variable at position m leaves, with those behind it that are to be shrunk: a live one from the end takes its place. */
    method Retire(m: nat, g: array<real>, minG: Limit, ghost tr: Trial)
      requires Valid() && m < active && n <= g.Length && AtBound(c, alpha[..], alphaIndex[..], yIndex, m)
      requires tr == Trial(alpha[..], tr.grad, y, c, minG) && |tr.grad| == n && g != alpha
      requires forall p :: 0 <= p < active ==> g[p] == tr.grad[alphaIndex[p]]
      requires GoneAt(tr, alphaIndex[..], m) && Live(tr, alphaIndex[..], 0, m)
      modifies this`yIndex, this`active, alphaIndex, g
      ensures Valid() && m <= active < old(active) && alpha[..] == old(alpha[..])
      ensures forall p :: 0 <= p < active ==> g[p] == tr.grad[alphaIndex[p]]
      ensures Gone(tr, alphaIndex[..], active, old(active)) && Live(tr, alphaIndex[..], 0, if m < active then m + 1 else m)
      ensures alphaIndex[..][old(active)..] == old(alphaIndex[..])[old(active)..]
    {
      ghost var ai, last := alphaIndex[..], active - 1;
      var k := LastActive(m, active - 1, g, minG, tr);
      active := k;
      if k > m {
        Exchange(m, k, g, tr.grad);
        SwapParts(tr, ai, alphaIndex[..], m, k, last + 1);
      } else {
        BoundFrom(c, alpha[..], alphaIndex[..], yIndex, k);
      }
    }

    /** The shrinking loop: exactly the classes that be_shrunk holds for leave, and the gradients stay in step with the order. */
    method Shrink(g: array<real>, minG: Limit, ghost tr: Trial)
      requires Valid() && n <= g.Length && g != alpha && tr == Trial(alpha[..], tr.grad, y, c, minG) && |tr.grad| == n
      requires forall p :: 0 <= p < active ==> g[p] == tr.grad[alphaIndex[p]]
      modifies this`yIndex, this`active, alphaIndex, g
      ensures Valid() && active <= old(active) && alpha[..] == old(alpha[..])
      ensures forall p :: 0 <= p < active ==> g[p] == tr.grad[alphaIndex[p]]
      ensures Gone(tr, alphaIndex[..], active, old(active)) && Live(tr, alphaIndex[..], 0, active)
      ensures alphaIndex[..][old(active)..] == old(alphaIndex[..])[old(active)..]
    {
      var m := 0;
      ghost var ai := alphaIndex[..];
      while m < active
        invariant Valid() && active <= old(active) && alpha[..] == old(alpha[..])
        invariant forall p :: 0 <= p < active ==> g[p] == tr.grad[alphaIndex[p]]
        invariant Gone(tr, alphaIndex[..], active, old(active)) && Live(tr, alphaIndex[..], 0, if m < active then m else active)
        invariant alphaIndex[..][old(active)..] == ai[old(active)..]
        decreases n - m
      {
        ghost var before, wide := alphaIndex[..], active;
        var shrunk := BeShrunk(m, g, minG, tr);
        if shrunk {
          Retire(m, g, minG, tr);
          StillGone(tr, before, alphaIndex[..], ai, active, wide, old(active));
        }
        m := m + 1;
      }
    }

    /** Solves the subproblem of the active variables and writes the solution back; lists the steps for w. */
    method Update(a: real, g: array<real>, ghost grad: seq<real>)
      returns (ind: seq<nat>, val: seq<real>, ghost b: seq<real>, ghost alphaNew: seq<real>, ghost beta: real)
      requires Valid() && a > 0.0 && 0 < active && n <= g.Length && g != alpha
      requires |grad| == n && forall p :: 0 <= p < active ==> g[p] == grad[alphaIndex[p]]
      modifies alpha
      ensures Valid() && |b| == active
      ensures forall p :: 0 <= p < active ==> b[p] == grad[alphaIndex[p]] - Mul(a, old(alpha[alphaIndex[p]]))
      ensures Optimal(a, b, yIndex, c, beta, alphaNew) && alpha[..] == Written(old(alpha[..]), alphaIndex[..], alphaNew, active)
      ensures |ind| == |val| && (forall q :: 0 <= q < |ind| ==> ind[q] < n) && Steps(ind, val, n) == KeptSteps(old(alpha[..]), alpha[..])
      ensures Sum(Gains(a, grad, old(alpha[..]), alpha[..])) <= 0.0
    {
      ghost var al, ai := alpha[..], alphaIndex[..];
      var bs := Linear(a, g);
      var solution;
      solution, beta := SolveSubProblem(a, yIndex, c, bs);
      b, alphaNew := bs, solution;
      WithinBounds(a, b, yIndex, c, beta, solution);
      WrittenOk(n, y, c, al, ai, yIndex, active, solution);
      WrittenGains(n, y, c, al, ai, yIndex, active, solution, a, grad, b, beta);
      ind, val := WriteBack(solution, al);
    }

    /** B: the gradients less the part of the active variables themselves. */
    method Linear(a: real, g: array<real>) returns (b: seq<real>)
      requires Valid() && n <= g.Length
      ensures |b| == active && forall p :: 0 <= p < active ==> b[p] == g[p] - Mul(a, alpha[alphaIndex[p]])
    {
      b := [];
      for m := 0 to active
        invariant |b| == m && forall p :: 0 <= p < m ==> b[p] == g[p] - Mul(a, alpha[alphaIndex[p]])
      {
        MulIs(a, alpha[alphaIndex[m]]);
        b := b + [g[m] - a * alpha[alphaIndex[m]]];
      }
    }

    /** alpha takes the new values; the steps that are not below 1e-12 are listed for w. */
    method WriteBack(solution: seq<real>, ghost al: seq<real>) returns (ind: seq<nat>, val: seq<real>)
      requires alpha.Length == n && alphaIndex.Length == n && Permutation(alphaIndex[..], n) && |solution| <= n && al == alpha[..]
      modifies alpha
      ensures alpha[..] == Written(al, alphaIndex[..], solution, |solution|)
      ensures |ind| == |val| && (forall q :: 0 <= q < |ind| ==> ind[q] < n) && Steps(ind, val, n) == KeptSteps(al, alpha[..])
    {
      ghost var ai := alphaIndex[..];
      ind, val := [], [];
      NothingListed(al, ai, solution);
      for m := 0 to |solution|
        invariant alpha[..] == Written(al, ai, solution, m)
        invariant |ind| == |val| && (forall q :: 0 <= q < |ind| ==> ind[q] < n) && Listed(al, ai, solution, m, ind, val)
      {
        WrittenRest(al, ai, n, solution, m);
        var d := solution[m] - alpha[alphaIndex[m]];
        ListedNext(al, ai, solution, m, ind, val);
        alpha[alphaIndex[m]] := solution[m];
        if Kept(d) != 0.0 {
          ind, val := ind + [alphaIndex[m]], val + [d];
        }
      }
      AllListed(al, ai, solution, ind, val);
    }

    /**
      One visit of the solver to the example x of squared norm a: gradients from w, shrinking,
      then the subproblem.  alpha takes the solution; w takes the steps that are not tiny; the
      dual objective for w as it stood does not rise.
    */
    method Visit(a: real, x: seq<Feature>, w: array2<real>) returns (retired: bool, spread: Limit)
      requires Valid() && a > 0.0 && w.Length1 == n && InRange(x, w.Length0)
      modifies this`yIndex, this`active, alpha, alphaIndex, w
      ensures Valid() && active <= old(active) && (retired <==> active <= 1)
      ensures VisitedRow(a, ClassGradients(old(Columns(w)), x, y), y, c, old(Shown()), Shown(), spread)
      ensures Moved(old(Columns(w)), Columns(w), KeptSteps(old(alpha[..]), alpha[..]), x)
      ensures Sum(Gains(a, ClassGradients(old(Columns(w)), x, y), old(alpha[..]), alpha[..])) <= 0.0
    {
      ghost var ws, al := Columns(w), alpha[..];
      ghost var grad := ClassGradients(ws, x, y);
      var g, minG;
      g, minG, spread := Measure(x, w, grad);
      ghost var before := Shown();
      Shrink(g, minG, Trial(al, grad, y, c, minG));
      assert ShrunkBy(grad, y, c, before, Shown(), minG);
      retired := active <= 1;
      if retired {
        spread := Infinite;
      }
      if spread.Finite? {
        Improve(a, g, x, w, grad);
      } else {
        NothingGained(a, grad, al);
        NothingKept(ws, al, x);
      }
    }

    /** G, minG, and maxG - minG where that is more than 1e-12. */
    method Measure(x: seq<Feature>, w: array2<real>, ghost grad: seq<real>) returns (g: array<real>, minG: Limit, spread: Limit)
      requires Valid() && w.Length1 == n && InRange(x, w.Length0) && grad == ClassGradients(Columns(w), x, y)
      ensures fresh(g) && g.Length == n && forall p :: 0 <= p < active ==> g[p] == grad[alphaIndex[p]]
      ensures spread.Infinite? ==> ViolatedBy(grad, c, Shown(), 0.000000000001)
      ensures spread.Finite? ==> spread.value > 0.000000000001 && ViolatedBy(grad, c, Shown(), spread.value) && Violated(grad, c, Shown(), spread.value)
      ensures Least(grad, c, Shown(), minG)
    {
      g := Gather(w, x, alphaIndex, active, yIndex);
      GatheredByClass(n, y, alpha[..], g[..], Columns(w), alphaIndex[..], yIndex, x, active);
      var maxG;
      minG, maxG := MinMax(g);
      spread := Infinite;
      if minG.Finite? && maxG.Finite? && maxG.value - minG.value > 0.000000000001 {
        spread := Finite(maxG.value - minG.value);
      }
      SpreadIs(grad, c, Shown(), g[..], minG, maxG, if spread.Finite? then spread.value else 0.000000000001);
      LeastIs(grad, c, Shown(), g[..], minG, maxG);
    }

    /** The subproblem is solved, and w follows. */
    method Improve(a: real, g: array<real>, x: seq<Feature>, w: array2<real>, ghost grad: seq<real>)
      requires Valid() && a > 0.0 && active > 0 && w.Length1 == n && InRange(x, w.Length0) && n <= g.Length && g != alpha
      requires |grad| == n && forall p :: 0 <= p < active ==> g[p] == grad[alphaIndex[p]]
      modifies alpha, w
      ensures Valid() && Solved(a, grad, c, old(alpha[..]), Shown()) && Shown() == old(Shown()).(al := alpha[..])
      ensures Moved(old(Columns(w)), Columns(w), KeptSteps(old(alpha[..]), alpha[..]), x)
      ensures Sum(Gains(a, grad, old(alpha[..]), alpha[..])) <= 0.0
    {
      var ind, val;
      ghost var b, alphaNew, beta;
      ghost var al := alpha[..];
      ind, val, b, alphaNew, beta := Update(a, g, grad);
      assert SolvedBy(a, grad, c, al, Shown(), b, beta, alphaNew);
      Apply(w, x, ind, val);
    }

    /** The variable at position p has not reached its bound. */
    ghost predicate Growable(p: nat)
      requires p < alphaIndex.Length && alphaIndex[p] < alpha.Length
      reads this, alpha, alphaIndex
    {
      alpha[alphaIndex[p]] < Bound(p, yIndex, c)
    }

    /** minG is the least gradient of an active variable that may grow, maxG the largest of all active ones. */
    method MinMax(g: array<real>) returns (minG: Limit, maxG: Limit)
      requires Valid() && n <= g.Length
      ensures forall p :: 0 <= p < active && Growable(p) ==> minG.Finite? && minG.value <= g[p]
      ensures minG.Finite? ==> exists p :: 0 <= p < active && Growable(p) && g[p] == minG.value
      ensures active > 0 ==> maxG.Finite?
      ensures maxG.Finite? ==> forall p :: 0 <= p < active ==> g[p] <= maxG.value
      ensures maxG.Finite? ==> exists p :: 0 <= p < active && g[p] == maxG.value
    {
      minG, maxG := Infinite, Infinite;
      ghost var low, high: nat := 0, 0;
      for m := 0 to active
        invariant forall p :: 0 <= p < m && alpha[alphaIndex[p]] < 0.0 ==> minG.Finite? && minG.value <= g[p]
        invariant minG.Finite? ==> low < m && alpha[alphaIndex[low]] < 0.0 && g[low] == minG.value
        invariant m > 0 ==> maxG.Finite?
        invariant maxG.Finite? ==> forall p :: 0 <= p < m ==> g[p] <= maxG.value
        invariant maxG.Finite? ==> high < m && g[high] == maxG.value
      {
        if alpha[alphaIndex[m]] < 0.0 && Under(g[m], minG) {
          minG, low := Finite(g[m]), m;
        }
        if maxG.Infinite? || g[m] > maxG.value {
          maxG, high := Finite(g[m]), m;
        }
      }
      if yIndex < active && alpha[y] < c && Under(g[yIndex], minG) {
        minG, low := Finite(g[yIndex]), yIndex;
      }
      assert minG.Finite? ==> Growable(low) && g[low] == minG.value;
    }
  }

  // ------------------------------------------------------------- lemmas about one visit

  /** An active class exceeds, in gradient, one whose variable may grow by at most e. */
  ghost predicate ViolationAt(grad: seq<real>, c: real, v: View, e: real, p: nat, q: nat) {
    && p < |v.ai| && q < |v.ai| && v.ai[p] < |grad| && v.ai[q] < |grad| && v.ai[p] < |v.al|
    && (v.al[v.ai[p]] < Bound(p, v.yIndex, c) ==> grad[v.ai[q]] - grad[v.ai[p]] <= e)
  }

  /** The optimality condition of the example's active variables is violated by at most e. */
  ghost predicate ViolatedBy(grad: seq<real>, c: real, v: View, e: real) {
    forall p: nat, q: nat {:trigger ViolationAt(grad, c, v, e, p, q)} :: p < v.active && q < v.active ==> ViolationAt(grad, c, v, e, p, q)
  }

  lemma WiderViolation(grad: seq<real>, c: real, v: View, e: real, wider: real)
    requires ViolatedBy(grad, c, v, e) && e <= wider
    ensures ViolatedBy(grad, c, v, wider)
  {
    forall p: nat, q: nat | p < v.active && q < v.active
      ensures ViolationAt(grad, c, v, wider, p, q)
    {
      assert ViolationAt(grad, c, v, e, p, q);
    }
  }

  lemma SpreadIs(grad: seq<real>, c: real, v: View, g: seq<real>, minG: Limit, maxG: Limit, e: real)
    requires v.active <= |v.ai| && v.active <= |g| && (forall p :: 0 <= p < |v.ai| ==> v.ai[p] < |grad| && v.ai[p] < |v.al|)
    requires forall p :: 0 <= p < v.active ==> g[p] == grad[v.ai[p]]
    requires forall p :: 0 <= p < v.active && v.al[v.ai[p]] < Bound(p, v.yIndex, c) ==> minG.Finite? && minG.value <= g[p]
    requires maxG.Finite? ==> forall p :: 0 <= p < v.active ==> g[p] <= maxG.value
    requires v.active > 0 ==> maxG.Finite?
    requires minG.Finite? && maxG.Finite? ==> maxG.value - minG.value <= e
    ensures ViolatedBy(grad, c, v, e)
  {
    forall p: nat, q: nat | p < v.active && q < v.active
      ensures ViolationAt(grad, c, v, e, p, q)
    {
      assert g[p] == grad[v.ai[p]] && g[q] == grad[v.ai[q]];
    }
  }

  /** v holds the solution new_ of the subproblem of its active variables, which had the values al. */
  ghost predicate SolvedBy(a: real, grad: seq<real>, c: real, al: seq<real>, v: View, b: seq<real>, beta: real, new_: seq<real>) {
    && |b| == |new_| == v.active <= |v.ai| && (forall p :: 0 <= p < |v.ai| ==> v.ai[p] < |al| && v.ai[p] < |grad|)
    && (forall p :: 0 <= p < v.active ==> b[p] == grad[v.ai[p]] - Mul(a, al[v.ai[p]]))
    && Optimal(a, b, v.yIndex, c, beta, new_) && v.al == Written(al, v.ai, new_, v.active)
  }

  ghost predicate Solved(a: real, grad: seq<real>, c: real, al: seq<real>, v: View) {
    exists b: seq<real>, beta: real, new_: seq<real> :: SolvedBy(a, grad, c, al, v, b, beta, new_)
  }

  /**
    What a visit does to a row: exactly the active classes that be_shrunk holds for leave.  Then
    the row retires with its variables as they were, or its violation is at most 1e-12 and they
    stay, or the violation is the spread and those still active solve their subproblem.
  */
  ghost predicate VisitedRow(a: real, grad: seq<real>, y: nat, c: real, before: View, after: View, spread: Limit) {
    && (exists minG: Limit :: Least(grad, c, before, minG) && ShrunkBy(grad, y, c, before, after, minG))
    && (spread.Infinite? ==> after.al == before.al && (after.active <= 1 || ViolatedBy(grad, c, before, 0.000000000001)))
    && (spread.Finite? ==>
          after.active > 1 && spread.value > 0.000000000001 && ViolatedBy(grad, c, before, spread.value) && Violated(grad, c, before, spread.value)
          && Solved(a, grad, c, before.al, after))
  }

  // ------------------------------------------------------------------------- shrinking

  /** What be_shrunk looks at. */
  datatype Trial = Trial(al: seq<real>, grad: seq<real>, y: nat, c: real, minG: Limit)

  /** The class is to be shrunk: its variable is at its bound and its gradient below minG. */
  ghost predicate Shrinks(tr: Trial, m: nat) {
    m < |tr.al| && m < |tr.grad| && tr.al[m] == Bound(m, tr.y, tr.c) && Under(tr.grad[m], tr.minG)
  }

  ghost predicate GoneAt(tr: Trial, ai: seq<nat>, p: nat) {
    p < |ai| && Shrinks(tr, ai[p])
  }

  ghost predicate LiveAt(tr: Trial, ai: seq<nat>, p: nat) {
    p < |ai| && !Shrinks(tr, ai[p])
  }

  ghost predicate Gone(tr: Trial, ai: seq<nat>, from: nat, to: nat) {
    forall p: nat {:trigger GoneAt(tr, ai, p)} :: from <= p < to ==> GoneAt(tr, ai, p)
  }

  ghost predicate Live(tr: Trial, ai: seq<nat>, from: nat, to: nat) {
    forall p: nat {:trigger LiveAt(tr, ai, p)} :: from <= p < to ==> LiveAt(tr, ai, p)
  }

  /** Of the classes active before, exactly those to be shrunk are active no more; the order of the others behind them stands. */
  ghost predicate ShrunkBy(grad: seq<real>, y: nat, c: real, before: View, after: View, minG: Limit) {
    var tr := Trial(before.al, grad, y, c, minG);
    && after.active <= before.active <= |before.ai| == |after.ai| && after.ai[before.active..] == before.ai[before.active..]
    && Live(tr, after.ai, 0, after.active) && Gone(tr, after.ai, after.active, before.active)
  }

  lemma BoundByClass(ai: seq<nat>, n: nat, y: nat, yIndex: nat, c: real, m: nat)
    requires Permutation(ai, n) && yIndex < n && ai[yIndex] == y && m < n
    ensures Bound(m, yIndex, c) == Bound(ai[m], y, c)
  {
    Apart(ai);
  }

  lemma SwapParts(tr: Trial, ai: seq<nat>, ai': seq<nat>, m: nat, k: nat, end: nat)
    requires m < k < end <= |ai| && ai' == ai[m := ai[k]][k := ai[m]]
    requires Live(tr, ai, 0, m) && GoneAt(tr, ai, m) && LiveAt(tr, ai, k) && Gone(tr, ai, k + 1, end)
    ensures Live(tr, ai', 0, m + 1) && Gone(tr, ai', k, end) && ai'[end..] == ai[end..]
  {
    forall p: nat | p < m + 1
      ensures LiveAt(tr, ai', p)
    {
      assert p < m ==> LiveAt(tr, ai, p);
    }
    forall p: nat | k <= p < end
      ensures GoneAt(tr, ai', p)
    {
      assert p > k ==> GoneAt(tr, ai, p);
    }
  }

  lemma StillGone(tr: Trial, before: seq<nat>, after: seq<nat>, first: seq<nat>, active: nat, wide: nat, end: nat)
    requires active <= wide <= end <= |before| == |after| == |first| && after[wide..] == before[wide..] && before[end..] == first[end..]
    requires Gone(tr, after, active, wide) && Gone(tr, before, wide, end)
    ensures Gone(tr, after, active, end) && after[end..] == first[end..]
  {
    forall p: nat | wide <= p < |after|
      ensures after[p] == before[p]
    {
      assert after[p] == after[wide..][p - wide] && before[p] == before[wide..][p - wide];
    }
    forall p: nat | active <= p < end
      ensures GoneAt(tr, after, p)
    {
      assert p >= wide ==> GoneAt(tr, before, p);
    }
  }

  // -------------------------------------------------------------------------- the spread

  ghost predicate GrowableAt(c: real, v: View, p: nat) {
    p < |v.ai| && v.ai[p] < |v.al| && v.al[v.ai[p]] < Bound(p, v.yIndex, c)
  }

  /** minG is the least gradient of an active variable that may grow, INF if there is none. */
  ghost predicate Least(grad: seq<real>, c: real, v: View, minG: Limit) {
    && v.active <= |v.ai| && (forall p :: 0 <= p < |v.ai| ==> v.ai[p] < |grad|)
    && (forall p: nat {:trigger GrowableAt(c, v, p)} :: p < v.active && GrowableAt(c, v, p) ==> minG.Finite? && minG.value <= grad[v.ai[p]])
    && (minG.Finite? ==> exists p: nat :: p < v.active && GrowableAt(c, v, p) && grad[v.ai[p]] == minG.value)
  }

  ghost predicate ViolatedAt(grad: seq<real>, c: real, v: View, e: real, p: nat, q: nat) {
    p < v.active && q < v.active && q < |v.ai| && GrowableAt(c, v, p) && v.ai[p] < |grad| && v.ai[q] < |grad| && grad[v.ai[q]] - grad[v.ai[p]] == e
  }

  /** Some active class exceeds one that may grow by exactly e. */
  ghost predicate Violated(grad: seq<real>, c: real, v: View, e: real) {
    exists p: nat, q: nat :: ViolatedAt(grad, c, v, e, p, q)
  }

  lemma LeastIs(grad: seq<real>, c: real, v: View, g: seq<real>, minG: Limit, maxG: Limit)
    requires v.active <= |v.ai| && v.active <= |g| && (forall p :: 0 <= p < |v.ai| ==> v.ai[p] < |grad| && v.ai[p] < |v.al|)
    requires forall p :: 0 <= p < v.active ==> g[p] == grad[v.ai[p]]
    requires forall p :: 0 <= p < v.active && v.al[v.ai[p]] < Bound(p, v.yIndex, c) ==> minG.Finite? && minG.value <= g[p]
    requires minG.Finite? ==> exists p :: 0 <= p < v.active && v.al[v.ai[p]] < Bound(p, v.yIndex, c) && g[p] == minG.value
    requires maxG.Finite? ==> exists p :: 0 <= p < v.active && g[p] == maxG.value
    ensures Least(grad, c, v, minG)
    ensures minG.Finite? && maxG.Finite? ==> Violated(grad, c, v, maxG.value - minG.value)
  {
    forall p: nat | p < v.active && GrowableAt(c, v, p)
      ensures minG.Finite? && minG.value <= grad[v.ai[p]]
    {
      assert g[p] == grad[v.ai[p]];
    }
    if minG.Finite? {
      var p: nat :| p < v.active && v.al[v.ai[p]] < Bound(p, v.yIndex, c) && g[p] == minG.value;
      assert GrowableAt(c, v, p) && grad[v.ai[p]] == minG.value;
      if maxG.Finite? {
        var q: nat :| q < v.active && g[q] == maxG.value;
        assert ViolatedAt(grad, c, v, maxG.value - minG.value, p, q);
      }
    }
  }

  lemma GatheredByClass(n: nat, y: nat, al: seq<real>, g: seq<real>, ws: seq<seq<real>>, ai: seq<nat>, yIndex: nat, x: seq<Feature>, active: nat)
    requires Indexed(n, y, al, ai, yIndex) && active <= n && |ws| == n && Covers(ws, x) && Gathered(g, ws, ai, yIndex, x, 0, active) && |g| == n
    ensures forall p :: 0 <= p < active ==> g[p] == ClassGradients(ws, x, y)[ai[p]]
  {
    Apart(ai);
    forall p: nat | p < active
      ensures g[p] == ClassGradients(ws, x, y)[ai[p]]
    {
      assert GatheredAt(g, ws, ai, yIndex, x, p);
      assert ai[p] == y <==> p == yIndex;
    }
  }

  lemma NothingGained(a: real, grad: seq<real>, al: seq<real>)
    requires |grad| == |al|
    ensures Sum(Gains(a, grad, al, al)) == 0.0
  {
    forall m: nat | m < |al|
      ensures Gains(a, grad, al, al)[m] == 0.0
    {
      MulZero(grad[m]);
      MulZero(0.0);
      MulZero(a);
    }
    SumZeros(Gains(a, grad, al, al));
  }

  lemma NothingKept(ws: seq<seq<real>>, al: seq<real>, x: seq<Feature>)
    requires |al| == |ws| && Covers(ws, x)
    ensures Moved(ws, ws, KeptSteps(al, al), x)
  {
    var steps := KeptSteps(al, al);
    forall m | 0 <= m < |steps|
      ensures steps[m] == 0.0
    {
      assert steps[m] == Kept(al[m] - al[m]);
    }
    ZeroSteps(ws, steps, x);
  }

  ghost predicate ListedAt(al: seq<real>, ai: seq<nat>, new_: seq<real>, k: nat, ind: seq<nat>, val: seq<real>, p: nat) {
    && |ind| == |val| && k <= |new_| && p < |ai| && ai[p] < |al|
    && Recorded(ind, val, ai[p]) == if p < k then Kept(new_[p] - al[ai[p]]) else 0.0
  }

  /** The list holds the steps of the first k positions. */
  ghost predicate Listed(al: seq<real>, ai: seq<nat>, new_: seq<real>, k: nat, ind: seq<nat>, val: seq<real>) {
    forall p: nat {:trigger ListedAt(al, ai, new_, k, ind, val, p)} :: p < |ai| ==> ListedAt(al, ai, new_, k, ind, val, p)
  }

  lemma NothingListed(al: seq<real>, ai: seq<nat>, new_: seq<real>)
    requires forall p :: 0 <= p < |ai| ==> ai[p] < |al|
    ensures Listed(al, ai, new_, 0, [], [])
  {
    var ind, val: seq<real>, k := [], [], 0;
    forall p: nat | p < |ai|
      ensures ListedAt(al, ai, new_, k, ind, val, p)
    {
    }
  }

  lemma ListedNext(al: seq<real>, ai: seq<nat>, new_: seq<real>, k: nat, ind: seq<nat>, val: seq<real>)
    requires |ind| == |val| && k < |new_| <= |ai| && Permutation(ai, |al|) && Listed(al, ai, new_, k, ind, val)
    ensures var d := new_[k] - al[ai[k]];
      if Kept(d) != 0.0 then Listed(al, ai, new_, k + 1, ind + [ai[k]], val + [d]) else Listed(al, ai, new_, k + 1, ind, val)
  {
    var d, next := new_[k] - al[ai[k]], k + 1;
    var ind' := if Kept(d) != 0.0 then ind + [ai[k]] else ind;
    var val' := if Kept(d) != 0.0 then val + [d] else val;
    Apart(ai);
    assert (ind + [ai[k]])[..|ind|] == ind && (val + [d])[..|val|] == val;
    forall p: nat | p < |ai|
      ensures ListedAt(al, ai, new_, next, ind', val', p)
    {
      assert ListedAt(al, ai, new_, k, ind, val, p);
      assert ai[p] == ai[k] <==> p == k;
    }
  }

  lemma SameSteps(ind: seq<nat>, val: seq<real>, al: seq<real>, al': seq<real>)
    requires |ind| == |val| && |al| == |al'| && forall m: nat :: m < |al| ==> Recorded(ind, val, m) == Kept(al'[m] - al[m])
    ensures Steps(ind, val, |al|) == KeptSteps(al, al')
  {
  }

  lemma AllListed(al: seq<real>, ai: seq<nat>, new_: seq<real>, ind: seq<nat>, val: seq<real>)
    requires |ind| == |val| && Permutation(ai, |al|) && |new_| <= |al| && Listed(al, ai, new_, |new_|, ind, val)
    ensures Steps(ind, val, |al|) == KeptSteps(al, Written(al, ai, new_, |new_|))
  {
    var al' := Written(al, ai, new_, |new_|);
    forall m: nat | m < |al|
      ensures Recorded(ind, val, m) == Kept(al'[m] - al[m])
    {
      var p := PlaceOf(ai, |al|, m);
      assert ListedAt(al, ai, new_, |new_|, ind, val, p);
      WrittenAt(al, ai, |al|, new_, p);
    }
    SameSteps(ind, val, al, al');
  }
}
