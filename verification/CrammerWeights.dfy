/**
  The weights of the Crammer-Singer solver (trident-workloads/liblinear/linear.cpp,
  Solver_MCSVM_CS::Solve): one vector for each class, kept side by side in one table, the
  gradients they give for an example, and their update, which leaves out tiny steps.
*/
module CrammerWeights {
  import opened Reals
  import opened SparseVectors

  /** The weight vector of class m. */
  ghost function Column(w: array2<real>, m: nat): (c: seq<real>)
    requires m < w.Length1
    reads w
    ensures |c| == w.Length0
  {
    seq(w.Length0, k requires 0 <= k < w.Length0 reads w => w[k, m])
  }

  ghost function Columns(w: array2<real>): (ws: seq<seq<real>>)
    reads w
    ensures |ws| == w.Length1 && forall m {:trigger ws[m]} :: 0 <= m < |ws| ==> ws[m] == Column(w, m)
  {
    seq(w.Length1, m requires 0 <= m < w.Length1 reads w => Column(w, m))
  }

  /** Every class has a weight for every feature of x. */
  ghost predicate Covers(ws: seq<seq<real>>, x: seq<Feature>) {
    forall m {:trigger ws[m]} :: 0 <= m < |ws| ==> InRange(x, |ws[m]|)
  }

  /** The gradient of the dual objective for class m of an example of class y. */
  ghost function ClassGradient(ws: seq<seq<real>>, x: seq<Feature>, y: nat, m: nat): real
    requires m < |ws| && Covers(ws, x)
  {
    (if m == y then 0.0 else 1.0) + Inner(ws[m], x)
  }

  ghost function ClassGradients(ws: seq<seq<real>>, x: seq<Feature>, y: nat): (grad: seq<real>)
    requires Covers(ws, x)
    ensures |grad| == |ws|
  {
    seq(|ws|, m requires 0 <= m < |ws| => ClassGradient(ws, x, y, m))
  }

  lemma InnerNext(w: seq<real>, x: seq<Feature>, i: nat)
    requires InRange(x, |w|) && i < |x|
    ensures Inner(w, x[..i + 1]) == Inner(w, x[..i]) + Mul(w[x[i].index - 1], x[i].value)
  {
    assert x[..i + 1][..i] == x[..i];
  }

  ghost predicate GatheredAt(g: seq<real>, ws: seq<seq<real>>, ai: seq<nat>, yIndex: nat, x: seq<Feature>, p: nat) {
    && p < |g| && p < |ai| && ai[p] < |ws| && InRange(x, |ws[ai[p]]|)
    && g[p] == (if p == yIndex then 0.0 else 1.0) + Inner(ws[ai[p]], x)
  }

  /** Positions from .. to of g hold gradients for the features x. */
  ghost predicate Gathered(g: seq<real>, ws: seq<seq<real>>, ai: seq<nat>, yIndex: nat, x: seq<Feature>, from: nat, to: nat) {
    forall p: nat {:trigger GatheredAt(g, ws, ai, yIndex, x, p)} :: from <= p < to ==> GatheredAt(g, ws, ai, yIndex, x, p)
  }

  /** G[m] += w_i[alpha_index_i[m]] * value for one feature. */
  method GatherFeature(g: array<real>, w: array2<real>, ai: array<nat>, active: nat, ghost yIndex: nat, x: seq<Feature>, i: nat)
    requires i < |x| && InRange(x, w.Length0) && active <= ai.Length && active <= g.Length && forall p :: 0 <= p < active ==> ai[p] < w.Length1
    requires Gathered(g[..], Columns(w), ai[..], yIndex, x[..i], 0, active)
    modifies g
    ensures Gathered(g[..], Columns(w), ai[..], yIndex, x[..i + 1], 0, active)
  {
    ghost var ws, ais, some, next := Columns(w), ai[..], x[..i], x[..i + 1];
    for m := 0 to active
      invariant Gathered(g[..], ws, ais, yIndex, next, 0, m) && Gathered(g[..], ws, ais, yIndex, some, m, active)
    {
      ghost var before := g[..];
      assert GatheredAt(before, ws, ais, yIndex, some, m);
      InnerNext(ws[ai[m]], x, i);
      MulIs(w[x[i].index - 1, ai[m]], x[i].value);
      g[m] := g[m] + w[x[i].index - 1, ai[m]] * x[i].value;
      assert g[..] == before[m := g[m]];
      GatheredUpdate(before, g[m], ws, ais, yIndex, some, next, m, active);
    }
  }

  lemma GatheredUpdate(g: seq<real>, v: real, ws: seq<seq<real>>, ai: seq<nat>, yIndex: nat, some: seq<Feature>, next: seq<Feature>, m: nat, active: nat)
    requires m < active <= |g| && Gathered(g, ws, ai, yIndex, next, 0, m) && Gathered(g, ws, ai, yIndex, some, m, active)
    requires GatheredAt(g[m := v], ws, ai, yIndex, next, m)
    ensures Gathered(g[m := v], ws, ai, yIndex, next, 0, m + 1) && Gathered(g[m := v], ws, ai, yIndex, some, m + 1, active)
  {
    var g' := g[m := v];
    forall p: nat | p <= m
      ensures GatheredAt(g', ws, ai, yIndex, next, p)
    {
      assert p < m ==> GatheredAt(g, ws, ai, yIndex, next, p);
    }
    forall p: nat | m < p < active
      ensures GatheredAt(g', ws, ai, yIndex, some, p)
    {
      assert GatheredAt(g, ws, ai, yIndex, some, p);
    }
  }

  /** G: the gradients of the active classes of an example, in the order of ai. */
  method Gather(w: array2<real>, x: seq<Feature>, ai: array<nat>, active: nat, yIndex: nat) returns (g: array<real>)
    requires InRange(x, w.Length0) && active <= ai.Length && forall p :: 0 <= p < active ==> ai[p] < w.Length1
    ensures fresh(g) && g.Length == ai.Length && Gathered(g[..], Columns(w), ai[..], yIndex, x, 0, active)
  {
    g := new real[ai.Length](p => 1.0);
    if yIndex < active {
      g[yIndex] := 0.0;
    }
    ghost var ws, ais, gs := Columns(w), ai[..], g[..];
    assert x[..0] == [];
    forall p: nat | p < active
      ensures GatheredAt(gs, ws, ais, yIndex, [], p)
    {
    }
    for i := 0 to |x|
      invariant Gathered(g[..], ws, ais, yIndex, x[..i], 0, active)
    {
      GatherFeature(g, w, ai, active, yIndex, x, i);
    }
    assert x[..|x|] == x;
  }

  // ------------------------------------------------------------------- tiny steps

  /** The part of a step that reaches w: nothing of a step below 1e-12. */
  function Kept(d: real): real {
    if d >= 0.000000000001 || d <= -0.000000000001 then d else 0.0
  }

  ghost function KeptSteps(al: seq<real>, al': seq<real>): (steps: seq<real>)
    requires |al| == |al'|
    ensures |steps| == |al|
  {
    seq(|al|, m requires 0 <= m < |al| => Kept(al'[m] - al[m]))
  }

  /** The step recorded for class m in the list of steps. */
  ghost function Recorded(ind: seq<nat>, val: seq<real>, m: nat): real
    requires |ind| == |val|
  {
    if ind == [] then 0.0
    else Recorded(ind[..|ind| - 1], val[..|val| - 1], m) + if ind[|ind| - 1] == m then val[|val| - 1] else 0.0
  }

  lemma RecordedNext(ind: seq<nat>, val: seq<real>, q: nat, m: nat)
    requires |ind| == |val| && q < |ind|
    ensures Recorded(ind[..q + 1], val[..q + 1], m) == Recorded(ind[..q], val[..q], m) + if ind[q] == m then val[q] else 0.0
  {
    assert ind[..q + 1][..q] == ind[..q] && val[..q + 1][..q] == val[..q];
  }

  ghost predicate AddendAt(add: seq<real>, ind: seq<nat>, val: seq<real>, v: real, m: nat) {
    |ind| == |val| && m < |add| && add[m] == Mul(Recorded(ind, val, m), v)
  }

  /** What the recorded steps, times v, add to each class. */
  ghost predicate Addends(add: seq<real>, ind: seq<nat>, val: seq<real>, v: real) {
    forall m: nat {:trigger AddendAt(add, ind, val, v, m)} :: m < |add| ==> AddendAt(add, ind, val, v, m)
  }

  lemma AddendsNext(add: seq<real>, ind: seq<nat>, val: seq<real>, v: real, q: nat)
    requires |ind| == |val| && q < |ind| && ind[q] < |add| && Addends(add, ind[..q], val[..q], v)
    ensures Addends(add[ind[q] := add[ind[q]] + Mul(val[q], v)], ind[..q + 1], val[..q + 1], v)
  {
    var add', ind', val' := add[ind[q] := add[ind[q]] + Mul(val[q], v)], ind[..q + 1], val[..q + 1];
    forall m: nat | m < |add|
      ensures AddendAt(add', ind', val', v, m)
    {
      assert AddendAt(add, ind[..q], val[..q], v, m);
      RecordedNext(ind, val, q, m);
      MulPlus(v, Recorded(ind[..q], val[..q], m), val[q]);
    }
  }

  lemma NoAddends(n: nat, v: real) returns (add: seq<real>)
    ensures |add| == n && Addends(add, [], [], v) && forall m :: 0 <= m < n ==> add[m] == 0.0
  {
    add := seq(n, m => 0.0);
    MulZero(v);
    forall m: nat | m < n
      ensures AddendAt(add, [], [], v, m)
    {
    }
  }

  /** Row k has grown by add; the other rows are as before. */
  ghost predicate RowMoved(before: seq<seq<real>>, w: array2<real>, k: nat, add: seq<real>)
    reads w
  {
    && |before| == w.Length1 == |add|
    && forall m: nat, j: nat {:trigger w[j, m]} :: m < w.Length1 && j < w.Length0 ==>
      |before[m]| == w.Length0 && w[j, m] == if j == k then before[m][j] + add[m] else before[m][j]
  }

  /** w_i[d_ind[m]] += d_val[m] * value for one feature. */
  method MoveRow(w: array2<real>, k: nat, ind: seq<nat>, val: seq<real>, v: real) returns (ghost add: seq<real>)
    requires k < w.Length0 && |ind| == |val| && forall q :: 0 <= q < |ind| ==> ind[q] < w.Length1
    modifies w
    ensures |add| == w.Length1 && Addends(add, ind, val, v) && RowMoved(old(Columns(w)), w, k, add)
  {
    ghost var before := Columns(w);
    add := NoAddends(w.Length1, v);
    for q := 0 to |ind|
      invariant |add| == w.Length1 && Addends(add, ind[..q], val[..q], v) && RowMoved(before, w, k, add)
    {
      MulIs(val[q], v);
      AddendsNext(add, ind, val, v, q);
      add := add[ind[q] := add[ind[q]] + Mul(val[q], v)];
      w[k, ind[q]] := w[k, ind[q]] + val[q] * v;
    }
    assert ind[..|ind|] == ind && val[..|val|] == val;
  }

  ghost predicate MovedAt(ws: seq<seq<real>>, ws': seq<seq<real>>, steps: seq<real>, x: seq<Feature>, m: nat) {
    m < |ws| && m < |ws'| && m < |steps| && InRange(x, |ws[m]|) && ws'[m] == Added(ws[m], steps[m], x)
  }

  /** The weights of every class have moved by its step times the example. */
  ghost predicate Moved(ws: seq<seq<real>>, ws': seq<seq<real>>, steps: seq<real>, x: seq<Feature>) {
    && |ws'| == |ws| == |steps|
    && forall m: nat {:trigger MovedAt(ws, ws', steps, x, m)} :: m < |ws| ==> MovedAt(ws, ws', steps, x, m)
  }

  ghost function Steps(ind: seq<nat>, val: seq<real>, n: nat): (s: seq<real>)
    requires |ind| == |val|
  {
    seq(n, m requires 0 <= m < n => Recorded(ind, val, m))
  }

  /** One more feature of the example. */
  lemma MoveFeature(ws: seq<seq<real>>, mid: seq<seq<real>>, w: array2<real>, ind: seq<nat>, val: seq<real>, x: seq<Feature>, i: nat, add: seq<real>)
    requires |ind| == |val| && i < |x| && InRange(x, w.Length0) && Covers(ws, x) && (forall m :: 0 <= m < |ws| ==> |ws[m]| == w.Length0) && Moved(ws, mid, Steps(ind, val, |ws|), x[..i])
    requires w.Length1 == |ws| == |add| && Addends(add, ind, val, x[i].value) && RowMoved(mid, w, x[i].index - 1, add)
    ensures Moved(ws, Columns(w), Steps(ind, val, |ws|), x[..i + 1])
  {
    var ws', steps, next := Columns(w), Steps(ind, val, |ws|), x[..i + 1];
    forall m: nat | m < |ws|
      ensures MovedAt(ws, ws', steps, next, m)
    {
      assert MovedAt(ws, mid, steps, x[..i], m) && AddendAt(add, ind, val, x[i].value, m);
      AddedNext(ws[m], steps[m], x, i);
      ColumnMoved(mid, w, x[i].index - 1, add, m);
    }
  }

  lemma ColumnMoved(mid: seq<seq<real>>, w: array2<real>, k: nat, add: seq<real>, m: nat)
    requires RowMoved(mid, w, k, add) && m < |mid| && |mid[m]| == w.Length0 && k < |mid[m]|
    ensures Column(w, m) == mid[m][k := mid[m][k] + add[m]]
  {
    var c := Column(w, m);
    forall j: nat | j < |c|
      ensures c[j] == mid[m][k := mid[m][k] + add[m]][j]
    {
      assert c[j] == w[j, m];
    }
  }

  /** The update of w over the features of the example. */
  method Apply(w: array2<real>, x: seq<Feature>, ind: seq<nat>, val: seq<real>)
    requires InRange(x, w.Length0) && |ind| == |val| && forall q :: 0 <= q < |ind| ==> ind[q] < w.Length1
    modifies w
    ensures Moved(old(Columns(w)), Columns(w), Steps(ind, val, w.Length1), x)
  {
    ghost var ws := Columns(w);
    NothingMoved(ws, Steps(ind, val, w.Length1));
    for i := 0 to |x|
      invariant Moved(ws, Columns(w), Steps(ind, val, w.Length1), x[..i])
    {
      ghost var mid := Columns(w);
      ghost var add := MoveRow(w, x[i].index - 1, ind, val, x[i].value);
      MoveFeature(ws, mid, w, ind, val, x, i, add);
    }
    assert x[..|x|] == x;
  }

  lemma NothingMoved(ws: seq<seq<real>>, steps: seq<real>)
    requires |steps| == |ws|
    ensures Moved(ws, ws, steps, [])
  {
    forall m: nat | m < |ws|
      ensures MovedAt(ws, ws, steps, [], m)
    {
    }
  }

  /** A visit that changes nothing moves the weights by zero steps. */
  lemma ZeroSteps(ws: seq<seq<real>>, steps: seq<real>, x: seq<Feature>)
    requires |steps| == |ws| && Covers(ws, x) && forall m :: 0 <= m < |steps| ==> steps[m] == 0.0
    ensures Moved(ws, ws, steps, x)
  {
    forall m: nat | m < |ws|
      ensures MovedAt(ws, ws, steps, x, m)
    {
      forall k: nat | k < |ws[m]|
        ensures Added(ws[m], 0.0, x)[k] == ws[m][k]
      {
        AddedAt(ws[m], 0.0, x, k);
        MulZero(Component(x, k));
      }
    }
  }
}
