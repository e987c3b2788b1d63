/**
  The dual problem of the Crammer-Singer solver (trident-workloads/liblinear/linear.cpp,
  Solver_MCSVM_CS): how the weights of the classes follow the variables of the examples, when
  the steps left out of w make the two differ, and what a visit does to the objective.
*/
module CrammerDual {
  import opened Reals
  import opened SparseVectors
  import opened CrammerSinger
  import opened CrammerOrder
  import opened CrammerWeights

  /** Examples of n features with their classes, and the bound C of each class. */
  datatype Problem = Problem(n: nat, classes: nat, x: seq<seq<Feature>>, y: seq<nat>, c: seq<real>)

  ghost predicate ExampleOk(p: Problem, i: nat) {
    && i < |p.x| && i < |p.y| && p.y[i] < p.classes && p.y[i] < |p.c| && p.c[p.y[i]] >= 0.0 && Vector(p.x[i], p.n)
  }

  ghost predicate WellPosed(p: Problem) {
    |p.y| == |p.x| && forall i: nat {:trigger ExampleOk(p, i)} :: i < |p.x| ==> ExampleOk(p, i)
  }

  // ------------------------------------------------------------------------- coupling

  /** The variables of class m, one for each example. */
  ghost function Coefficients(als: seq<seq<real>>, m: nat): seq<real> {
    seq(|als|, i requires 0 <= i < |als| => if m < |als[i]| then als[i][m] else 0.0)
  }

  ghost predicate CoupledAt(p: Problem, als: seq<seq<real>>, ws: seq<seq<real>>, m: nat) {
    m < |ws| && |ws[m]| == p.n && Combines(p.x, Coefficients(als, m), ws[m])
  }

  /** The weights of every class are the sum of the examples, each times its variable for the class. */
  ghost predicate Coupled(p: Problem, als: seq<seq<real>>, ws: seq<seq<real>>) {
    && |als| == |p.x| && |ws| == p.classes && (forall i {:trigger als[i]} :: 0 <= i < |als| ==> |als[i]| == p.classes)
    && forall m: nat {:trigger CoupledAt(p, als, ws, m)} :: m < p.classes ==> CoupledAt(p, als, ws, m)
  }

  ghost function Plus(s: seq<real>, t: seq<real>): (r: seq<real>)
    requires |s| == |t|
    ensures |r| == |s|
  {
    seq(|s|, m requires 0 <= m < |s| => s[m] + t[m])
  }

  /** When the weights move by steps times an example, they follow variables that move by the same steps. */
  lemma MovedCouples(p: Problem, als: seq<seq<real>>, ws: seq<seq<real>>, i: nat, steps: seq<real>, ws': seq<seq<real>>)
    requires Coupled(p, als, ws) && i < |p.x| && Moved(ws, ws', steps, p.x[i])
    ensures Coupled(p, als[i := Plus(als[i], steps)], ws')
  {
    var als' := als[i := Plus(als[i], steps)];
    forall m: nat | m < p.classes
      ensures CoupledAt(p, als', ws', m)
    {
      assert CoupledAt(p, als, ws, m) && MovedAt(ws, ws', steps, p.x[i], m);
      var coeffs := Coefficients(als, m);
      CombinesStep(p.x, coeffs, ws[m], i, steps[m]);
      assert Coefficients(als', m) == coeffs[i := coeffs[i] + steps[m]];
    }
  }

  /** Every step of the visit reaches w. */
  predicate NothingLost(al: seq<real>, al': seq<real>) {
    |al| == |al'| && forall m :: 0 <= m < |al| ==> Kept(al'[m] - al[m]) == al'[m] - al[m]
  }

  lemma AllReach(al: seq<real>, al': seq<real>)
    requires NothingLost(al, al')
    ensures Plus(al, KeptSteps(al, al')) == al'
  {
    var steps := KeptSteps(al, al');
    forall m | 0 <= m < |al|
      ensures al[m] + steps[m] == al'[m]
    {
      assert steps[m] == Kept(al'[m] - al[m]);
    }
  }

  /** An example with a positive norm has a component that is not zero. */
  lemma {:induction false} SomeComponent(x: seq<Feature>, n: nat) returns (k: nat)
    requires Vector(x, n) && SquaredNorm(x) > 0.0
    ensures k < n && Component(x, k) != 0.0
  {
    var m := |x| - 1;
    var v := x[m].value;
    if v != 0.0 {
      k := x[m].index - 1;
      AbsentComponent(x[..m], k);
    } else {
      MulZero(v);
      k := SomeComponent(x[..m], n);
      AbsentComponent(x[..m], x[m].index - 1);
    }
  }

  /** Adding nothing times an example leaves the weights alone. */
  lemma AddedNothing(w: seq<real>, x: seq<Feature>)
    requires InRange(x, |w|)
    ensures Added(w, 0.0, x) == w
  {
    forall k: nat | k < |w|
      ensures Added(w, 0.0, x)[k] == w[k]
    {
      AddedAt(w, 0.0, x, k);
      MulZero(Component(x, k));
    }
  }

  /** A step that does not reach w parts the two. */
  lemma LostStep(p: Problem, als: seq<seq<real>>, ws: seq<seq<real>>, i: nat, al': seq<real>, ws': seq<seq<real>>, m: nat)
    requires WellPosed(p) && Coupled(p, als, ws) && i < |p.x| && ExampleOk(p, i) && SquaredNorm(p.x[i]) > 0.0 && |al'| == p.classes
    requires Moved(ws, ws', KeptSteps(als[i], al'), p.x[i]) && m < p.classes && al'[m] != als[i][m] && Kept(al'[m] - als[i][m]) == 0.0
    ensures !Coupled(p, als[i := al'], ws')
  {
    var als', d := als[i := al'], al'[m] - als[i][m];
    var k := SomeComponent(p.x[i], p.n);
    var coeffs := Coefficients(als, m);
    assert CoupledAt(p, als, ws, m) && MovedAt(ws, ws', KeptSteps(als[i], al'), p.x[i], m);
    AddedNothing(ws[m], p.x[i]);
    assert ws'[m] == ws[m] && CombinesAt(p.x, coeffs, ws[m], k);
    assert Coefficients(als', m) == coeffs[i := coeffs[i] + d];
    ShareStep(p.x, coeffs, i, d, k);
    NonZero(d, Component(p.x[i], k));
    assert !CombinesAt(p.x, Coefficients(als', m), ws'[m], k);
    assert !CoupledAt(p, als', ws', m);
  }

  lemma NonZero(a: real, b: real)
    requires a != 0.0 && b != 0.0
    ensures Mul(a, b) != 0.0
  {
    MulSign(a, b);
    MulSign(-a, b);
    MulSign(a, -b);
    MulMinus(b, 0.0, a);
    MulMinus(a, 0.0, b);
    MulZero(a);
    MulZero(b);
  }

  /**
    After a visit to an example with a positive norm, w is still the sum of alpha x exactly if
    every variable that moved has moved by 1e-12 or more.
  */
  lemma CoupledExactly(p: Problem, als: seq<seq<real>>, ws: seq<seq<real>>, i: nat, al': seq<real>, ws': seq<seq<real>>)
    requires WellPosed(p) && Coupled(p, als, ws) && i < |p.x| && SquaredNorm(p.x[i]) > 0.0 && |al'| == p.classes
    requires Moved(ws, ws', KeptSteps(als[i], al'), p.x[i])
    ensures Coupled(p, als[i := al'], ws') <==>
      forall m :: 0 <= m < p.classes ==> var d := al'[m] - als[i][m]; d == 0.0 || d >= 0.000000000001 || d <= -0.000000000001
  {
    assert ExampleOk(p, i);
    if NothingLost(als[i], al') {
      AllReach(als[i], al');
      MovedCouples(p, als, ws, i, KeptSteps(als[i], al'), ws');
    } else {
      var m: nat :| m < |al'| && Kept(al'[m] - als[i][m]) != al'[m] - als[i][m];
      LostStep(p, als, ws, i, al', ws', m);
    }
  }

  /** One example of one feature, two classes, and a bound of half of 1e-12. */
  function TinyBound(): Problem {
    Problem(1, 2, [[Feature(1, 1.0)]], [0], [0.0000000000005, 0.0000000000005])
  }

  /** From zero, the first visit moves both variables by that bound and w not at all. */
  lemma TinyBoundParts(beta: real, new_: seq<real>, ws': seq<seq<real>>)
    requires |new_| == 2 && Sum(new_) == 0.0
    requires Optimal(1.0, ClassGradients([[0.0], [0.0]], TinyBound().x[0], 0), 0, TinyBound().c[0], beta, new_)
    requires Moved([[0.0], [0.0]], ws', KeptSteps([0.0, 0.0], new_), TinyBound().x[0])
    ensures WellPosed(TinyBound()) && Coupled(TinyBound(), [[0.0, 0.0]], [[0.0], [0.0]])
    ensures new_ == [0.0000000000005, -0.0000000000005] && !Coupled(TinyBound(), [new_], ws')
  {
    var p, ws, als, c := TinyBound(), [[0.0], [0.0]], [[0.0, 0.0]], 0.0000000000005;
    var x := p.x[0];
    assert ExampleOk(p, 0);
    forall m: nat | m < 2
      ensures CoupledAt(p, als, ws, m)
    {
      CombinesZero(p.x, Coefficients(als, m), ws[m]);
    }
    assert x[..0] == [];
    MulZero(0.0);
    MulZero(1.0);
    assert Inner([0.0], x) == 0.0 && SquaredNorm(x) == 1.0;
    var b := ClassGradients(ws, x, 0);
    assert b[0] == ClassGradient(ws, x, 0, 0) && b[1] == ClassGradient(ws, x, 0, 1);
    assert OptimalAt(1.0, b, 0, c, beta, new_, 0) && OptimalAt(1.0, b, 0, c, beta, new_, 1);
    MulZero(new_[0]);
    MulZero(new_[1]);
    SumOfTwo(new_);
    CoupledExactly(p, als, ws, 0, new_, ws');
    assert als[0 := new_] == [new_];
    assert new_[0] - als[0][0] == c;
  }

  lemma SumOfTwo(s: seq<real>)
    requires |s| == 2
    ensures Sum(s) == s[0] + s[1]
  {
    assert s[..1] == [s[0]];
    SumSingle(s[0]);
  }

  // ------------------------------------------------------------------------- objective

  ghost function HalfNorms(ws: seq<seq<real>>): seq<real> {
    seq(|ws|, m requires 0 <= m < |ws| => Sum(Squares(ws[m])) / 2.0)
  }

  /** e_m alpha_m: the variables of the other classes. */
  ghost function Others(y: nat, al: seq<real>): seq<real> {
    seq(|al|, m requires 0 <= m < |al| => if m == y then 0.0 else al[m])
  }

  ghost function Linears(p: Problem, als: seq<seq<real>>): seq<real>
    requires |als| == |p.y|
  {
    seq(|als|, i requires 0 <= i < |als| => Sum(Others(p.y[i], als[i])))
  }

  /** Half the squared norms of the weights plus the sum of e alpha. */
  ghost function Objective(p: Problem, als: seq<seq<real>>, ws: seq<seq<real>>): real
    requires |als| == |p.y|
  {
    Sum(HalfNorms(ws)) + Sum(Linears(p, als))
  }

  lemma {:induction false} SumFive(a: seq<real>, b: seq<real>, c: seq<real>, d: seq<real>, e: seq<real>)
    requires |a| == |b| == |c| == |d| == |e| && forall m :: 0 <= m < |a| ==> a[m] + b[m] == c[m] + d[m] + e[m]
    ensures Sum(a) + Sum(b) == Sum(c) + Sum(d) + Sum(e)
    decreases |a|
  {
    if a != [] {
      var m := |a| - 1;
      SumFive(a[..m], b[..m], c[..m], d[..m], e[..m]);
    }
  }

  /** One class: its norm and its variable change by the gain. */
  lemma ClassChange(w: seq<real>, x: seq<Feature>, other: bool, u: real, v: real)
    requires Vector(x, |w|)
    ensures Sum(Squares(Added(w, v - u, x))) / 2.0 + (if other then v else 0.0)
      == Sum(Squares(w)) / 2.0 + (if other then u else 0.0) + Gain(SquaredNorm(x), (if other then 1.0 else 0.0) + Inner(w, x), u, v)
  {
    var d := v - u;
    NormOfAdded(w, d, x);
    MulPlus(d, if other then 1.0 else 0.0, Inner(w, x));
    MulZero(d);
    MulCommutes(SquaredNorm(x), Mul(d, d));
  }

  /** A visit whose steps all reach w changes the objective by the gains of the classes. */
  lemma VisitObjective(p: Problem, als: seq<seq<real>>, ws: seq<seq<real>>, i: nat, al': seq<real>, ws': seq<seq<real>>)
    requires WellPosed(p) && Coupled(p, als, ws) && i < |p.x| && ExampleOk(p, i) && |al'| == p.classes && NothingLost(als[i], al')
    requires Covers(ws, p.x[i]) && Moved(ws, ws', KeptSteps(als[i], al'), p.x[i])
    ensures Objective(p, als[i := al'], ws')
      == Objective(p, als, ws) + Sum(Gains(SquaredNorm(p.x[i]), ClassGradients(ws, p.x[i], p.y[i]), als[i], al'))
  {
    var al, x, y, als' := als[i], p.x[i], p.y[i], als[i := al'];
    var gains := Gains(SquaredNorm(x), ClassGradients(ws, x, y), al, al');
    forall m: nat | m < p.classes
      ensures HalfNorms(ws')[m] + Others(y, al')[m] == HalfNorms(ws)[m] + Others(y, al)[m] + gains[m]
    {
      assert CoupledAt(p, als, ws, m) && MovedAt(ws, ws', KeptSteps(al, al'), x, m);
      assert KeptSteps(al, al')[m] == Kept(al'[m] - al[m]);
      ClassChange(ws[m], x, m != y, al[m], al'[m]);
    }
    SumFive(HalfNorms(ws'), Others(y, al'), HalfNorms(ws), Others(y, al), gains);
    assert Linears(p, als') == Linears(p, als)[i := Sum(Others(y, al'))];
    SumUpdate(Linears(p, als), i, Sum(Others(y, al')));
  }
}
