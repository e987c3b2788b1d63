/**
  Dual coordinate descent for support vector machines
  (trident-workloads/liblinear/linear.cpp, solve_l2r_l1l2_svc), over the reals.
*/
module DualSVC {
  import opened Reals
  import opened SparseVectors

  /** The training problem: examples, labels 1 and -1, and the diagonal and bound of each example. */
  datatype Problem = Problem(n: nat, x: seq<seq<Feature>>, y: seq<real>, diag: seq<real>, upper: seq<Limit>)

  ghost predicate ExampleOk(p: Problem, i: nat) {
    && i < |p.x| && i < |p.y| && i < |p.diag| && i < |p.upper|
    && Vector(p.x[i], p.n) && (p.y[i] == 1.0 || p.y[i] == -1.0) && p.diag[i] >= 0.0
    && (if p.upper[i].Finite? then p.upper[i].value >= 0.0 else p.diag[i] > 0.0)
  }

  ghost predicate WellPosed(p: Problem) {
    && |p.y| == |p.x| && |p.diag| == |p.x| && |p.upper| == |p.x|
    && forall i: nat {:trigger ExampleOk(p, i)} :: i < |p.x| ==> ExampleOk(p, i)
  }

  /**
    The problem that solve_l2r_l1l2_svc sets up: the sign of each label, and by it the diagonal
    and the bound, which depend on the loss.
  */
  function Training(n: nat, x: seq<seq<Feature>>, labels: seq<real>, cp: real, cn: real, l1loss: bool): (p: Problem)
    requires |labels| == |x| && cp > 0.0 && cn > 0.0 && forall i :: 0 <= i < |x| ==> Vector(x[i], n)
    ensures WellPosed(p) && p.n == n && p.x == x
    ensures forall i :: 0 <= i < |x| ==> p.y[i] == if labels[i] > 0.0 then 1.0 else -1.0
    ensures forall i :: 0 <= i < |x| ==> var c := if labels[i] > 0.0 then cp else cn;
      if l1loss then p.diag[i] == 0.0 && p.upper[i] == Finite(c) else p.diag[i] == 0.5 / c && p.upper[i].Infinite?
  {
    var y := seq(|x|, i requires 0 <= i < |x| => if labels[i] > 0.0 then 1.0 else -1.0);
    var c := seq(|x|, i requires 0 <= i < |x| => if labels[i] > 0.0 then cp else cn);
    var diag := seq(|x|, i requires 0 <= i < |x| && c[i] > 0.0 => if l1loss then 0.0 else 0.5 / c[i]);
    var upper := seq(|x|, i requires 0 <= i < |x| => if l1loss then Finite(c[i]) else Infinite);
    var p := Problem(n, x, y, diag, upper);
    assert forall i: nat :: i < |x| ==> ExampleOk(p, i);
    p
  }

  predicate AtMost(a: real, limit: Limit) {
    limit.Infinite? || a <= limit.value
  }

  // ------------------------------------------------------------ w, alpha and the objective

  ghost predicate FeasibleAt(p: Problem, alpha: seq<real>, i: nat) {
    i < |alpha| && i < |p.upper| && 0.0 <= alpha[i] && AtMost(alpha[i], p.upper[i])
  }

  ghost predicate Feasible(p: Problem, alpha: seq<real>) {
    |alpha| == |p.x| && forall i: nat {:trigger FeasibleAt(p, alpha, i)} :: i < |p.x| ==> FeasibleAt(p, alpha, i)
  }

  /** The coefficients y_i alpha_i. */
  ghost function Signed(p: Problem, alpha: seq<real>): seq<real>
    requires |alpha| == |p.y|
  {
    seq(|alpha|, i requires 0 <= i < |alpha| => Mul(alpha[i], p.y[i]))
  }

  /** w is the sum of y_i alpha_i x_i. */
  ghost predicate Coupled(p: Problem, alpha: seq<real>, w: seq<real>) {
    |w| == p.n && |alpha| == |p.x| && |p.y| == |p.x| && Combines(p.x, Signed(p, alpha), w)
  }

  ghost function Diagonal(p: Problem, alpha: seq<real>): seq<real>
    requires |alpha| == |p.diag|
  {
    seq(|alpha|, i requires 0 <= i < |alpha| => Mul(p.diag[i], Mul(alpha[i], alpha[i])))
  }

  /** The dual objective: half of |w|^2 plus the diagonal part, less the sum of alpha. */
  ghost function Objective(p: Problem, alpha: seq<real>, w: seq<real>): real
    requires |alpha| == |p.diag|
  {
    Sum(Squares(w)) / 2.0 + Sum(Diagonal(p, alpha)) / 2.0 - Sum(alpha)
  }

  /** The gradient of the objective at example i. */
  ghost function Gradient(p: Problem, alpha: seq<real>, w: seq<real>, i: nat): real
    requires ExampleOk(p, i) && i < |alpha| && |w| == p.n
  {
    Mul(p.y[i], Inner(w, p.x[i])) - 1.0 + Mul(alpha[i], p.diag[i])
  }

  ghost function Curvature(p: Problem, i: nat): real
    requires ExampleOk(p, i)
  {
    p.diag[i] + SquaredNorm(p.x[i])
  }

  // ------------------------------------------------------------------- one coordinate step

  lemma StepCouples(p: Problem, alpha: seq<real>, w: seq<real>, i: nat, d: real)
    requires WellPosed(p) && Coupled(p, alpha, w) && i < |p.x| && ExampleOk(p, i)
    ensures Coupled(p, alpha[i := alpha[i] + d], Added(w, Mul(d, p.y[i]), p.x[i]))
  {
    var signed := Signed(p, alpha);
    CombinesStep(p.x, signed, w, i, Mul(d, p.y[i]));
    MulPlus(p.y[i], alpha[i], d);
    assert Signed(p, alpha[i := alpha[i] + d]) == signed[i := signed[i] + Mul(d, p.y[i])];
  }

  /** The change of the objective is a quadratic in the step. */
  lemma StepObjective(p: Problem, alpha: seq<real>, w: seq<real>, i: nat, d: real)
    requires |alpha| == |p.x| == |p.diag| && |w| == p.n && i < |p.x| && ExampleOk(p, i)
    ensures Objective(p, alpha[i := alpha[i] + d], Added(w, Mul(d, p.y[i]), p.x[i]))
      == Objective(p, alpha, w) + Mul(d, Gradient(p, alpha, w, i)) + Mul(Mul(d, d), Curvature(p, i)) / 2.0
  {
    SumUpdate(alpha, i, alpha[i] + d);
    DiagonalSum(p, alpha, i, d);
    NormSum(p, w, i, d);
    ObjectiveChange(p, alpha, w, i, d, alpha[i := alpha[i] + d], Added(w, Mul(d, p.y[i]), p.x[i]));
  }

  lemma ObjectiveChange(p: Problem, alpha: seq<real>, w: seq<real>, i: nat, d: real, alpha': seq<real>, w': seq<real>)
    requires |alpha| == |alpha'| == |p.diag| && i < |alpha| && |w| == p.n && ExampleOk(p, i) && Sum(alpha') == Sum(alpha) + d
    requires Sum(Diagonal(p, alpha')) == Sum(Diagonal(p, alpha)) + 2.0 * Mul(d, Mul(alpha[i], p.diag[i])) + Mul(Mul(d, d), p.diag[i])
    requires Sum(Squares(w')) == Sum(Squares(w)) + 2.0 * Mul(d, Mul(p.y[i], Inner(w, p.x[i]))) + Mul(Mul(d, d), SquaredNorm(p.x[i]))
    ensures Objective(p, alpha', w')
      == Objective(p, alpha, w) + Mul(d, Gradient(p, alpha, w, i)) + Mul(Mul(d, d), Curvature(p, i)) / 2.0
  {
    AddUp(Sum(Squares(w)), Sum(Diagonal(p, alpha)), Sum(alpha), d, Mul(p.y[i], Inner(w, p.x[i])), Mul(alpha[i], p.diag[i]),
          p.diag[i], SquaredNorm(p.x[i]), Gradient(p, alpha, w, i), Curvature(p, i),
          Sum(Squares(w')), Sum(Diagonal(p, alpha')), Sum(alpha'));
  }

  lemma AddUp(n: real, q: real, s: real, d: real, inner: real, share: real, diag: real, norm: real, g: real, c: real,
              n': real, q': real, s': real)
    requires g == inner - 1.0 + share && c == diag + norm && s' == s + d
    requires n' == n + 2.0 * Mul(d, inner) + Mul(Mul(d, d), norm) && q' == q + 2.0 * Mul(d, share) + Mul(Mul(d, d), diag)
    ensures n' / 2.0 + q' / 2.0 - s' == (n / 2.0 + q / 2.0 - s) + Mul(d, g) + Mul(Mul(d, d), c) / 2.0
  {
    GradientStep(d, inner, share, g);
    MulPlus(Mul(d, d), diag, norm);
  }

  lemma DiagonalSum(p: Problem, alpha: seq<real>, i: nat, d: real)
    requires |alpha| == |p.diag| && i < |alpha|
    ensures Sum(Diagonal(p, alpha[i := alpha[i] + d]))
      == Sum(Diagonal(p, alpha)) + 2.0 * Mul(d, Mul(alpha[i], p.diag[i])) + Mul(Mul(d, d), p.diag[i])
  {
    var a, q := alpha[i], p.diag[i];
    var entry := Mul(q, Mul(a + d, a + d));
    assert Diagonal(p, alpha[i := a + d]) == Diagonal(p, alpha)[i := entry];
    SumUpdate(Diagonal(p, alpha), i, entry);
    DiagonalStep(q, a, d);
  }

  lemma NormSum(p: Problem, w: seq<real>, i: nat, d: real)
    requires ExampleOk(p, i) && |w| == p.n
    ensures Sum(Squares(Added(w, Mul(d, p.y[i]), p.x[i])))
      == Sum(Squares(w)) + 2.0 * Mul(d, Mul(p.y[i], Inner(w, p.x[i]))) + Mul(Mul(d, d), SquaredNorm(p.x[i]))
  {
    NormOfAdded(w, Mul(d, p.y[i]), p.x[i]);
    LabelSquare(d, p.y[i]);
    MulAssociates(d, p.y[i], Inner(w, p.x[i]));
  }

  lemma DiagonalStep(q: real, a: real, d: real)
    ensures Mul(q, Mul(a + d, a + d)) == Mul(q, Mul(a, a)) + 2.0 * Mul(d, Mul(a, q)) + Mul(Mul(d, d), q)
  {
    MulPlus(a + d, a, d);
    MulPlus(a, a, d);
    MulPlus(d, a, d);
    MulCommutes(a, d);
    assert Mul(a + d, a + d) == Mul(a, a) + Mul(d, a) + Mul(d, a) + Mul(d, d);
    MulPlus(q, Mul(a, a) + Mul(d, a) + Mul(d, a), Mul(d, d));
    MulPlus(q, Mul(a, a) + Mul(d, a), Mul(d, a));
    MulPlus(q, Mul(a, a), Mul(d, a));
    MulCommutes(q, Mul(d, a));
    MulAssociates(d, a, q);
    MulCommutes(q, Mul(d, d));
  }

  lemma LabelSquare(d: real, y: real)
    requires y == 1.0 || y == -1.0
    ensures Mul(Mul(d, y), Mul(d, y)) == Mul(d, d)
  {
    MulIs(d, y);
    MulIs(d * y, d * y);
    MulIs(d, d);
    if y == 1.0 {
      assert d * y == d;
    } else {
      assert d * y == -d;
    }
  }

  lemma GradientStep(d: real, inner: real, share: real, g: real)
    requires g == inner - 1.0 + share
    ensures Mul(d, g) == Mul(d, inner) - d + Mul(d, share)
  {
    MulPlus(d, inner - 1.0, share);
    MulMinus(d, inner, 1.0);
    MulZero(d);
  }

  function Clamp(a: real, upper: Limit): real {
    var b := if a > 0.0 then a else 0.0;
    if AtMost(b, upper) then b else upper.value
  }

  /** The clamped Newton step lowers the quadratic, or leaves it. */
  lemma ClampedStep(a: real, g: real, q: real, upper: Limit)
    requires q > 0.0 && 0.0 <= a && AtMost(a, upper)
    ensures var d := Clamp(a - Over(g, q), upper) - a;
      Mul(d, g) + Mul(Mul(d, d), q) / 2.0 <= 0.0 && 0.0 <= a + d && AtMost(a + d, upper)
  {
    var r := Over(g, q);
    var d := Clamp(a - r, upper) - a;
    assert (r >= 0.0 ==> -r <= d <= 0.0) && (r <= 0.0 ==> 0.0 <= d <= -r);
    MulPlus(q, d, r);
    MulSign(q, r);
    MulSign(q, -r);
    MulMinus(q, 0.0, r);
    MulZero(q);
    MulSign(q, d + r);
    MulSign(q, -(d + r));
    MulMinus(q, 0.0, d + r);
    var h := g + Mul(q, d) / 2.0;
    assert r >= 0.0 ==> d <= 0.0 && h >= 0.0;
    assert r <= 0.0 ==> d >= 0.0 && h <= 0.0;
    MulSign(-d, h);
    MulSign(d, -h);
    MulMinus(h, 0.0, d);
    MulMinus(d, 0.0, h);
    MulZero(h);
    MulZero(d);
    HalfProduct(d, g, q);
  }

  lemma HalfProduct(d: real, g: real, q: real)
    ensures Mul(d, g + Mul(q, d) / 2.0) == Mul(d, g) + Mul(Mul(d, d), q) / 2.0
  {
    MulPlus(d, g, Mul(q, d) / 2.0);
    MulCommutes(q, d);
    MulAssociates(d, d, q);
    MulPlus(d, Mul(d, q) / 2.0, Mul(d, q) / 2.0);
  }

  /** Where the clamped Newton step for example i leads; along a flat coordinate, to the bound. */
  ghost function Target(p: Problem, alpha: seq<real>, w: seq<real>, i: nat): real
    requires ExampleOk(p, i) && i < |alpha| && |w| == p.n
  {
    if Curvature(p, i) > 0.0 then Clamp(alpha[i] - Over(Gradient(p, alpha, w, i), Curvature(p, i)), p.upper[i])
    else if p.upper[i].Finite? then p.upper[i].value
    else alpha[i]
  }

  /** A coordinate without curvature belongs to an example without features, and its gradient is -1. */
  lemma FlatCoordinate(p: Problem, alpha: seq<real>, w: seq<real>, i: nat)
    requires ExampleOk(p, i) && i < |alpha| && |w| == p.n && Curvature(p, i) == 0.0
    ensures Gradient(p, alpha, w, i) == -1.0 && p.upper[i].Finite?
  {
    SquaredNormSign(p.x[i]);
    NoNorm(w, p.x[i]);
    MulZero(p.y[i]);
    MulZero(alpha[i]);
  }

  lemma {:induction false} NoNorm(w: seq<real>, x: seq<Feature>)
    requires InRange(x, |w|) && SquaredNorm(x) == 0.0
    ensures Inner(w, x) == 0.0
    decreases |x|
  {
    if x != [] {
      var m := |x| - 1;
      var v := x[m].value;
      SquaredNormSign(x[..m]);
      MulSign(v, v);
      NoNorm(w, x[..m]);
      MulZero(w[x[m].index - 1]);
    }
  }

  lemma CurvatureSign(p: Problem, i: nat)
    requires ExampleOk(p, i)
    ensures Curvature(p, i) >= 0.0
  {
    SquaredNormSign(p.x[i]);
  }

  /** The step to the target lowers the quadratic, or leaves it. */
  lemma TargetStep(p: Problem, alpha: seq<real>, w: seq<real>, i: nat)
    requires ExampleOk(p, i) && FeasibleAt(p, alpha, i) && |w| == p.n
    ensures var d := Target(p, alpha, w, i) - alpha[i];
      && Mul(d, Gradient(p, alpha, w, i)) + Mul(Mul(d, d), Curvature(p, i)) / 2.0 <= 0.0
      && 0.0 <= alpha[i] + d && AtMost(alpha[i] + d, p.upper[i])
  {
    var d := Target(p, alpha, w, i) - alpha[i];
    CurvatureSign(p, i);
    if Curvature(p, i) == 0.0 {
      FlatCoordinate(p, alpha, w, i);
      MulIs(d, -1.0);
      MulZero(Mul(d, d));
    } else {
      ClampedStep(alpha[i], Gradient(p, alpha, w, i), Curvature(p, i), p.upper[i]);
    }
  }

  /** What the update of one coordinate keeps. */
  lemma StepKeeps(p: Problem, alpha: seq<real>, w: seq<real>, i: nat, alphaNew: real)
    requires WellPosed(p) && Feasible(p, alpha) && Coupled(p, alpha, w) && i < |p.x| && ExampleOk(p, i)
    requires alphaNew == Target(p, alpha, w, i)
    ensures var d := alphaNew - alpha[i];
      var alpha', w' := alpha[i := alphaNew], Added(w, Mul(d, p.y[i]), p.x[i]);
      Feasible(p, alpha') && Coupled(p, alpha', w') && Objective(p, alpha', w') <= Objective(p, alpha, w)
  {
    var d := alphaNew - alpha[i];
    assert FeasibleAt(p, alpha, i);
    TargetStep(p, alpha, w, i);
    assert alpha[i] + d == alphaNew;
    StepObjective(p, alpha, w, i, d);
    StepCouples(p, alpha, w, i, d);
    StepFeasible(p, alpha, i, alphaNew);
  }

  // ---------------------------------------------------------------------------- points

  /** The variables and the weights. */
  datatype Point = Point(alpha: seq<real>, w: seq<real>)

  ghost predicate PointOk(p: Problem, pt: Point) {
    WellPosed(p) && Feasible(p, pt.alpha) && Coupled(p, pt.alpha, pt.w)
  }

  ghost predicate HasExample(p: Problem, pt: Point, i: nat) {
    ExampleOk(p, i) && i < |pt.alpha| && |pt.w| == p.n
  }

  /** fabs(d) <= 1.0e-15: not worth an update. */
  predicate Tiny(d: real) {
    -0.000000000000001 <= d <= 0.000000000000001
  }

  /** An update would move example i. */
  ghost predicate Moves(p: Problem, pt: Point, i: nat) {
    HasExample(p, pt, i) && !Tiny(Target(p, pt.alpha, pt.w, i) - pt.alpha[i])
  }

  // ------------------------------------------------------- the best value of a coordinate

  ghost predicate Within(p: Problem, i: nat, a: real) {
    i < |p.upper| && 0.0 <= a && AtMost(a, p.upper[i])
  }

  /** The objective where example i has the value a, w follows, and all else stays. */
  ghost function Along(p: Problem, pt: Point, i: nat, a: real): real
    requires HasExample(p, pt, i) && |pt.alpha| == |p.diag|
  {
    Objective(p, pt.alpha[i := a], Added(pt.w, Mul(a - pt.alpha[i], p.y[i]), p.x[i]))
  }

  /** No other value within the bounds gives a lower objective. */
  ghost predicate BestAt(p: Problem, pt: Point, i: nat, a: real) {
    && HasExample(p, pt, i) && |pt.alpha| == |p.diag| && Within(p, i, a)
    && forall b: real {:trigger Along(p, pt, i, b)} :: Within(p, i, b) ==> Along(p, pt, i, a) <= Along(p, pt, i, b)
  }

  /** The step d for a gradient g and curvature q, against any other step e: the slope at its end never points to e. */
  lemma BestStep(d: real, e: real, g: real, q: real)
    requires q >= 0.0 && Mul(e - d, g + Mul(q, d)) >= 0.0
    ensures Mul(d, g) + Mul(Mul(d, d), q) / 2.0 <= Mul(e, g) + Mul(Mul(e, e), q) / 2.0
  {
    var f := e - d;
    MulPlus(f, g, Mul(q, d));
    MulPlus(g, d, f);
    MulPlus(d, d, f);
    MulPlus(f, d, f);
    MulPlus(e, d, f);
    MulCommutes(d, f);
    assert Mul(e, e) == Mul(d, d) + Mul(f, d) + Mul(f, d) + Mul(f, f);
    MulPlus(q, Mul(d, d) + Mul(f, d) + Mul(f, d), Mul(f, f));
    MulPlus(q, Mul(d, d) + Mul(f, d), Mul(f, d));
    MulPlus(q, Mul(d, d), Mul(f, d));
    assert Mul(f, Mul(q, d)) == Mul(Mul(f, d), q) by {
      MulCommutes(q, d);
      MulAssociates(f, d, q);
    }
    MulSign(f, f);
    MulSign(Mul(f, f), q);
  }

  /** The clamped Newton step ends where the slope is zero, or points out of the bounds. */
  lemma SlopeAtEnd(a: real, g: real, q: real, upper: Limit, b: real)
    requires q > 0.0 && 0.0 <= a && AtMost(a, upper) && 0.0 <= b && AtMost(b, upper)
    ensures var d := Clamp(a - Over(g, q), upper) - a;
      Mul((b - a) - d, g + Mul(q, d)) >= 0.0
  {
    var r := Over(g, q);
    var d := Clamp(a - r, upper) - a;
    var s := g + Mul(q, d);
    MulPlus(q, d, r);
    MulSign(q, d + r);
    MulSign(q, -(d + r));
    MulMinus(q, 0.0, d + r);
    MulZero(q);
    MulSign((b - a) - d, s);
    MulZero((b - a) - d);
  }

  lemma AlongIs(p: Problem, pt: Point, i: nat, b: real)
    requires HasExample(p, pt, i) && |pt.alpha| == |p.x| == |p.diag| && i < |p.x|
    ensures var e := b - pt.alpha[i];
      Along(p, pt, i, b) == Objective(p, pt.alpha, pt.w) + Mul(e, Gradient(p, pt.alpha, pt.w, i)) + Mul(Mul(e, e), Curvature(p, i)) / 2.0
  {
    var e := b - pt.alpha[i];
    assert pt.alpha[i] + e == b;
    StepObjective(p, pt.alpha, pt.w, i, e);
  }

  /** The slope where the target lies never points to another value within the bounds. */
  lemma SlopeAtTarget(p: Problem, pt: Point, i: nat, b: real)
    requires HasExample(p, pt, i) && FeasibleAt(p, pt.alpha, i) && Within(p, i, b)
    ensures var d, e := Target(p, pt.alpha, pt.w, i) - pt.alpha[i], b - pt.alpha[i];
      Mul(e - d, Gradient(p, pt.alpha, pt.w, i) + Mul(Curvature(p, i), d)) >= 0.0
  {
    var d, e := Target(p, pt.alpha, pt.w, i) - pt.alpha[i], b - pt.alpha[i];
    CurvatureSign(p, i);
    if Curvature(p, i) == 0.0 {
      FlatCoordinate(p, pt.alpha, pt.w, i);
      MulZero(d);
      MulIs(e - d, -1.0);
    } else {
      SlopeAtEnd(pt.alpha[i], Gradient(p, pt.alpha, pt.w, i), Curvature(p, i), p.upper[i], b);
    }
  }

  /** The target is the best value of the coordinate. */
  lemma TargetIsBest(p: Problem, pt: Point, i: nat)
    requires WellPosed(p) && HasExample(p, pt, i) && |pt.alpha| == |p.x| && i < |p.x| && FeasibleAt(p, pt.alpha, i)
    ensures BestAt(p, pt, i, Target(p, pt.alpha, pt.w, i))
  {
    var a := Target(p, pt.alpha, pt.w, i);
    TargetStep(p, pt.alpha, pt.w, i);
    AlongIs(p, pt, i, a);
    CurvatureSign(p, i);
    forall b: real | Within(p, i, b)
      ensures Along(p, pt, i, a) <= Along(p, pt, i, b)
    {
      AlongIs(p, pt, i, b);
      SlopeAtTarget(p, pt, i, b);
      BestStep(a - pt.alpha[i], b - pt.alpha[i], Gradient(p, pt.alpha, pt.w, i), Curvature(p, i));
    }
  }

  // ------------------------------------------------------------ updates, as a function

  /** The update of example i. */
  ghost function Updated(p: Problem, pt: Point, i: nat): Point {
    if Moves(p, pt, i) then
      var a := Target(p, pt.alpha, pt.w, i);
      Point(pt.alpha[i := a], Added(pt.w, Mul(a - pt.alpha[i], p.y[i]), p.x[i]))
    else pt
  }

  /**
    Where example i is after its update: at the best value of its coordinate, if that is further
    than 1e-15 from where it was, and otherwise where it was; no other example has changed.
  */
  lemma UpdatedIsBest(p: Problem, pt: Point, i: nat)
    requires PointOk(p, pt) && i < |p.x|
    ensures var pt' := Updated(p, pt, i);
      && pt'.alpha == pt.alpha[i := pt'.alpha[i]]
      && (Moves(p, pt, i) ==> BestAt(p, pt, i, pt'.alpha[i]) && !(-0.000000000000001 <= pt'.alpha[i] - pt.alpha[i] <= 0.000000000000001))
      && (!Moves(p, pt, i) ==> pt' == pt && SettledAt(p, pt, i))
  {
    assert ExampleOk(p, i) && FeasibleAt(p, pt.alpha, i);
    TargetIsBest(p, pt, i);
    if !Moves(p, pt, i) {
      assert BestFrom(p, pt, i, Target(p, pt.alpha, pt.w, i));
    }
  }

  ghost predicate BestFrom(p: Problem, pt: Point, i: nat, a: real) {
    BestAt(p, pt, i, a) && -0.000000000000001 <= a - pt.alpha[i] <= 0.000000000000001
  }

  /** Example i is within 1e-15 of the best value of its coordinate. */
  ghost predicate SettledAt(p: Problem, pt: Point, i: nat) {
    exists a: real :: BestFrom(p, pt, i, a)
  }

  /** An update stays feasible and coupled and does not raise the objective. */
  lemma UpdatedOk(p: Problem, pt: Point, i: nat)
    requires PointOk(p, pt) && i < |p.x|
    ensures PointOk(p, Updated(p, pt, i))
    ensures Objective(p, Updated(p, pt, i).alpha, Updated(p, pt, i).w) <= Objective(p, pt.alpha, pt.w)
  {
    assert ExampleOk(p, i);
    if Moves(p, pt, i) {
      StepKeeps(p, pt.alpha, pt.w, i, Target(p, pt.alpha, pt.w, i));
    }
  }

  // ------------------------------------------------------------------------ the solver

  class Solver {
    const p: Problem
    const qd: seq<real>
    const alpha: array<real>
    const w: array<real>

    ghost predicate Valid()
      reads this, alpha, w
    {
      && WellPosed(p) && w.Length == p.n && alpha.Length == |p.x| && alpha != w && |qd| == |p.x|
      && (forall i: nat :: i < |p.x| ==> ExampleOk(p, i) && qd[i] == Curvature(p, i))
      && Feasible(p, alpha[..]) && Coupled(p, alpha[..], w[..])
    }

    ghost function Value(): real
      requires Valid()
      reads this, alpha, w
    {
      Objective(p, alpha[..], w[..])
    }

    ghost function At(): Point
      reads this, alpha, w
    {
      Point(alpha[..], w[..])
    }

    /** alpha and w zero, QD the diagonal plus the squared norms. */
    constructor (p: Problem)
      requires WellPosed(p)
      ensures Valid() && this.p == p && fresh(alpha) && fresh(w) && At() == Zero(p) && Value() == 0.0
    {
      var d: seq<real> := [];
      for i := 0 to |p.x|
        invariant |d| == i && forall k: nat :: k < i ==> ExampleOk(p, k) && d[k] == Curvature(p, k)
      {
        assert ExampleOk(p, i);
        var norm := Nrm2Sq(p.x[i]);
        d := d + [p.diag[i] + norm];
      }
      this.p, qd := p, d;
      alpha := new real[|p.x|](i => 0.0);
      w := new real[p.n](k => 0.0);
      new;
      ZeroStart(p, alpha[..], w[..]);
    }

    /** The gradient y_i w x_i - 1 + alpha_i D_ii. */
    method GradientOf(i: nat) returns (g: real)
      requires Valid() && i < |p.x| && ExampleOk(p, i)
      ensures g == Gradient(p, alpha[..], w[..], i)
    {
      var dot := Dot(w, p.x[i]);
      MulIs(p.y[i], dot);
      MulIs(alpha[i], p.diag[i]);
      g := p.y[i] * dot - 1.0 + alpha[i] * p.diag[i];
    }

    /** The new value of coordinate i; G/QD[i] is negative and infinite where QD[i] is zero. */
    method TargetOf(i: nat) returns (alphaNew: real)
      requires Valid() && i < |p.x| && ExampleOk(p, i)
      ensures alphaNew == Target(p, alpha[..], w[..], i)
    {
      var g := GradientOf(i);
      if qd[i] == 0.0 {
        FlatCoordinate(p, alpha[..], w[..], i);
        alphaNew := p.upper[i].value;
      } else {
        CurvatureSign(p, i);
        OverIs(g, qd[i]);
        alphaNew := Clamp(alpha[i] - g / qd[i], p.upper[i]);
      }
    }

    /** One update: stays feasible and coupled, and the objective does not rise. */
    method UpdateOne(i: nat) returns (updated: bool)
      requires Valid() && i < |p.x| && ExampleOk(p, i)
      modifies alpha, w
      ensures Valid() && Value() <= old(Value())
      ensures At() == Updated(p, old(At()), i) && (updated <==> Moves(p, old(At()), i))
      ensures alpha[..] == old(alpha[..])[i := alpha[i]]
      ensures if updated then BestAt(p, old(At()), i, alpha[i]) else At() == old(At()) && SettledAt(p, old(At()), i)
    {
      ghost var before := At();
      UpdatedOk(p, before, i);
      UpdatedIsBest(p, before, i);
      var alphaNew := TargetOf(i);
      var d := alphaNew - alpha[i];
      updated := !Tiny(d);
      if updated {
        Move(i, alphaNew, d);
      }
    }

    /** alpha[i] takes its new value, and w its share of the step. */
    method Move(i: nat, alphaNew: real, d: real)
      requires i < alpha.Length && ExampleOk(p, i) && w.Length == p.n && alpha != w
      modifies alpha, w
      ensures At() == Point(old(alpha[..])[i := alphaNew], Added(old(w[..]), Mul(d, p.y[i]), p.x[i]))
    {
      ghost var before, wBefore := alpha[..], w[..];
      alpha[i] := alphaNew;
      assert alpha[..] == before[i := alphaNew] && w[..] == wBefore;
      MulIs(d, p.y[i]);
      Axpy(d * p.y[i], p.x[i], w);
      assert alpha[..] == before[i := alphaNew];
    }
  }

  /** alpha and w at the start. */
  ghost function Zero(p: Problem): Point {
    Point(seq(|p.x|, i => 0.0), seq(p.n, k => 0.0))
  }

  lemma StepFeasible(p: Problem, alpha: seq<real>, i: nat, a: real)
    requires Feasible(p, alpha) && i < |p.x| && i < |p.upper| && 0.0 <= a && AtMost(a, p.upper[i])
    ensures Feasible(p, alpha[i := a])
  {
    var alpha' := alpha[i := a];
    forall k: nat | k < |p.x|
      ensures FeasibleAt(p, alpha', k)
    {
      assert FeasibleAt(p, alpha, k);
    }
  }

  lemma ZeroStart(p: Problem, alpha: seq<real>, w: seq<real>)
    requires WellPosed(p) && |alpha| == |p.x| && |w| == p.n
    requires (forall i :: 0 <= i < |alpha| ==> alpha[i] == 0.0) && forall k :: 0 <= k < |w| ==> w[k] == 0.0
    ensures Feasible(p, alpha) && Coupled(p, alpha, w) && Objective(p, alpha, w) == 0.0
  {
    forall i: nat | i < |p.x|
      ensures FeasibleAt(p, alpha, i) && Diagonal(p, alpha)[i] == 0.0
    {
      assert ExampleOk(p, i);
      MulZero(0.0);
      MulZero(p.diag[i]);
    }
    forall k: nat | k < |w|
      ensures Squares(w)[k] == 0.0
    {
      MulZero(0.0);
    }
    SumZeros(alpha);
    SumZeros(Diagonal(p, alpha));
    SumZeros(Squares(w));
    forall i: nat | i < |p.x|
      ensures Signed(p, alpha)[i] == 0.0
    {
      MulZero(p.y[i]);
    }
    CombinesZero(p.x, Signed(p, alpha), w);
  }
}
