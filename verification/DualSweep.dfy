/**
  The sweeps of the dual solver (trident-workloads/liblinear/linear.cpp, solve_l2r_l1l2_svc):
  a shuffle, then blocks of candidates; examples whose gradient says that they stay at their
  bound are rotated out of the active part of the index.
*/
module DualSweep {
  import opened Reals
  import opened SparseVectors
  import opened DualSVC
  import opened Permutations

  // ----------------------------------------------------------------------- the index

  /** The example at a goes to c, the one at b to a, the one at c to b. */
  function Rotated(idx: seq<nat>, a: nat, b: nat, c: nat): seq<nat>
    requires a <= b <= c < |idx|
  {
    if b == c then idx[a := idx[c]][c := idx[a]]
    else if a == b then idx[c := idx[a]][a := idx[c]]
    else idx[c := idx[a]][a := idx[b]][b := idx[c]]
  }

  lemma RotatedPermutation(idx: seq<nat>, l: nat, a: nat, b: nat, c: nat)
    requires Permutation(idx, l) && a <= b <= c < l
    ensures Permutation(Rotated(idx, a, b, c), l)
  {
    MovedPermutation(idx, l, Rotated(idx, a, b, c), Rotated(Places(l), a, b, c));
  }

  ghost predicate MovedAt(idx: seq<nat>, idx': seq<nat>, a: nat, b: nat, c: nat, q: nat) {
    && a <= b <= c < |idx| && |idx'| == |idx| && q < |idx|
    && idx'[q] == if q == c then idx[a] else if q == b then idx[c] else if q == a then idx[b] else idx[q]
  }

  /** The rotation, position by position. */
  ghost predicate Moved(idx: seq<nat>, idx': seq<nat>, a: nat, b: nat, c: nat) {
    forall q: nat {:trigger MovedAt(idx, idx', a, b, c, q)} :: q < |idx| ==> MovedAt(idx, idx', a, b, c, q)
  }

  lemma RotatedMoves(idx: seq<nat>, a: nat, b: nat, c: nat)
    requires a <= b <= c < |idx|
    ensures Moved(idx, Rotated(idx, a, b, c), a, b, c)
  {
    var idx' := Rotated(idx, a, b, c);
    forall q: nat | q < |idx|
      ensures MovedAt(idx, idx', a, b, c, q)
    {
    }
  }

  lemma ThreeParts(x: nat, p: seq<nat>, y: nat, q: seq<nat>, z: nat)
    ensures multiset([x] + p + [y] + q + [z]) == multiset([y] + p + [z] + q) + multiset{x}
  {
  }

  /** What stays active is what was, less the example rotated out. */
  lemma RotatedRest(idx: seq<nat>, a: nat, b: nat, c: nat)
    requires a <= b <= c < |idx|
    ensures multiset(idx[a..c + 1]) == multiset(Rotated(idx, a, b, c)[a..c]) + multiset{idx[a]}
  {
    if a == c {
      assert idx[a..c + 1] == [idx[a]];
    } else if a == b || b == c {
      RotatedTwo(idx, a, b, c);
    } else {
      RotatedThree(idx, a, b, c);
    }
  }

  lemma RotatedTwo(idx: seq<nat>, a: nat, b: nat, c: nat)
    requires a < c < |idx| && (b == a || b == c)
    ensures multiset(idx[a..c + 1]) == multiset(Rotated(idx, a, b, c)[a..c]) + multiset{idx[a]}
  {
    assert idx[a..c + 1] == [idx[a]] + idx[a + 1..c] + [idx[c]];
    assert Rotated(idx, a, b, c)[a..c] == [idx[c]] + idx[a + 1..c];
    TwoParts(idx[a], idx[a + 1..c], idx[c]);
  }

  lemma RotatedThree(idx: seq<nat>, a: nat, b: nat, c: nat)
    requires a < b < c < |idx|
    ensures multiset(idx[a..c + 1]) == multiset(Rotated(idx, a, b, c)[a..c]) + multiset{idx[a]}
  {
    assert idx[a..c + 1] == [idx[a]] + idx[a + 1..b] + [idx[b]] + idx[b + 1..c] + [idx[c]];
    assert Rotated(idx, a, b, c)[a..c] == [idx[b]] + idx[a + 1..b] + [idx[c]] + idx[b + 1..c];
    ThreeParts(idx[a], idx[a + 1..b], idx[b], idx[b + 1..c], idx[c]);
  }

  // ------------------------------------------------------------- one block of candidates

  /** The bound the example sits at. */
  ghost predicate AtBound(p: Problem, alpha: seq<real>, i: nat) {
    i < |alpha| && i < |p.upper| && (alpha[i] == 0.0 || p.upper[i] == Finite(alpha[i]))
  }

  predicate Above(x: real, limit: Limit) {
    limit.Finite? && x > limit.value
  }

  predicate Under(x: real, limit: Limit) {
    limit.Finite? && x < limit.value
  }

  /** alpha can still move against the gradient without leaving its bounds. */
  predicate Movable(alpha: real, upper: Limit, grad: real) {
    (grad < 0.0 && (upper.Infinite? || alpha < upper.value)) || (grad > 0.0 && alpha > 0.0)
  }

  function Projected(alpha: real, upper: Limit, grad: real): real {
    if Movable(alpha, upper, grad) then grad else 0.0
  }

  /** The projected gradient is zero exactly where no step against the gradient leads elsewhere. */
  lemma ProjectedIs(alpha: real, upper: Limit, grad: real, t: real)
    requires 0.0 <= alpha && AtMost(alpha, upper) && t > 0.0
    ensures Projected(alpha, upper, grad) == 0.0 <==> Clamp(alpha - Mul(t, grad), upper) == alpha
  {
    MulSign(t, grad);
    MulSign(t, -grad);
    MulMinus(t, 0.0, grad);
    MulZero(t);
  }

  datatype Decision = Keep(pg: real) | Drop

  /** At zero, with a gradient above the threshold. */
  predicate Pressed(alpha: real, grad: real, pgMaxOld: Limit) {
    alpha == 0.0 && pgMaxOld.Finite? && grad > pgMaxOld.value
  }

  /** At the upper bound, with a gradient below the threshold. */
  predicate PressedUp(alpha: real, upper: Limit, grad: real, pgMinOld: Limit) {
    upper == Finite(alpha) && pgMinOld.Finite? && grad < pgMinOld.value
  }

  /** The projected gradient of an example, or that it leaves the active set. */
  function Decide(alpha: real, upper: Limit, grad: real, pgMaxOld: Limit, pgMinOld: Limit): (d: Decision)
    ensures d.Keep? ==> d.pg == Projected(alpha, upper, grad)
    ensures d.Drop? ==> Projected(alpha, upper, grad) == 0.0
    ensures d.Drop? <==> !Movable(alpha, upper, grad) && (Pressed(alpha, grad, pgMaxOld) || PressedUp(alpha, upper, grad, pgMinOld))
  {
    if ((upper.Infinite? || alpha < upper.value) && grad < 0.0) || (alpha > 0.0 && grad > 0.0) then Keep(grad)
    else if (alpha == 0.0 && Above(grad, pgMaxOld)) || (upper == Finite(alpha) && Under(grad, pgMinOld)) then Drop
    else Keep(0.0)
  }

  /** One look at an example, and what was decided. */
  datatype Look = Look(i: nat, decision: Decision)

  ghost predicate LookOk(p: Problem, pt: Point, pgMaxOld: Limit, pgMinOld: Limit, look: Look) {
    && HasExample(p, pt, look.i)
    && look.decision == Decide(pt.alpha[look.i], p.upper[look.i], Gradient(p, pt.alpha, pt.w, look.i), pgMaxOld, pgMinOld)
  }

  ghost predicate LooksOk(p: Problem, pt: Point, pgMaxOld: Limit, pgMinOld: Limit, looks: seq<Look>) {
    forall k {:trigger LookOk(p, pt, pgMaxOld, pgMinOld, looks[k])} :: 0 <= k < |looks| ==> LookOk(p, pt, pgMaxOld, pgMinOld, looks[k])
  }

  ghost function Names(looks: seq<Look>): seq<nat> {
    seq(|looks|, k requires 0 <= k < |looks| => looks[k].i)
  }

  /** The examples that were kept, in the order of the looks. */
  ghost function Kept(looks: seq<Look>): (kept: seq<nat>)
    ensures |kept| <= |looks|
  {
    if looks == [] then []
    else Kept(looks[..|looks| - 1]) + if looks[|looks| - 1].decision.Keep? then [looks[|looks| - 1].i] else []
  }

  predicate Large(pg: real, tolerance: real) {
    pg >= tolerance || pg <= -tolerance
  }

  predicate Picked(look: Look, tolerance: real) {
    look.decision.Keep? && Large(look.decision.pg, tolerance)
  }

  /** The examples chosen for an update: the working set. */
  ghost function Chosen(looks: seq<Look>, tolerance: real): (chosen: seq<nat>)
    ensures |chosen| <= |looks|
  {
    if looks == [] then []
    else Chosen(looks[..|looks| - 1], tolerance) + if Picked(looks[|looks| - 1], tolerance) then [looks[|looks| - 1].i] else []
  }

  lemma {:induction false} KeptAndChosen(looks: seq<Look>, tolerance: real)
    ensures forall i :: i in Kept(looks) <==> exists k :: 0 <= k < |looks| && looks[k].i == i && looks[k].decision.Keep?
    ensures forall i :: i in Chosen(looks, tolerance) <==> exists k :: 0 <= k < |looks| && looks[k].i == i && Picked(looks[k], tolerance)
    ensures forall k :: 0 <= k < |looks| ==>
      (Picked(looks[k], tolerance) <==> looks[k].decision.Keep? && (looks[k].decision.pg >= tolerance || looks[k].decision.pg <= -tolerance))
  {
    if looks != [] {
      var m := |looks| - 1;
      var before := looks[..m];
      KeptAndChosen(before, tolerance);
      forall i
        ensures i in Kept(looks) <==> exists k :: 0 <= k < |looks| && looks[k].i == i && looks[k].decision.Keep?
        ensures i in Chosen(looks, tolerance) <==> exists k :: 0 <= k < |looks| && looks[k].i == i && Picked(looks[k], tolerance)
      {
        assert forall k :: 0 <= k < m ==> before[k] == looks[k];
        assert (exists k :: 0 <= k < |looks| && looks[k].i == i && looks[k].decision.Keep?) <==>
          (exists k :: 0 <= k < m && before[k].i == i && before[k].decision.Keep?) || (looks[m].i == i && looks[m].decision.Keep?);
        assert (exists k :: 0 <= k < |looks| && looks[k].i == i && Picked(looks[k], tolerance)) <==>
          (exists k :: 0 <= k < m && before[k].i == i && Picked(before[k], tolerance)) || (looks[m].i == i && Picked(looks[m], tolerance));
      }
    }
  }

  lemma {:induction false} KeptConcat(a: seq<Look>, b: seq<Look>)
    ensures Kept(a + b) == Kept(a) + Kept(b)
    decreases |b|
  {
    if b == [] {
      assert a + b == a;
    } else {
      var m := |b| - 1;
      KeptConcat(a, b[..m]);
      assert (a + b)[..|a| + m] == a + b[..m];
    }
  }

  /** PGmax_new after these looks; Infinite stands for -INF. */
  ghost function Highest(looks: seq<Look>): Limit {
    if looks == [] then Infinite
    else
      var before := Highest(looks[..|looks| - 1]);
      match looks[|looks| - 1].decision
      case Keep(pg) => Larger(before, pg)
      case Drop => before
  }

  /** PGmin_new after these looks; Infinite stands for INF. */
  ghost function Lowest(looks: seq<Look>): Limit {
    if looks == [] then Infinite
    else
      var before := Lowest(looks[..|looks| - 1]);
      match looks[|looks| - 1].decision
      case Keep(pg) => Smaller(before, pg)
      case Drop => before
  }

  /** They are the largest and the smallest projected gradient of the examples that were kept. */
  lemma {:induction false} ExtremesAre(looks: seq<Look>)
    ensures Highest(looks).Infinite? <==> Lowest(looks).Infinite?
    ensures Highest(looks).Infinite? <==> forall k :: 0 <= k < |looks| ==> looks[k].decision.Drop?
    ensures Highest(looks).Finite? ==> exists k :: 0 <= k < |looks| && looks[k].decision == Keep(Highest(looks).value)
    ensures Lowest(looks).Finite? ==> exists k :: 0 <= k < |looks| && looks[k].decision == Keep(Lowest(looks).value)
    ensures forall k :: 0 <= k < |looks| && looks[k].decision.Keep? && Highest(looks).Finite? && Lowest(looks).Finite? ==>
      Lowest(looks).value <= looks[k].decision.pg <= Highest(looks).value
  {
    if looks != [] {
      var m := |looks| - 1;
      var before := looks[..m];
      ExtremesAre(before);
      assert forall k :: 0 <= k < m ==> before[k] == looks[k];
      if looks[m].decision.Drop? && Highest(before).Finite? {
        var h :| 0 <= h < m && before[h].decision == Keep(Highest(before).value);
        var l :| 0 <= l < m && before[l].decision == Keep(Lowest(before).value);
        assert looks[h].decision == Keep(Highest(looks).value) && looks[l].decision == Keep(Lowest(looks).value);
      } else if looks[m].decision.Keep? && Highest(before).Finite? {
        var h :| 0 <= h < m && before[h].decision == Keep(Highest(before).value);
        var l :| 0 <= l < m && before[l].decision == Keep(Lowest(before).value);
        assert looks[h].decision == Keep(Highest(before).value) && looks[l].decision == Keep(Lowest(before).value);
      }
    }
  }

  lemma NextLook(looks: seq<Look>, look: Look)
    ensures Names(looks + [look]) == Names(looks) + [look.i]
    ensures Kept(looks + [look]) == Kept(looks) + if look.decision.Keep? then [look.i] else []
    ensures look.decision.Drop? ==> Highest(looks + [look]) == Highest(looks) && Lowest(looks + [look]) == Lowest(looks)
    ensures look.decision.Keep? ==>
      Highest(looks + [look]) == Larger(Highest(looks), look.decision.pg) && Lowest(looks + [look]) == Smaller(Lowest(looks), look.decision.pg)
  {
    assert (looks + [look])[..|looks|] == looks;
  }

  ghost predicate InStepAt(grads: seq<real>, truth: seq<real>, idx: seq<nat>, t: nat, q: nat) {
    q < |grads| && t + q < |idx| && idx[t + q] < |truth| && grads[q] == truth[idx[t + q]]
  }

  /** Positions s .. send of the block hold the gradients of the examples that stand there. */
  ghost predicate InStep(grads: seq<real>, truth: seq<real>, idx: seq<nat>, t: nat, s: nat, send: nat) {
    forall q: nat {:trigger InStepAt(grads, truth, idx, t, q)} :: s <= q < send ==> InStepAt(grads, truth, idx, t, q)
  }

  ghost predicate BoundAt(p: Problem, alpha: seq<real>, idx: seq<nat>, q: nat) {
    q < |idx| && AtBound(p, alpha, idx[q])
  }

  ghost predicate AllAtBound(p: Problem, alpha: seq<real>, idx: seq<nat>, from: nat, to: nat) {
    forall q: nat {:trigger BoundAt(p, alpha, idx, q)} :: from <= q < to ==> BoundAt(p, alpha, idx, q)
  }

  lemma MovedInStep(grads: seq<real>, truth: seq<real>, idx: seq<nat>, idx': seq<nat>, t: nat, s: nat, send: nat, c: nat)
    requires InStep(grads, truth, idx, t, s, send + 1) && s <= send < |grads| && t + send <= c < |idx| && |idx'| == |idx|
    requires Moved(idx, idx', t + s, t + send, c)
    ensures InStep(grads[s := grads[send]], truth, idx', t, s, send)
  {
    var grads' := grads[s := grads[send]];
    forall q: nat | s <= q < send
      ensures InStepAt(grads', truth, idx', t, q)
    {
      assert MovedAt(idx, idx', t + s, t + send, c, t + q);
      assert InStepAt(grads, truth, idx, t, if q == s then send else q);
    }
  }

  lemma MovedBounds(p: Problem, alpha: seq<real>, idx: seq<nat>, idx': seq<nat>, a: nat, b: nat, c: nat, to: nat)
    requires AllAtBound(p, alpha, idx, c + 1, to) && a <= b <= c < to <= |idx| && AtBound(p, alpha, idx[a]) && Moved(idx, idx', a, b, c)
    ensures AllAtBound(p, alpha, idx', c, to)
  {
    forall q: nat | c <= q < to
      ensures BoundAt(p, alpha, idx', q)
    {
      assert MovedAt(idx, idx', a, b, c, q);
      assert q > c ==> BoundAt(p, alpha, idx, q);
    }
  }

  /** Outside the block and the rest of the active part nothing has moved. */
  ghost predicate Framed(start: seq<nat>, idx: seq<nat>, t: nat, active0: nat) {
    && |idx| == |start| && t <= active0 <= |start|
    && forall q: nat {:trigger FramedAt(start, idx, q)} :: q < t || active0 <= q < |start| ==> FramedAt(start, idx, q)
  }

  ghost predicate FramedAt(start: seq<nat>, idx: seq<nat>, q: nat) {
    q < |start| && q < |idx| && idx[q] == start[q]
  }

  ghost predicate LinedAt(idx: seq<nat>, t: nat, kept: seq<nat>, q: nat) {
    q < |kept| && t + q < |idx| && idx[t + q] == kept[q]
  }

  /** From position t on stand the examples kept, in their order. */
  ghost predicate Lined(idx: seq<nat>, t: nat, kept: seq<nat>) {
    forall q: nat {:trigger LinedAt(idx, t, kept, q)} :: q < |kept| ==> LinedAt(idx, t, kept, q)
  }

  lemma LinedMore(idx: seq<nat>, t: nat, kept: seq<nat>, more: seq<nat>)
    requires Lined(idx, t, kept) && Lined(idx, t + |kept|, more)
    ensures Lined(idx, t, kept + more)
  {
    var all := kept + more;
    forall q: nat | q < |all|
      ensures LinedAt(idx, t, all, q)
    {
      if q < |kept| {
        assert LinedAt(idx, t, kept, q);
      } else {
        assert LinedAt(idx, t + |kept|, more, q - |kept|);
      }
    }
  }

  lemma LinedStill(idx: seq<nat>, idx': seq<nat>, t: nat, kept: seq<nat>)
    requires Lined(idx, t, kept) && t + |kept| <= |idx| == |idx'| && forall q :: t <= q < t + |kept| ==> idx'[q] == idx[q]
    ensures Lined(idx', t, kept)
  {
    forall q: nat | q < |kept|
      ensures LinedAt(idx', t, kept, q)
    {
      assert LinedAt(idx, t, kept, q);
    }
  }

  lemma LinedIs(idx: seq<nat>, t: nat, kept: seq<nat>)
    requires Lined(idx, t, kept) && t + |kept| <= |idx|
    ensures idx[t..t + |kept|] == kept
  {
    forall q: nat | q < |kept|
      ensures idx[t..t + |kept|][q] == kept[q]
    {
      assert LinedAt(idx, t, kept, q);
    }
  }

  /** What a block is scanned with: the state, the thresholds, and where it lies in the index. */
  datatype Block = Block(p: Problem, pt: Point, pgMaxOld: Limit, pgMinOld: Limit, tolerance: real, start: seq<nat>, t: nat, active0: nat)

  /** What the scan has done so far: the examples kept stand in their order, those dropped at their bounds. */
  ghost predicate Scanning(b: Block, idx: seq<nat>, kept: seq<nat>, send: nat, active: nat, names: seq<nat>) {
    && Permutation(idx, |b.start|) && |kept| <= send && b.t + send <= active <= b.active0 <= |b.start|
    && Framed(b.start, idx, b.t, b.active0) && Accounted(b.start, idx, b.t, b.t + |kept|, active, b.active0, names)
    && AllAtBound(b.p, b.pt.alpha, idx, active, |b.start|) && Lined(idx, b.t, kept)
  }

  lemma OneMoreLook(p: Problem, pt: Point, pgMaxOld: Limit, pgMinOld: Limit, looks: seq<Look>, look: Look)
    requires LooksOk(p, pt, pgMaxOld, pgMinOld, looks) && LookOk(p, pt, pgMaxOld, pgMinOld, look)
    ensures LooksOk(p, pt, pgMaxOld, pgMinOld, looks + [look])
  {
    var looks' := looks + [look];
    forall k | 0 <= k < |looks'|
      ensures LookOk(p, pt, pgMaxOld, pgMinOld, looks'[k])
    {
      assert k < |looks| ==> LookOk(p, pt, pgMaxOld, pgMinOld, looks[k]);
    }
  }

  lemma KeepOne(b: Block, idx: seq<nat>, kept: seq<nat>, send: nat, active: nat, names: seq<nat>, i: nat)
    requires Scanning(b, idx, kept, send, active, names) && |kept| < send && i == idx[b.t + |kept|]
    ensures Scanning(b, idx, kept + [i], send, active, names + [i])
  {
    var x := b.t + |kept|;
    NextRest(idx, x, active);
    AccountedMove(b.start, idx, idx, b.t, x, x + 1, active, active, b.active0, names, i);
    assert LinedAt(idx, x, [i], 0);
    LinedMore(idx, b.t, kept, [i]);
  }

  lemma FramedDrop(start: seq<nat>, idx: seq<nat>, idx': seq<nat>, t: nat, active0: nat, a: nat, b: nat, c: nat)
    requires Framed(start, idx, t, active0) && t <= a <= b <= c < active0 && Moved(idx, idx', a, b, c) && |idx'| == |idx|
    ensures Framed(start, idx', t, active0) && forall q :: 0 <= q < a ==> idx'[q] == idx[q]
  {
    forall q: nat | q < |idx| && (q < a || q >= active0)
      ensures idx'[q] == idx[q] && (q < t || q >= active0 ==> FramedAt(start, idx', q))
    {
      assert MovedAt(idx, idx', a, b, c, q);
      assert q < t || q >= active0 ==> FramedAt(start, idx, q);
    }
  }

  lemma DropOne(b: Block, idx: seq<nat>, idx': seq<nat>, kept: seq<nat>, send: nat, active: nat, names: seq<nat>, i: nat)
    requires Scanning(b, idx, kept, send + 1, active + 1, names) && |kept| <= send && i == idx[b.t + |kept|] && AtBound(b.p, b.pt.alpha, i)
    requires Moved(idx, idx', b.t + |kept|, b.t + send, active) && Permutation(idx', |b.start|)
    requires Accounted(b.start, idx', b.t, b.t + |kept|, active, b.active0, names + [i])
    ensures Scanning(b, idx', kept, send, active, names + [i])
  {
    var x, y := b.t + |kept|, b.t + send;
    FramedDrop(b.start, idx, idx', b.t, b.active0, x, y, active);
    MovedBounds(b.p, b.pt.alpha, idx, idx', x, y, active, |b.start|);
    LinedStill(idx, idx', b.t, kept);
  }

  ghost predicate Gradients(p: Problem, pt: Point, truth: seq<real>) {
    && |truth| == |p.x| == |pt.alpha| && |pt.w| == p.n
    && forall i: nat {:trigger truth[i]} :: i < |truth| ==> ExampleOk(p, i) && truth[i] == Gradient(p, pt.alpha, pt.w, i)
  }

  lemma GradientsExist(p: Problem, pt: Point) returns (truth: seq<real>)
    requires WellPosed(p) && |pt.alpha| == |p.x| && |pt.w| == p.n
    ensures Gradients(p, pt, truth)
  {
    assert forall i: nat :: i < |p.x| ==> ExampleOk(p, i);
    truth := seq(|p.x|, i requires 0 <= i < |p.x| && ExampleOk(p, i) => Gradient(p, pt.alpha, pt.w, i));
  }

  /** Gradients of the examples of a block. */
  method BlockGradients(solver: Solver, index: array<nat>, t: nat, send: nat, ghost truth: seq<real>) returns (grads: array<real>)
    requires solver.Valid() && Permutation(index[..], index.Length) && index.Length == |solver.p.x| && t + send <= index.Length
    requires Gradients(solver.p, solver.At(), truth)
    ensures fresh(grads) && grads.Length == send && InStep(grads[..], truth, index[..], t, 0, send)
  {
    grads := new real[send](q => 0.0);
    for s := 0 to send
      invariant InStep(grads[..], truth, index[..], t, 0, s)
    {
      assert ExampleOk(solver.p, index[t + s]);
      var g := solver.GradientOf(index[t + s]);
      ghost var before := grads[..];
      grads[s] := g;
      forall q: nat | q < s + 1
        ensures InStepAt(grads[..], truth, index[..], t, q)
      {
        assert q < s ==> InStepAt(before, truth, index[..], t, q);
      }
    }
  }

  /** b describes the block at t in the solver's present state. */
  ghost predicate BlockOf(b: Block, solver: Solver, index: array<nat>)
    reads solver, solver.alpha, solver.w, index
  {
    && b.p == solver.p && b.pt == solver.At() && b.start == index[..]
    && Permutation(b.start, |b.start|) && |b.start| == |b.p.x| && AllAtBound(b.p, b.pt.alpha, b.start, b.active0, |b.start|)
  }

  lemma ScanStart(b: Block, send: nat)
    requires Permutation(b.start, |b.start|) && b.t + send <= b.active0 <= |b.start| && AllAtBound(b.p, b.pt.alpha, b.start, b.active0, |b.start|)
    ensures Scanning(b, b.start, [], send, b.active0, [])
  {
    AccountedStart(b.start, b.t, b.active0);
  }

  /** The look at the next position: the example is kept or dropped. */
  method LookAt(ghost b: Block, upper: seq<Limit>, alpha: array<real>, index: array<nat>, grads: array<real>,
                pgMaxOld: Limit, pgMinOld: Limit, t: nat, s: nat, send: nat, active: nat, ghost kept: seq<nat>, ghost names: seq<nat>, ghost truth: seq<real>)
    returns (look: Look)
    requires upper == b.p.upper && alpha[..] == b.pt.alpha && (pgMaxOld, pgMinOld, t) == (b.pgMaxOld, b.pgMinOld, b.t) && s == |kept|
    requires s < send <= grads.Length && t + send <= active <= index.Length && Gradients(b.p, b.pt, truth) && alpha != grads
    requires Scanning(b, index[..], kept, send, active, names) && InStep(grads[..], truth, index[..], t, s, send)
    modifies index, grads
    ensures LookOk(b.p, b.pt, b.pgMaxOld, b.pgMinOld, look)
    ensures look.decision.Keep? ==>
      Scanning(b, index[..], kept + [look.i], send, active, names + [look.i]) && InStep(grads[..], truth, index[..], t, s + 1, send)
    ensures look.decision.Drop? ==>
      Scanning(b, index[..], kept, send - 1, active - 1, names + [look.i]) && InStep(grads[..], truth, index[..], t, s, send - 1)
  {
    var i := index[t + s];
    assert InStepAt(grads[..], truth, index[..], t, s);
    look := Look(i, Decide(alpha[i], upper[i], grads[s], pgMaxOld, pgMinOld));
    if look.decision.Drop? {
      DropExample(b, index, grads, t, s, send - 1, active - 1, kept, names, i, truth);
    } else {
      KeepOne(b, index[..], kept, send, active, names, i);
    }
  }

  /**
    The scan of a block: looks at its examples once each, sorts out those that stay at their
    bound, chooses the ones to update, and brings PGmax_new and PGmin_new up to date.
  */
  method ScanBlock(ghost b: Block, solver: Solver, index: array<nat>, t: nat, send0: nat, active0: nat,
                   pgMaxOld: Limit, pgMinOld: Limit, tolerance: real, pgMax0: Limit, pgMin0: Limit, ghost earlier: seq<Look>)
    returns (send: nat, active: nat, working: seq<nat>, pgMax: Limit, pgMin: Limit, ghost kept: seq<nat>, ghost names: seq<nat>, ghost looks: seq<Look>)
    requires solver.Valid() && BlockOf(b, solver, index) && (tolerance, pgMaxOld, pgMinOld, t, active0) == (b.tolerance, b.pgMaxOld, b.pgMinOld, b.t, b.active0)
    requires t + send0 <= active0 <= index.Length && pgMax0 == Highest(earlier) && pgMin0 == Lowest(earlier)
    modifies index
    ensures Scanning(b, index[..], kept, send, active, names) && send == |kept| && |looks| == send0
    ensures Recorded(b, kept, names, working, pgMax, pgMin, earlier, looks)
  {
    ghost var truth := GradientsExist(b.p, b.pt);
    var grads := BlockGradients(solver, index, t, send0, truth);
    ScanStart(b, send0);
    send, active, working, pgMax, pgMin, kept, names, looks :=
      ScanLoop(b, solver.p.upper, solver.alpha, index, grads, t, send0, active0, pgMaxOld, pgMinOld, tolerance, pgMax0, pgMin0, earlier, truth);
  }

  ghost predicate Tracked(earlier: seq<Look>, looks: seq<Look>, pgMax: Limit, pgMin: Limit) {
    pgMax == Highest(earlier + looks) && pgMin == Lowest(earlier + looks)
  }

  lemma RecordStart(b: Block, earlier: seq<Look>, pgMax: Limit, pgMin: Limit)
    requires pgMax == Highest(earlier) && pgMin == Lowest(earlier)
    ensures Recorded(b, [], [], [], pgMax, pgMin, earlier, [])
  {
    assert earlier + [] == earlier && Names([]) == [];
  }

  /** What one more look adds to the record of a block. */
  lemma TrackLook(b: Block, kept: seq<nat>, names: seq<nat>, working: seq<nat>, pgMax: Limit, pgMin: Limit,
                  earlier: seq<Look>, looks: seq<Look>, look: Look)
    requires Recorded(b, kept, names, working, pgMax, pgMin, earlier, looks) && LookOk(b.p, b.pt, b.pgMaxOld, b.pgMinOld, look)
    ensures look.decision.Drop? ==> Recorded(b, kept, names + [look.i], working, pgMax, pgMin, earlier, looks + [look])
    ensures look.decision.Keep? ==>
      Recorded(b, kept + [look.i], names + [look.i], if Large(look.decision.pg, b.tolerance) then working + [look.i] else working,
               Larger(pgMax, look.decision.pg), Smaller(pgMin, look.decision.pg), earlier, looks + [look])
  {
    NextLook(earlier + looks, look);
    NextLook(looks, look);
    OneMoreLook(b.p, b.pt, b.pgMaxOld, b.pgMinOld, looks, look);
    assert earlier + looks + [look] == earlier + (looks + [look]);
    assert (looks + [look])[..|looks|] == looks;
  }

  /** The results of the looks so far. */
  ghost predicate Recorded(b: Block, kept: seq<nat>, names: seq<nat>, working: seq<nat>, pgMax: Limit, pgMin: Limit, earlier: seq<Look>, looks: seq<Look>) {
    && kept == Kept(looks) && names == Names(looks) && working == Chosen(looks, b.tolerance)
    && Tracked(earlier, looks, pgMax, pgMin) && LooksOk(b.p, b.pt, b.pgMaxOld, b.pgMinOld, looks)
  }

  method ScanLoop(ghost b: Block, upper: seq<Limit>, alpha: array<real>, index: array<nat>, grads: array<real>, t: nat, send0: nat, active0: nat,
                  pgMaxOld: Limit, pgMinOld: Limit, tolerance: real, pgMax0: Limit, pgMin0: Limit, ghost earlier: seq<Look>, ghost truth: seq<real>)
    returns (send: nat, active: nat, working: seq<nat>, pgMax: Limit, pgMin: Limit, ghost kept: seq<nat>, ghost names: seq<nat>, ghost looks: seq<Look>)
    requires upper == b.p.upper && alpha[..] == b.pt.alpha && (pgMaxOld, pgMinOld, t, tolerance, active0) == (b.pgMaxOld, b.pgMinOld, b.t, b.tolerance, b.active0)
    requires Gradients(b.p, b.pt, truth) && alpha != grads && send0 == grads.Length && index.Length == |b.start|
    requires Scanning(b, index[..], [], send0, active0, []) && InStep(grads[..], truth, index[..], t, 0, send0)
    requires pgMax0 == Highest(earlier) && pgMin0 == Lowest(earlier)
    modifies index, grads
    ensures Scanning(b, index[..], kept, send, active, names) && send == |kept| && |looks| == send0
    ensures Recorded(b, kept, names, working, pgMax, pgMin, earlier, looks)
  {
    send, active, working, looks, kept, names := send0, active0, [], [], [], [];
    pgMax, pgMin := pgMax0, pgMin0;
    RecordStart(b, earlier, pgMax, pgMin);
    var s: nat := 0;
    while s < send
      invariant Scanning(b, index[..], kept, send, active, names) && s == |kept| && InStep(grads[..], truth, index[..], t, s, send)
      invariant Recorded(b, kept, names, working, pgMax, pgMin, earlier, looks)
      invariant |looks| + send - s == send0 && s <= send <= send0
      decreases send - s
    {
      var look := LookAt(b, upper, alpha, index, grads, pgMaxOld, pgMinOld, t, s, send, active, kept, names, truth);
      TrackLook(b, kept, names, working, pgMax, pgMin, earlier, looks, look);
      looks, names := looks + [look], names + [look.i];
      if look.decision.Drop? {
        active, send := active - 1, send - 1;
      } else {
        pgMax, pgMin := Larger(pgMax, look.decision.pg), Smaller(pgMin, look.decision.pg);
        working := if Large(look.decision.pg, tolerance) then working + [look.i] else working;
        kept, s := kept + [look.i], s + 1;
      }
    }
  }

  /** The example i at position s of the block leaves the active set; the last of the block takes its place and gradient. */
  method DropExample(ghost b: Block, index: array<nat>, grads: array<real>, t: nat, s: nat, send: nat, active: nat,
                     ghost kept: seq<nat>, ghost names: seq<nat>, i: nat, ghost truth: seq<real>)
    requires s <= send < grads.Length && t == b.t && t + send <= active < index.Length && s == |kept|
    requires Scanning(b, index[..], kept, send + 1, active + 1, names) && i == index[t + s] && AtBound(b.p, b.pt.alpha, i)
    requires InStep(grads[..], truth, index[..], t, s, send + 1)
    modifies index, grads
    ensures Scanning(b, index[..], kept, send, active, names + [i]) && InStep(grads[..], truth, index[..], t, s, send)
  {
    ghost var idx, gs := index[..], grads[..];
    Rotate(index, t + s, t + send, active);
    AccountedMove(b.start, idx, index[..], t, t + s, t + s, active + 1, active, b.active0, names, i);
    DropOne(b, idx, index[..], kept, send, active, names, i);
    MovedInStep(gs, truth, idx, index[..], t, s, send, active);
    grads[s] := grads[send];
    assert grads[..] == gs[s := gs[send]];
  }

  /** The exchange of two or three positions, as the source writes it. */
  method Exchange(index: array<nat>, a: nat, b: nat, c: nat)
    requires a <= b <= c < index.Length
    modifies index
    ensures index[..] == Rotated(old(index[..]), a, b, c)
  {
    if b == c {
      index[a], index[b] := index[b], index[a];
    } else {
      var r := index[c];
      index[c] := index[a];
      index[a] := index[b];
      index[b] := r;
    }
  }

  method Rotate(index: array<nat>, a: nat, b: nat, c: nat)
    requires a <= b <= c < index.Length && Permutation(index[..], index.Length)
    modifies index
    ensures Permutation(index[..], index.Length) && Moved(old(index[..]), index[..], a, b, c)
    ensures multiset(old(index[..])[a..c + 1]) == multiset(index[..][a..c]) + multiset{old(index[..])[a]}
  {
    ghost var idx := index[..];
    Exchange(index, a, b, c);
    RotatedPermutation(idx, index.Length, a, b, c);
    RotatedMoves(idx, a, b, c);
    RotatedRest(idx, a, b, c);
  }

  // --------------------------------------------------------------- updates of a working set

  /** The updates of the examples of a list, one after the other. */
  ghost function UpdatedAll(p: Problem, pt: Point, working: seq<nat>): Point {
    if working == [] then pt else Updated(p, UpdatedAll(p, pt, working[..|working| - 1]), working[|working| - 1])
  }

  /** How many of them move their example. */
  ghost function Count(p: Problem, pt: Point, working: seq<nat>): nat {
    if working == [] then 0
    else
      var before, i := working[..|working| - 1], working[|working| - 1];
      Count(p, pt, before) + (if Moves(p, UpdatedAll(p, pt, before), i) then 1 else 0)
  }

  lemma UpdatedNext(p: Problem, pt: Point, working: seq<nat>, s: nat)
    requires s < |working|
    ensures UpdatedAll(p, pt, working[..s + 1]) == Updated(p, UpdatedAll(p, pt, working[..s]), working[s])
    ensures Count(p, pt, working[..s + 1]) == Count(p, pt, working[..s]) + if Moves(p, UpdatedAll(p, pt, working[..s]), working[s]) then 1 else 0
  {
    assert working[..s + 1][..s] == working[..s];
  }

  /** The updates keep the point feasible and coupled, do not raise the objective, and leave all other examples alone. */
  lemma {:induction false} UpdatedAllOk(p: Problem, pt: Point, working: seq<nat>)
    requires PointOk(p, pt) && forall k :: 0 <= k < |working| ==> working[k] < |p.x|
    ensures PointOk(p, UpdatedAll(p, pt, working))
    ensures Objective(p, UpdatedAll(p, pt, working).alpha, UpdatedAll(p, pt, working).w) <= Objective(p, pt.alpha, pt.w)
    ensures forall i :: 0 <= i < |p.x| && i !in working ==> UpdatedAll(p, pt, working).alpha[i] == pt.alpha[i]
    decreases |working|
  {
    if working != [] {
      var m := |working| - 1;
      UpdatedAllOk(p, pt, working[..m]);
      UpdatedOk(p, UpdatedAll(p, pt, working[..m]), working[m]);
      assert forall i :: i !in working ==> i !in working[..m] && i != working[m];
    }
  }

  /** If none of them moves, nothing has changed, and none of them would move. */
  lemma {:induction false} NoneMoved(p: Problem, pt: Point, working: seq<nat>)
    requires Count(p, pt, working) == 0
    ensures UpdatedAll(p, pt, working) == pt && forall i :: i in working ==> !Moves(p, pt, i)
    decreases |working|
  {
    if working != [] {
      var m := |working| - 1;
      NoneMoved(p, pt, working[..m]);
      assert working == working[..m] + [working[m]];
    }
  }

  /** The coordinate updates of a working set. */
  method UpdateAll(solver: Solver, working: seq<nat>) returns (updates: nat)
    requires solver.Valid() && forall k :: 0 <= k < |working| ==> working[k] < |solver.p.x|
    modifies solver.alpha, solver.w
    ensures solver.Valid() && solver.Value() <= old(solver.Value())
    ensures solver.At() == UpdatedAll(solver.p, old(solver.At()), working) && updates == Count(solver.p, old(solver.At()), working)
  {
    updates := 0;
    ghost var pt := solver.At();
    for s := 0 to |working|
      invariant solver.Valid() && solver.Value() <= old(solver.Value())
      invariant solver.At() == UpdatedAll(solver.p, pt, working[..s]) && updates == Count(solver.p, pt, working[..s])
    {
      assert ExampleOk(solver.p, working[s]);
      UpdatedNext(solver.p, pt, working, s);
      var updated := solver.UpdateOne(working[s]);
      if updated {
        updates := updates + 1;
      }
    }
    assert working[..|working|] == working;
  }

  // ------------------------------------------------------------------------ whole sweeps

  /** candidates_size stays within the buffers. */
  function NextCandidates(candidates: nat, workingSize: nat): (c: nat)
    ensures 128 <= candidates <= 4096 && workingSize <= candidates ==> 128 <= c <= 4096
  {
    if workingSize == 0 then (if candidates * 3 / 2 < 4096 then candidates * 3 / 2 else 4096)
    else if workingSize >= 256 then candidates / 2
    else candidates
  }

  /** Half as many again up to the size of the buffers if nothing was chosen, half as many if 256 or more were. */
  lemma NextCandidatesIs(candidates: nat, workingSize: nat)
    requires candidates <= 4096
    ensures var c := NextCandidates(candidates, workingSize);
      && (workingSize == 0 ==> if 3 * candidates >= 8192 then c == 4096 else 3 * candidates - 1 <= 2 * c <= 3 * candidates)
      && (0 < workingSize < 256 ==> c == candidates)
      && (workingSize >= 256 ==> candidates - 1 <= 2 * c <= candidates)
  {
  }

  /** What a sweep is given: its thresholds and tolerance, how many examples are active, and where it starts. */
  datatype Plan = Plan(p: Problem, pgMaxOld: Limit, pgMinOld: Limit, tolerance: real, size: nat, candidates: nat, start: Point)

  /** One block of a sweep: the state in which all its looks were taken, its candidates_size, and the looks. */
  datatype Stage = Stage(at: Point, candidates: nat, looks: seq<Look>)

  ghost function AllLooks(stages: seq<Stage>): seq<Look> {
    if stages == [] then [] else AllLooks(stages[..|stages| - 1]) + stages[|stages| - 1].looks
  }

  /** The state after a block: its chosen examples are updated in turn. */
  ghost function After(plan: Plan, stage: Stage): Point {
    UpdatedAll(plan.p, stage.at, Chosen(stage.looks, plan.tolerance))
  }

  ghost function EndPoint(plan: Plan, stages: seq<Stage>): Point {
    if stages == [] then plan.start else After(plan, stages[|stages| - 1])
  }

  ghost function EndCandidates(plan: Plan, stages: seq<Stage>): nat {
    if stages == [] then plan.candidates
    else NextCandidates(stages[|stages| - 1].candidates, |Chosen(stages[|stages| - 1].looks, plan.tolerance)|)
  }

  ghost function Updates(plan: Plan, stages: seq<Stage>): nat {
    if stages == [] then 0
    else
      var last := stages[|stages| - 1];
      Updates(plan, stages[..|stages| - 1]) + Count(plan.p, last.at, Chosen(last.looks, plan.tolerance))
  }

  function Smallest(a: nat, b: nat): nat { if a < b then a else b }

  /** Block k starts where the blocks before it have led, takes the next candidates, and decides on each by the gradients there. */
  ghost predicate StageAt(plan: Plan, stages: seq<Stage>, k: nat) {
    && k < |stages| && stages[k].at == EndPoint(plan, stages[..k]) && stages[k].candidates == EndCandidates(plan, stages[..k])
    && |AllLooks(stages[..k])| < plan.size && |stages[k].looks| == Smallest(stages[k].candidates, plan.size - |AllLooks(stages[..k])|)
    && LooksOk(plan.p, stages[k].at, plan.pgMaxOld, plan.pgMinOld, stages[k].looks)
  }

  /** The blocks follow from each other. */
  ghost predicate Follows(plan: Plan, stages: seq<Stage>) {
    forall k: nat {:trigger StageAt(plan, stages, k)} :: k < |stages| ==> StageAt(plan, stages, k)
  }

  lemma FollowsPrefix(plan: Plan, stages: seq<Stage>, m: nat)
    requires Follows(plan, stages) && m <= |stages|
    ensures Follows(plan, stages[..m])
  {
    var some := stages[..m];
    forall k: nat | k < m
      ensures StageAt(plan, some, k)
    {
      assert StageAt(plan, stages, k) && some[..k] == stages[..k];
    }
  }

  lemma FollowsNext(plan: Plan, stages: seq<Stage>, stage: Stage)
    requires Follows(plan, stages) && StageAt(plan, stages + [stage], |stages|)
    ensures Follows(plan, stages + [stage])
  {
    var all := stages + [stage];
    forall k: nat | k < |all|
      ensures StageAt(plan, all, k)
    {
      assert k < |stages| ==> StageAt(plan, stages, k) && all[..k] == stages[..k];
    }
  }

  lemma ChosenBelow(p: Problem, pt: Point, pgMaxOld: Limit, pgMinOld: Limit, looks: seq<Look>, tolerance: real)
    requires LooksOk(p, pt, pgMaxOld, pgMinOld, looks)
    ensures forall k :: 0 <= k < |Chosen(looks, tolerance)| ==> Chosen(looks, tolerance)[k] < |p.x|
  {
    KeptAndChosen(looks, tolerance);
    forall k | 0 <= k < |Chosen(looks, tolerance)|
      ensures Chosen(looks, tolerance)[k] < |p.x|
    {
      assert Chosen(looks, tolerance)[k] in Chosen(looks, tolerance);
      var j :| 0 <= j < |looks| && looks[j].i == Chosen(looks, tolerance)[k];
      assert LookOk(p, pt, pgMaxOld, pgMinOld, looks[j]);
    }
  }

  /** Every state of a sweep is feasible and coupled, and none has a higher objective than the start. */
  lemma {:induction false} SweepDescends(plan: Plan, stages: seq<Stage>)
    requires Follows(plan, stages) && PointOk(plan.p, plan.start)
    ensures PointOk(plan.p, EndPoint(plan, stages))
    ensures Objective(plan.p, EndPoint(plan, stages).alpha, EndPoint(plan, stages).w) <= Objective(plan.p, plan.start.alpha, plan.start.w)
    decreases |stages|
  {
    if stages != [] {
      var m := |stages| - 1;
      FollowsPrefix(plan, stages, m);
      SweepDescends(plan, stages[..m]);
      assert StageAt(plan, stages, m);
      ChosenBelow(plan.p, stages[m].at, plan.pgMaxOld, plan.pgMinOld, stages[m].looks, plan.tolerance);
      UpdatedAllOk(plan.p, stages[m].at, Chosen(stages[m].looks, plan.tolerance));
    }
  }

  /** Updates of the chosen examples leave those outside the active part at their bounds. */
  lemma BlockBounds(b: Block, idx: seq<nat>, kept: seq<nat>, send: nat, active: nat, names: seq<nat>, working: seq<nat>,
                    pgMax: Limit, pgMin: Limit, earlier: seq<Look>, looks: seq<Look>)
    requires Scanning(b, idx, kept, send, active, names) && Recorded(b, kept, names, working, pgMax, pgMin, earlier, looks)
    requires PointOk(b.p, b.pt) && |b.start| == |b.p.x|
    ensures AllAtBound(b.p, UpdatedAll(b.p, b.pt, working).alpha, idx, active, |b.start|)
  {
    ChosenBelow(b.p, b.pt, b.pgMaxOld, b.pgMinOld, looks, b.tolerance);
    UpdatedAllOk(b.p, b.pt, working);
    forall q: nat | active <= q < |b.start|
      ensures BoundAt(b.p, UpdatedAll(b.p, b.pt, working).alpha, idx, q)
    {
      assert BoundAt(b.p, b.pt.alpha, idx, q);
      NotChosen(b, idx, kept, looks, active, q);
    }
  }

  lemma NotChosen(b: Block, idx: seq<nat>, kept: seq<nat>, looks: seq<Look>, active: nat, q: nat)
    requires Permutation(idx, |idx|) && Lined(idx, b.t, kept) && kept == Kept(looks) && b.t + |kept| <= active <= q < |idx|
    ensures idx[q] !in Chosen(looks, b.tolerance)
  {
    if idx[q] in Chosen(looks, b.tolerance) {
      KeptAndChosen(looks, b.tolerance);
      var k :| 0 <= k < |looks| && looks[k].i == idx[q] && Picked(looks[k], b.tolerance);
      assert idx[q] in kept;
      var j :| 0 <= j < |kept| && kept[j] == idx[q];
      assert LinedAt(idx, b.t, kept, j);
      Apart(idx);
      assert false;
    }
  }

  /** The scan of one block, and what the updates of its working set will leave at a bound. */
  method LookAtBlock(solver: Solver, index: array<nat>, t: nat, send0: nat, active0: nat, pgMaxOld: Limit, pgMinOld: Limit, tolerance: real,
                     pgMax0: Limit, pgMin0: Limit, ghost earlier: seq<Look>)
    returns (send: nat, active: nat, working: seq<nat>, pgMax: Limit, pgMin: Limit, ghost kept: seq<nat>, ghost names: seq<nat>, ghost looks: seq<Look>)
    requires solver.Valid() && Permutation(index[..], index.Length) && index.Length == |solver.p.x| && t + send0 <= active0 <= index.Length
    requires AllAtBound(solver.p, solver.alpha[..], index[..], active0, index.Length)
    requires pgMax0 == Highest(earlier) && pgMin0 == Lowest(earlier)
    modifies index
    ensures Permutation(index[..], index.Length) && |looks| == send0
    ensures send == |kept| && t + send <= active <= active0 && active0 - t == send0 + (active - (t + send))
    ensures Accounted(old(index[..]), index[..], t, t + send, active, active0, names) && Framed(old(index[..]), index[..], t, active0)
    ensures Lined(index[..], t, kept)
    ensures AllAtBound(solver.p, UpdatedAll(solver.p, solver.At(), working).alpha, index[..], active, index.Length)
    ensures LooksOk(solver.p, solver.At(), pgMaxOld, pgMinOld, looks) && Tracked(earlier, looks, pgMax, pgMin)
    ensures kept == Kept(looks) && names == Names(looks) && working == Chosen(looks, tolerance)
    ensures forall k :: 0 <= k < |working| ==> working[k] < |solver.p.x|
  {
    ghost var b := Block(solver.p, solver.At(), pgMaxOld, pgMinOld, tolerance, index[..], t, active0);
    send, active, working, pgMax, pgMin, kept, names, looks :=
      ScanBlock(b, solver, index, t, send0, active0, pgMaxOld, pgMinOld, tolerance, pgMax0, pgMin0, earlier);
    ScanSizes(b, index[..], kept, send, active, names);
    ChosenBelow(b.p, b.pt, pgMaxOld, pgMinOld, looks, tolerance);
    BlockBounds(b, index[..], kept, send, active, names, working, pgMax, pgMin, earlier, looks);
  }

  /** The scan of one block and the updates of its working set. */
  method ProcessBlock(solver: Solver, index: array<nat>, t: nat, send0: nat, active0: nat, pgMaxOld: Limit, pgMinOld: Limit, tolerance: real,
                      pgMax0: Limit, pgMin0: Limit, ghost earlier: seq<Look>)
    returns (send: nat, active: nat, size: nat, updates: nat, pgMax: Limit, pgMin: Limit, ghost kept: seq<nat>, ghost names: seq<nat>, ghost looks: seq<Look>)
    requires solver.Valid() && Permutation(index[..], index.Length) && index.Length == |solver.p.x| && t + send0 <= active0 <= index.Length
    requires AllAtBound(solver.p, solver.alpha[..], index[..], active0, index.Length)
    requires pgMax0 == Highest(earlier) && pgMin0 == Lowest(earlier)
    modifies index, solver.alpha, solver.w
    ensures solver.Valid() && solver.Value() <= old(solver.Value()) && Permutation(index[..], index.Length)
    ensures send == |kept| && t + send <= active <= active0 && active0 - t == send0 + (active - (t + send)) && |looks| == send0
    ensures Accounted(old(index[..]), index[..], t, t + send, active, active0, names) && Framed(old(index[..]), index[..], t, active0)
    ensures Lined(index[..], t, kept) && AllAtBound(solver.p, solver.alpha[..], index[..], active, index.Length)
    ensures LooksOk(solver.p, old(solver.At()), pgMaxOld, pgMinOld, looks) && Tracked(earlier, looks, pgMax, pgMin)
    ensures kept == Kept(looks) && names == Names(looks) && size == |Chosen(looks, tolerance)|
    ensures solver.At() == UpdatedAll(solver.p, old(solver.At()), Chosen(looks, tolerance))
    ensures updates == Count(solver.p, old(solver.At()), Chosen(looks, tolerance))
  {
    var working;
    send, active, working, pgMax, pgMin, kept, names, looks :=
      LookAtBlock(solver, index, t, send0, active0, pgMaxOld, pgMinOld, tolerance, pgMax0, pgMin0, earlier);
    size := |working|;
    updates := UpdateAll(solver, working);
  }

  lemma ScanSizes(b: Block, idx: seq<nat>, kept: seq<nat>, send: nat, active: nat, names: seq<nat>)
    requires Scanning(b, idx, kept, send, active, names) && send == |kept|
    ensures b.active0 - b.t == |names| + (active - (b.t + send))
  {
    AccountedIs(b.start, idx, b.t, b.t + send, active, b.active0, names);
    var before, after := b.start[b.t..b.active0], idx[b.t + send..active];
    assert |multiset(before)| == b.active0 - b.t && |multiset(names)| == |names| && |multiset(after)| == active - (b.t + send);
  }

  /** Where everything stands between two blocks of a sweep. */
  ghost predicate Sweeping(plan: Plan, start: seq<nat>, idx: seq<nat>, pt: Point, active: nat, kept: seq<nat>, names: seq<nat>) {
    && |start| == |plan.p.x| && Permutation(idx, |start|) && |kept| <= active <= plan.size <= |start|
    && Accounted(start, idx, 0, |kept|, active, plan.size, names) && Framed(start, idx, 0, plan.size)
    && AllAtBound(plan.p, pt.alpha, idx, active, |start|) && Lined(idx, 0, kept) && |names| + (active - |kept|) == plan.size
  }

  /** What the blocks so far amount to. */
  ghost predicate Traced(plan: Plan, stages: seq<Stage>, pt: Point, kept: seq<nat>, names: seq<nat>,
                         candidates: nat, updates: nat, pgMax: Limit, pgMin: Limit) {
    && Follows(plan, stages) && pt == EndPoint(plan, stages) && candidates == EndCandidates(plan, stages) && updates == Updates(plan, stages)
    && kept == Kept(AllLooks(stages)) && names == Names(AllLooks(stages))
    && pgMax == Highest(AllLooks(stages)) && pgMin == Lowest(AllLooks(stages))
  }

  lemma SweepingNext(plan: Plan, start: seq<nat>, before: seq<nat>, pt: Point, wide: nat, kept: seq<nat>, names: seq<nat>,
                     after: seq<nat>, pt': Point, active: nat, blockKept: seq<nat>, blockNames: seq<nat>, kept': seq<nat>, names': seq<nat>)
    requires kept' == kept + blockKept && names' == names + blockNames
    requires Sweeping(plan, start, before, pt, wide, kept, names) && Permutation(after, |start|)
    requires |kept| + |blockKept| <= active <= wide && |blockNames| + active - |blockKept| == wide
    requires Accounted(before, after, |kept|, |kept| + |blockKept|, active, wide, blockNames) && Framed(before, after, |kept|, wide)
    requires Lined(after, |kept|, blockKept) && AllAtBound(plan.p, pt'.alpha, after, active, |start|)
    ensures Sweeping(plan, start, after, pt', active, kept', names')
  {
    BlockAccounted(start, before, after, |kept|, |kept| + |blockKept|, active, wide, plan.size, names, blockNames);
    forall q: nat | q < |kept|
      ensures after[q] == before[q]
    {
      assert FramedAt(before, after, q);
    }
    LinedStill(before, after, 0, kept);
    LinedMore(after, 0, kept, blockKept);
  }

  lemma BlockAccounted(start: seq<nat>, before: seq<nat>, after: seq<nat>, t: nat, next: nat, active: nat, wide: nat, active0: nat,
                       names: seq<nat>, block: seq<nat>)
    requires Accounted(start, before, 0, t, wide, active0, names) && Framed(start, before, 0, active0)
    requires Accounted(before, after, t, next, active, wide, block) && Framed(before, after, t, wide) && wide <= active0
    ensures Accounted(start, after, 0, next, active, active0, names + block) && Framed(start, after, 0, active0)
  {
    var all := names + block;
    forall v: nat
      ensures AccountedFor(start, after, 0, next, active, active0, all, v)
    {
      assert AccountedFor(start, before, 0, t, wide, active0, names, v);
      assert AccountedFor(before, after, t, next, active, wide, block, v);
    }
    forall q: nat | active0 <= q < |start|
      ensures FramedAt(start, after, q)
    {
      assert FramedAt(start, before, q) && FramedAt(before, after, q);
    }
  }

  lemma TracedNext(plan: Plan, stages: seq<Stage>, pt: Point, kept: seq<nat>, names: seq<nat>, candidates: nat, updates: nat,
                   pgMax0: Limit, pgMin0: Limit, looks: seq<Look>, pt': Point, kept': seq<nat>, names': seq<nat>, candidates': nat, updates': nat,
                   pgMax: Limit, pgMin: Limit, stages': seq<Stage>)
    requires stages' == stages + [Stage(pt, candidates, looks)] && kept' == kept + Kept(looks) && names' == names + Names(looks)
    requires pt' == UpdatedAll(plan.p, pt, Chosen(looks, plan.tolerance)) && candidates' == NextCandidates(candidates, |Chosen(looks, plan.tolerance)|)
    requires updates' == updates + Count(plan.p, pt, Chosen(looks, plan.tolerance))
    requires Traced(plan, stages, pt, kept, names, candidates, updates, pgMax0, pgMin0)
    requires |names| < plan.size && |looks| == Smallest(candidates, plan.size - |names|)
    requires LooksOk(plan.p, pt, plan.pgMaxOld, plan.pgMinOld, looks) && Tracked(AllLooks(stages), looks, pgMax, pgMin)
    ensures Traced(plan, stages', pt', kept', names', candidates', updates', pgMax, pgMin)
  {
    var stage := Stage(pt, candidates, looks);
    LooksNext(stages, stage);
    StagesNext(plan, stages, stage);
  }

  lemma LooksNext(stages: seq<Stage>, stage: Stage)
    ensures AllLooks(stages + [stage]) == AllLooks(stages) + stage.looks
    ensures Kept(AllLooks(stages + [stage])) == Kept(AllLooks(stages)) + Kept(stage.looks)
    ensures Names(AllLooks(stages + [stage])) == Names(AllLooks(stages)) + Names(stage.looks)
  {
    assert (stages + [stage])[..|stages|] == stages;
    KeptConcat(AllLooks(stages), stage.looks);
    assert Names(AllLooks(stages) + stage.looks) == Names(AllLooks(stages)) + Names(stage.looks);
  }

  lemma StagesNext(plan: Plan, stages: seq<Stage>, stage: Stage)
    requires Follows(plan, stages) && stage.at == EndPoint(plan, stages) && stage.candidates == EndCandidates(plan, stages)
    requires |AllLooks(stages)| < plan.size && |stage.looks| == Smallest(stage.candidates, plan.size - |AllLooks(stages)|)
    requires LooksOk(plan.p, stage.at, plan.pgMaxOld, plan.pgMinOld, stage.looks)
    ensures Follows(plan, stages + [stage]) && EndPoint(plan, stages + [stage]) == After(plan, stage)
    ensures EndCandidates(plan, stages + [stage]) == NextCandidates(stage.candidates, |Chosen(stage.looks, plan.tolerance)|)
    ensures Updates(plan, stages + [stage]) == Updates(plan, stages) + Count(plan.p, stage.at, Chosen(stage.looks, plan.tolerance))
  {
    var all := stages + [stage];
    assert all[..|stages|] == stages && all[|all| - 1] == stage;
    assert StageAt(plan, all, |stages|);
    FollowsNext(plan, stages, stage);
  }

  /** One block of a sweep. */
  method SweepBlock(solver: Solver, index: array<nat>, t0: nat, active0: nat, candidates0: nat, pgMaxOld: Limit, pgMinOld: Limit, tolerance: real,
                    pgMax0: Limit, pgMin0: Limit, ghost plan: Plan, ghost start: seq<nat>, ghost kept0: seq<nat>, ghost names0: seq<nat>, ghost earlier: seq<Look>)
    returns (t: nat, active: nat, candidates: nat, n: nat, pgMax: Limit, pgMin: Limit, ghost kept: seq<nat>, ghost names: seq<nat>, ghost looks: seq<Look>)
    requires solver.Valid() && 128 <= candidates0 <= 4096 && t0 == |kept0| && t0 < active0 && plan.p == solver.p
    requires Sweeping(plan, start, index[..], solver.At(), active0, kept0, names0) && pgMax0 == Highest(earlier) && pgMin0 == Lowest(earlier)
    modifies index, solver.alpha, solver.w
    ensures solver.Valid() && solver.Value() <= old(solver.Value()) && 128 <= candidates <= 4096
    ensures t == |kept| && t <= active <= active0 && active - t < active0 - t0
    ensures Sweeping(plan, start, index[..], solver.At(), active, kept, names)
    ensures |looks| == Smallest(candidates0, active0 - t0) && kept == kept0 + Kept(looks) && names == names0 + Names(looks)
    ensures LooksOk(solver.p, old(solver.At()), pgMaxOld, pgMinOld, looks) && Tracked(earlier, looks, pgMax, pgMin)
    ensures solver.At() == UpdatedAll(solver.p, old(solver.At()), Chosen(looks, tolerance))
    ensures n == Count(solver.p, old(solver.At()), Chosen(looks, tolerance)) && candidates == NextCandidates(candidates0, |Chosen(looks, tolerance)|)
  {
    var send := Smallest(candidates0, active0 - t0);
    ghost var before, pt := index[..], solver.At();
    var size;
    ghost var blockKept, blockNames;
    send, active, size, n, pgMax, pgMin, blockKept, blockNames, looks :=
      ProcessBlock(solver, index, t0, send, active0, pgMaxOld, pgMinOld, tolerance, pgMax0, pgMin0, earlier);
    kept, names := kept0 + blockKept, names0 + blockNames;
    t, candidates := t0 + send, NextCandidates(candidates0, size);
    SweepingNext(plan, start, before, pt, active0, kept0, names0, index[..], solver.At(), active, blockKept, blockNames, kept, names);
  }

  lemma SweepStart(plan: Plan, start: seq<nat>)
    requires |start| == |plan.p.x| && Permutation(start, |start|) && plan.size <= |start| && AllAtBound(plan.p, plan.start.alpha, start, plan.size, |start|)
    ensures Sweeping(plan, start, start, plan.start, plan.size, [], [])
    ensures Traced(plan, [], plan.start, [], [], plan.candidates, 0, Infinite, Infinite)
  {
    assert Names([]) == [];
    AccountedStart(start, 0, plan.size);
  }

  lemma SweepEnd(plan: Plan, start: seq<nat>, idx: seq<nat>, pt: Point, active: nat, kept: seq<nat>, names: seq<nat>)
    requires Sweeping(plan, start, idx, pt, active, kept, names) && active == |kept|
    ensures multiset(names) == multiset(start[..plan.size]) && idx[plan.size..] == start[plan.size..] && idx[..active] == kept
  {
    AccountedIs(start, idx, 0, active, active, plan.size, names);
    FramedRest(start, idx, 0, plan.size);
    LinedIs(idx, 0, kept);
    assert idx[active..active] == [] && start[0..plan.size] == start[..plan.size];
  }

  lemma FramedRest(start: seq<nat>, idx: seq<nat>, t: nat, active0: nat)
    requires Framed(start, idx, t, active0)
    ensures idx[active0..] == start[active0..]
  {
    forall q: nat | active0 <= q < |start|
      ensures idx[q] == start[q]
    {
      assert FramedAt(start, idx, q);
    }
  }

  /**
    One sweep, after the shuffle, block by block from the state it finds to the state it leaves:
    every example that was active is looked at exactly once, those kept are the ones active
    afterwards, in that order, and those dropped are at a bound; PGmax_new and PGmin_new are
    the extremes of the projected gradients seen.
  */
  method Sweep(solver: Solver, index: array<nat>, active0: nat, candidates0: nat, pgMaxOld: Limit, pgMinOld: Limit, tolerance: real)
    returns (active: nat, candidates: nat, updates: nat, pgMax: Limit, pgMin: Limit, ghost stages: seq<Stage>)
    requires solver.Valid() && Permutation(index[..], index.Length) && index.Length == |solver.p.x| && active0 <= index.Length
    requires 128 <= candidates0 <= 4096 && AllAtBound(solver.p, solver.alpha[..], index[..], active0, index.Length)
    modifies index, solver.alpha, solver.w
    ensures solver.Valid() && solver.Value() <= old(solver.Value())
    ensures Permutation(index[..], index.Length) && active <= active0 && 128 <= candidates <= 4096
    ensures multiset(Names(AllLooks(stages))) == multiset(old(index[..])[..active0]) && index[..][active0..] == old(index[..])[active0..]
    ensures index[..][..active] == Kept(AllLooks(stages)) && AllAtBound(solver.p, solver.alpha[..], index[..], active, index.Length)
    ensures var plan := Plan(solver.p, pgMaxOld, pgMinOld, tolerance, active0, candidates0, old(solver.At()));
      && Follows(plan, stages) && solver.At() == EndPoint(plan, stages)
      && candidates == EndCandidates(plan, stages) && updates == Updates(plan, stages)
    ensures pgMax == Highest(AllLooks(stages)) && pgMin == Lowest(AllLooks(stages))
  {
    var t: nat := 0;
    active, candidates, updates, stages := active0, candidates0, 0, [];
    pgMax, pgMin := Infinite, Infinite;
    ghost var start, kept, names := index[..], [], [];
    ghost var plan := Plan(solver.p, pgMaxOld, pgMinOld, tolerance, active0, candidates0, solver.At());
    SweepStart(plan, start);
    while t < active
      invariant solver.Valid() && solver.Value() <= old(solver.Value()) && 128 <= candidates <= 4096 && t == |kept| && t <= active <= active0
      invariant Sweeping(plan, start, index[..], solver.At(), active, kept, names)
      invariant Traced(plan, stages, solver.At(), kept, names, candidates, updates, pgMax, pgMin)
      decreases active - t
    {
      ghost var pt, kept0, names0, candidates0, updates0, pgMax0, pgMin0, stages0 := solver.At(), kept, names, candidates, updates, pgMax, pgMin, stages;
      var n;
      ghost var looks;
      t, active, candidates, n, pgMax, pgMin, kept, names, looks :=
        SweepBlock(solver, index, t, active, candidates, pgMaxOld, pgMinOld, tolerance, pgMax, pgMin, plan, start, kept, names, AllLooks(stages));
      updates, stages := updates + n, stages + [Stage(pt, candidates0, looks)];
      TracedNext(plan, stages0, pt, kept0, names0, candidates0, updates0, pgMax0, pgMin0, looks, solver.At(), kept, names, candidates, updates, pgMax, pgMin, stages);
    }
    SweepEnd(plan, start, index[..], solver.At(), active, kept, names);
  }
}
