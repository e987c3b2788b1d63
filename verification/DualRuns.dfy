/**
  The whole run of the dual solver (trident-workloads/liblinear/linear.cpp,
  solve_l2r_l1l2_svc): shuffles and sweeps, with the thresholds, the tolerance and the
  active set handed from one sweep to the next, until a stopping rule applies.
*/
module DualRuns {
  import opened Reals
  import opened SparseVectors
  import opened DualSVC
  import opened DualSweep
  import opened Permutations
  import F = Frontier

  // ------------------------------------------------------------- between two sweeps

  function Max(a: real, b: real): real { if a >= b then a else b }

  function Min(a: real, b: real): real { if a <= b then a else b }

  /** PGmax_new - PGmin_new <= e; both are infinite if every example was dropped. */
  predicate SpreadWithin(pgMax: Limit, pgMin: Limit, e: real) {
    pgMax.Infinite? || pgMin.Infinite? || pgMax.value - pgMin.value <= e
  }

  /** What happens after a sweep. */
  datatype Outcome =
    | StopSettled
    | StopNarrow
    | StartOver(eps1: real)
    | GoOn(eps1: real, pgMaxOld: Limit, pgMinOld: Limit)

  function AfterSweep(updates: nat, active: nat, l: nat, eps: real, eps1: real, pgMax: Limit, pgMin: Limit): (o: Outcome)
    ensures o.StopSettled? ==> updates == 0 && active == l && eps1 <= eps
    ensures o.StopNarrow? ==> active == l && SpreadWithin(pgMax, pgMin, eps)
    ensures o.GoOn? ==> (o.pgMaxOld.Finite? ==> o.pgMaxOld.value > 0.0 && o.pgMaxOld == pgMax)
    ensures o.GoOn? ==> (o.pgMinOld.Finite? ==> o.pgMinOld.value < 0.0 && o.pgMinOld == pgMin)
  {
    var next := Max(0.1 * eps1, Min(0.01 * eps, 0.1));
    if updates == 0 then
      if active == l && eps1 <= eps then StopSettled else StartOver(next)
    else
      var eps1' := if SpreadWithin(pgMax, pgMin, eps1) then next else eps1;
      if SpreadWithin(pgMax, pgMin, eps) && active == l then StopNarrow
      else if SpreadWithin(pgMax, pgMin, eps)
        && (SpreadWithin(pgMax, pgMin, 0.9 * eps) || active as real >= 0.05 * (l as real)) then StartOver(eps1')
      else GoOn(eps1', if pgMax.Infinite? || pgMax.value <= 0.0 then Infinite else pgMax,
                if pgMin.Infinite? || pgMin.value >= 0.0 then Infinite else pgMin)
  }

  /** Thresholds that only an example held at its bound by its gradient can pass. */
  predicate ThresholdsOk(pgMaxOld: Limit, pgMinOld: Limit) {
    (pgMaxOld.Finite? ==> pgMaxOld.value > 0.0) && (pgMinOld.Finite? ==> pgMinOld.value < 0.0)
  }

  // ------------------------------------------------------------------------ the record

  /**
    One sweep: the examples active at its start in the order after the shuffle, what it was
    given, the state it began in, and its blocks, which determine the state it ended in.
  */
  datatype Round = Round(active: seq<nat>, pgMaxOld: Limit, pgMinOld: Limit, eps1: real, tolerance: real, candidates: nat, start: Point, stages: seq<Stage>)

  ghost function PlanOf(p: Problem, round: Round): Plan {
    Plan(p, round.pgMaxOld, round.pgMinOld, round.tolerance, |round.active|, round.candidates, round.start)
  }

  ghost function LooksOf(round: Round): seq<Look> {
    AllLooks(round.stages)
  }

  ghost function EndOf(p: Problem, round: Round): Point {
    EndPoint(PlanOf(p, round), round.stages)
  }

  ghost function OutcomeOf(p: Problem, eps: real, round: Round): Outcome {
    AfterSweep(Updates(PlanOf(p, round), round.stages), |Kept(LooksOf(round))|, |p.x|, eps, round.eps1, Highest(LooksOf(round)), Lowest(LooksOf(round)))
  }

  /** The blocks follow from each other, and look at every active example exactly once. */
  ghost predicate RoundOk(p: Problem, round: Round) {
    && round.tolerance == 0.1 * round.eps1
    && Follows(PlanOf(p, round), round.stages) && multiset(Names(LooksOf(round))) == multiset(round.active)
  }

  /** The first sweep: everything zero and active, no thresholds. */
  ghost predicate First(p: Problem, round: Round) {
    && round.start == Zero(p) && Permutation(round.active, |p.x|) && round.pgMaxOld.Infinite? && round.pgMinOld.Infinite?
    && round.eps1 == 0.1 && round.candidates == 256
  }

  /** A later sweep goes on where the one before ended, as the rules between them say. */
  ghost predicate Next(p: Problem, eps: real, before: Round, after: Round) {
    && after.start == EndOf(p, before) && after.candidates == EndCandidates(PlanOf(p, before), before.stages)
    && match OutcomeOf(p, eps, before)
       case StopSettled => false
       case StopNarrow => false
       case StartOver(eps1) =>
         after.eps1 == eps1 && after.pgMaxOld.Infinite? && after.pgMinOld.Infinite? && Permutation(after.active, |p.x|)
       case GoOn(eps1, pgMaxOld, pgMinOld) =>
         after.eps1 == eps1 && after.pgMaxOld == pgMaxOld && after.pgMinOld == pgMinOld
         && multiset(after.active) == multiset(Kept(LooksOf(before)))
  }

  ghost function Last(rounds: seq<Round>): Round
    requires rounds != []
  {
    rounds[|rounds| - 1]
  }

  ghost predicate Joins(p: Problem, eps: real, rounds: seq<Round>, round: Round) {
    if rounds == [] then First(p, round) else Next(p, eps, Last(rounds), round)
  }

  ghost predicate RoundAt(p: Problem, eps: real, rounds: seq<Round>, k: nat) {
    k < |rounds| && RoundOk(p, rounds[k]) && Joins(p, eps, rounds[..k], rounds[k])
  }

  /** The sweeps of a run. */
  ghost predicate Run(p: Problem, eps: real, rounds: seq<Round>) {
    forall k: nat {:trigger RoundAt(p, eps, rounds, k)} :: k < |rounds| ==> RoundAt(p, eps, rounds, k)
  }

  ghost function RunEnd(p: Problem, rounds: seq<Round>): Point {
    if rounds == [] then Zero(p) else EndOf(p, Last(rounds))
  }

  lemma RunNext(p: Problem, eps: real, rounds: seq<Round>, round: Round)
    requires Run(p, eps, rounds) && RoundOk(p, round) && Joins(p, eps, rounds, round)
    ensures Run(p, eps, rounds + [round])
  {
    var all := rounds + [round];
    assert all[..|rounds|] == rounds;
    forall k: nat | k < |all|
      ensures RoundAt(p, eps, all, k)
    {
      assert k < |rounds| ==> RoundAt(p, eps, rounds, k) && all[..k] == rounds[..k];
    }
  }

  // -------------------------------------------------------------- what the record means

  ghost function ValueAt(p: Problem, pt: Point): real
    requires |pt.alpha| == |p.diag|
  {
    Objective(p, pt.alpha, pt.w)
  }

  /** Every sweep of a run begins and ends feasible and coupled, and none raises the objective, from 0 at the start. */
  lemma {:induction false} NeverRises(p: Problem, eps: real, rounds: seq<Round>, k: nat)
    requires WellPosed(p) && Run(p, eps, rounds) && k < |rounds|
    ensures PointOk(p, rounds[k].start) && PointOk(p, EndOf(p, rounds[k]))
    ensures ValueAt(p, EndOf(p, rounds[k])) <= ValueAt(p, rounds[k].start) <= 0.0
    ensures rounds[k].start == RunEnd(p, rounds[..k])
    decreases k
  {
    assert RoundAt(p, eps, rounds, k);
    if k == 0 {
      ZeroStart(p, Zero(p).alpha, Zero(p).w);
    } else {
      NeverRises(p, eps, rounds, k - 1);
      assert rounds[..k][k - 1] == rounds[k - 1];
    }
    SweepDescends(PlanOf(p, rounds[k]), rounds[k].stages);
  }

  /** The thresholds of a sweep are handed over from the one before only where they can serve. */
  lemma ThresholdsServe(p: Problem, eps: real, rounds: seq<Round>, k: nat)
    requires Run(p, eps, rounds) && k < |rounds|
    ensures ThresholdsOk(rounds[k].pgMaxOld, rounds[k].pgMinOld)
  {
    assert RoundAt(p, eps, rounds, k);
  }

  /** In every sweep of a run an example is dropped exactly if its gradient presses it against its bound by more than the threshold. */
  lemma DroppedIsPressed(p: Problem, eps: real, rounds: seq<Round>, k: nat, m: nat, j: nat)
    requires Run(p, eps, rounds) && k < |rounds| && m < |rounds[k].stages| && j < |rounds[k].stages[m].looks|
    ensures var pt, i := rounds[k].stages[m].at, rounds[k].stages[m].looks[j].i;
      && HasExample(p, pt, i)
      && var a, g, hi, lo := pt.alpha[i], Gradient(p, pt.alpha, pt.w, i), rounds[k].pgMaxOld, rounds[k].pgMinOld;
         && (rounds[k].stages[m].looks[j].decision.Drop? ==> (a == 0.0 && g > 0.0) || (p.upper[i] == Finite(a) && g < 0.0))
         && (0.0 <= a && AtMost(a, p.upper[i]) ==>
               (rounds[k].stages[m].looks[j].decision.Drop? <==>
                  (a == 0.0 && hi.Finite? && g > hi.value) || (p.upper[i] == Finite(a) && lo.Finite? && g < lo.value)))
  {
    var round := rounds[k];
    ThresholdsServe(p, eps, rounds, k);
    assert RoundAt(p, eps, rounds, k);
    assert StageAt(PlanOf(p, round), round.stages, m);
    assert LookOk(p, round.stages[m].at, round.pgMaxOld, round.pgMinOld, round.stages[m].looks[j]);
  }

  // -------------------------------------------------------------------- the rules

  /** The sweep moved no example. */
  ghost predicate Quiet(p: Problem, round: Round) {
    Updates(PlanOf(p, round), round.stages) == 0
  }

  /** The projected gradients it saw differ by at most e; if it kept no example it saw none. */
  ghost predicate Narrow(round: Round, e: real) {
    forall k: nat, l: nat {:trigger KeptLook(round, k), KeptLook(round, l)} ::
      KeptLook(round, k) && KeptLook(round, l) ==> LooksOf(round)[k].decision.pg - LooksOf(round)[l].decision.pg <= e
  }

  ghost predicate KeptLook(round: Round, k: nat) {
    k < |LooksOf(round)| && LooksOf(round)[k].decision.Keep?
  }

  lemma NarrowIs(round: Round, e: real)
    requires e >= 0.0
    ensures Narrow(round, e) <==> SpreadWithin(Highest(LooksOf(round)), Lowest(LooksOf(round)), e)
  {
    ExtremesAre(LooksOf(round));
    if Highest(LooksOf(round)).Finite? {
      var h: nat :| h < |LooksOf(round)| && LooksOf(round)[h].decision == Keep(Highest(LooksOf(round)).value);
      var l: nat :| l < |LooksOf(round)| && LooksOf(round)[l].decision == Keep(Lowest(LooksOf(round)).value);
      assert KeptLook(round, h) && KeptLook(round, l);
    }
  }

  /** It kept every example of the problem. */
  ghost predicate Full(p: Problem, round: Round) {
    |Kept(LooksOf(round))| == |p.x|
  }

  /** The active set is worth resetting: the spread is well within eps, or a twentieth of the examples is left. */
  ghost predicate WorthReset(p: Problem, round: Round, eps: real) {
    Narrow(round, 0.9 * eps) || |Kept(LooksOf(round))| as real >= 0.05 * (|p.x| as real)
  }

  /** A sweep that begins afresh: everything active and no thresholds. */
  ghost predicate Afresh(p: Problem, round: Round) {
    Permutation(round.active, |p.x|) && round.pgMaxOld.Infinite? && round.pgMinOld.Infinite?
  }

  /** A sweep that goes on: with the examples kept, and with the extremes seen as thresholds where they are of the right sign. */
  ghost predicate GoesOn(before: Round, after: Round) {
    && multiset(after.active) == multiset(Kept(LooksOf(before)))
    && (if after.pgMaxOld.Finite? then after.pgMaxOld == Highest(LooksOf(before)) && after.pgMaxOld.value > 0.0
        else Highest(LooksOf(before)).Finite? ==> Highest(LooksOf(before)).value <= 0.0)
    && (if after.pgMinOld.Finite? then after.pgMinOld == Lowest(LooksOf(before)) && after.pgMinOld.value < 0.0
        else Lowest(LooksOf(before)).Finite? ==> Lowest(LooksOf(before)).value >= 0.0)
  }

  /**
    When a run ends and how it goes on.  A quiet sweep over everything with eps1 down to eps is
    the last one; after any other quiet sweep the next begins afresh.  A sweep over everything
    with updates and a spread of at most eps is the last one; if some examples were dropped, the
    next begins afresh when the spread is at most 0.9 eps or a twentieth of the examples is
    left.  In every other case the next goes on.
  */
  lemma Rules(p: Problem, eps: real, rounds: seq<Round>, k: nat)
    requires eps > 0.0 && Run(p, eps, rounds) && k < |rounds|
    ensures Quiet(p, rounds[k]) && Full(p, rounds[k]) && rounds[k].eps1 <= eps ==> k + 1 == |rounds| && EndingOk(p, eps, rounds, AllSettled)
    ensures !Quiet(p, rounds[k]) && Full(p, rounds[k]) && Narrow(rounds[k], eps) ==> k + 1 == |rounds| && EndingOk(p, eps, rounds, SpreadNarrow)
    ensures k + 1 < |rounds| && Quiet(p, rounds[k]) ==> Afresh(p, rounds[k + 1])
    ensures k + 1 < |rounds| && !Quiet(p, rounds[k]) ==>
      if Narrow(rounds[k], eps) && WorthReset(p, rounds[k], eps) then Afresh(p, rounds[k + 1]) else GoesOn(rounds[k], rounds[k + 1])
  {
    NarrowIs(rounds[k], eps);
    NarrowIs(rounds[k], 0.9 * eps);
    if k + 1 < |rounds| {
      assert RoundAt(p, eps, rounds, k + 1);
      assert Last(rounds[..k + 1]) == rounds[k];
    }
  }

  /** Conversely, no other sweep ends a run. */
  lemma EndsOnlyBy(p: Problem, eps: real, rounds: seq<Round>, ending: Ending)
    requires eps > 0.0 && rounds != [] && EndingOk(p, eps, rounds, ending)
    ensures ending.AllSettled? <==> Quiet(p, Last(rounds)) && Full(p, Last(rounds)) && Last(rounds).eps1 <= eps
    ensures ending.SpreadNarrow? <==> !Quiet(p, Last(rounds)) && Full(p, Last(rounds)) && Narrow(Last(rounds), eps)
  {
    NarrowIs(Last(rounds), eps);
  }

  lemma EpsNext(p: Problem, eps: real, before: Round, after: Round)
    requires Next(p, eps, before, after) && before.eps1 >= 0.0
    ensures after.eps1 == if Quiet(p, before) || Narrow(before, before.eps1) then Max(0.1 * before.eps1, Min(0.01 * eps, 0.1)) else before.eps1
  {
    NarrowIs(before, before.eps1);
  }

  lemma EpsBetween(eps: real, eps1: real)
    requires eps > 0.0 && Min(0.01 * eps, 0.1) <= eps1 <= 0.1
    ensures 0.0 < Min(0.01 * eps, 0.1) <= Max(0.1 * eps1, Min(0.01 * eps, 0.1)) <= eps1
  {
  }

  /** eps1 stays positive, never rises, and falls to a tenth, or to its least value, after a quiet sweep or one with a spread of at most eps1. */
  lemma {:induction false} EpsFalls(p: Problem, eps: real, rounds: seq<Round>, k: nat)
    requires eps > 0.0 && Run(p, eps, rounds) && k < |rounds|
    ensures Min(0.01 * eps, 0.1) <= rounds[k].eps1 <= 0.1
    ensures k > 0 ==> rounds[k].eps1 == if Quiet(p, rounds[k - 1]) || Narrow(rounds[k - 1], rounds[k - 1].eps1)
                                        then Max(0.1 * rounds[k - 1].eps1, Min(0.01 * eps, 0.1)) else rounds[k - 1].eps1
    ensures k > 0 ==> 0.0 < rounds[k].eps1 <= rounds[k - 1].eps1
    decreases k
  {
    if k > 0 {
      EpsFalls(p, eps, rounds, k - 1);
      EpsBetween(eps, rounds[k - 1].eps1);
      NextAt(p, eps, rounds, k);
      EpsNext(p, eps, rounds[k - 1], rounds[k]);
    } else {
      assert RoundAt(p, eps, rounds, k);
    }
  }

  lemma NextAt(p: Problem, eps: real, rounds: seq<Round>, k: nat)
    requires Run(p, eps, rounds) && 0 < k < |rounds|
    ensures Next(p, eps, rounds[k - 1], rounds[k])
  {
    assert RoundAt(p, eps, rounds, k) && Last(rounds[..k]) == rounds[k - 1];
  }

  // ------------------------------------------------------------------ who is active

  lemma {:induction false} KeptOfNames(looks: seq<Look>, v: nat)
    ensures multiset(Kept(looks))[v] <= multiset(Names(looks))[v]
  {
    if looks != [] {
      var m := |looks| - 1;
      KeptOfNames(looks[..m], v);
      assert Names(looks) == Names(looks[..m]) + [looks[m].i];
    }
  }

  lemma KeptOnce(looks: seq<Look>, l: nat)
    requires Once(Names(looks), l)
    ensures Once(Kept(looks), l)
  {
    forall v: nat
      ensures OnceAt(Kept(looks), l, v)
    {
      KeptOfNames(looks, v);
      assert OnceAt(Names(looks), l, v);
    }
  }

  lemma ActiveFrom(p: Problem, eps: real, rounds: seq<Round>, k: nat)
    requires Run(p, eps, rounds) && k < |rounds|
    ensures Permutation(rounds[k].active, |p.x|) || (k > 0 && multiset(rounds[k].active) == multiset(Kept(LooksOf(rounds[k - 1]))))
    ensures multiset(rounds[k].active) == multiset(Names(LooksOf(rounds[k])))
  {
    assert RoundAt(p, eps, rounds, k);
    if k > 0 {
      assert rounds[..k][k - 1] == rounds[k - 1];
    }
  }

  /** At every point of a run the active examples are distinct, and so are those kept. */
  lemma {:induction false} ActiveOnce(p: Problem, eps: real, rounds: seq<Round>, k: nat)
    requires Run(p, eps, rounds) && k < |rounds|
    ensures Once(rounds[k].active, |p.x|) && Once(Kept(LooksOf(rounds[k])), |p.x|)
    decreases k
  {
    ActiveFrom(p, eps, rounds, k);
    if Permutation(rounds[k].active, |p.x|) {
      PermutationOnce(rounds[k].active, |p.x|);
    } else {
      ActiveOnce(p, eps, rounds, k - 1);
      OnceOf(Kept(LooksOf(rounds[k - 1])), rounds[k].active, |p.x|);
    }
    OnceOf(rounds[k].active, Names(LooksOf(rounds[k])), |p.x|);
    KeptOnce(LooksOf(rounds[k]), |p.x|);
  }

  ghost predicate KeptAt(round: Round, m: nat, j: nat, i: nat) {
    m < |round.stages| && j < |round.stages[m].looks| && round.stages[m].looks[j].i == i && round.stages[m].looks[j].decision.Keep?
  }

  lemma {:induction false} FindLook(stages: seq<Stage>, k: nat) returns (m: nat, j: nat)
    requires k < |AllLooks(stages)|
    ensures m < |stages| && j < |stages[m].looks| && stages[m].looks[j] == AllLooks(stages)[k]
  {
    var last := |stages| - 1;
    var before := AllLooks(stages[..last]);
    if k < |before| {
      m, j := FindLook(stages[..last], k);
    } else {
      m, j := last, k - |before|;
    }
  }

  /** A sweep that ends with every example active has looked at every example, and kept it. */
  lemma AllKept(p: Problem, eps: real, rounds: seq<Round>, k: nat, i: nat) returns (m: nat, j: nat)
    requires Run(p, eps, rounds) && k < |rounds| && |Kept(LooksOf(rounds[k]))| == |p.x| && i < |p.x|
    ensures KeptAt(rounds[k], m, j, i) && LookOk(p, rounds[k].stages[m].at, rounds[k].pgMaxOld, rounds[k].pgMinOld, rounds[k].stages[m].looks[j])
    ensures exists n :: 0 <= n < |LooksOf(rounds[k])| && LooksOf(rounds[k])[n] == rounds[k].stages[m].looks[j]
  {
    var round, looks := rounds[k], LooksOf(rounds[k]);
    ActiveOnce(p, eps, rounds, k);
    OnceDistinct(Kept(looks), |p.x|);
    var a := PlaceOf(Kept(looks), |p.x|, i);
    assert i in Kept(looks);
    KeptAndChosen(looks, 0.0);
    var n :| 0 <= n < |looks| && looks[n].i == i && looks[n].decision.Keep?;
    m, j := FindLook(round.stages, n);
    assert RoundAt(p, eps, rounds, k) && StageAt(PlanOf(p, round), round.stages, m);
    assert LookOk(p, round.stages[m].at, round.pgMaxOld, round.pgMinOld, round.stages[m].looks[j]);
  }

  // ----------------------------------------------------------------------- optimality

  /** The example's projected gradient is below the tolerance, or its variable within 1e-15 of the best value it can have. */
  ghost predicate NearlyOptimalAt(p: Problem, pt: Point, tolerance: real, i: nat) {
    && HasExample(p, pt, i)
    && (-tolerance < Projected(pt.alpha[i], p.upper[i], Gradient(p, pt.alpha, pt.w, i)) < tolerance || SettledAt(p, pt, i))
  }

  /** A sweep without updates stays where it starts, and none of the examples it chose would move. */
  lemma {:induction false} QuietSweep(plan: Plan, stages: seq<Stage>, m: nat)
    requires Follows(plan, stages) && Updates(plan, stages) == 0 && m < |stages|
    ensures stages[m].at == plan.start == EndPoint(plan, stages)
    ensures forall i :: i in Chosen(stages[m].looks, plan.tolerance) ==> !Moves(plan.p, plan.start, i)
    decreases |stages|
  {
    var last := |stages| - 1;
    FollowsPrefix(plan, stages, last);
    assert StageAt(plan, stages, last);
    if last > 0 {
      QuietSweep(plan, stages[..last], if m < last then m else last - 1);
    }
    NoneMoved(plan.p, stages[last].at, Chosen(stages[last].looks, plan.tolerance));
  }

  /** A run that stops because a sweep over all examples moved none of them has made every example nearly optimal. */
  lemma SettledIsOptimal(p: Problem, eps: real, rounds: seq<Round>, i: nat)
    requires WellPosed(p) && Run(p, eps, rounds) && rounds != [] && OutcomeOf(p, eps, Last(rounds)).StopSettled? && i < |p.x|
    ensures NearlyOptimalAt(p, RunEnd(p, rounds), 0.1 * eps, i)
  {
    var k := |rounds| - 1;
    var round := rounds[k];
    var m, j := AllKept(p, eps, rounds, k, i);
    assert RoundAt(p, eps, rounds, k);
    NeverRises(p, eps, rounds, k);
    QuietRound(PlanOf(p, round), round.stages, m, j, 0.1 * eps);
  }

  lemma QuietRound(plan: Plan, stages: seq<Stage>, m: nat, j: nat, wider: real)
    requires Follows(plan, stages) && Updates(plan, stages) == 0 && plan.tolerance <= wider && PointOk(plan.p, plan.start)
    requires m < |stages| && j < |stages[m].looks| && stages[m].looks[j].decision.Keep?
    requires LookOk(plan.p, stages[m].at, plan.pgMaxOld, plan.pgMinOld, stages[m].looks[j])
    ensures NearlyOptimalAt(plan.p, EndPoint(plan, stages), wider, stages[m].looks[j].i)
  {
    QuietSweep(plan, stages, m);
    QuietLook(plan.p, stages[m].at, plan.pgMaxOld, plan.pgMinOld, plan.tolerance, wider, stages[m].looks, j);
  }

  /** An example that was kept and not chosen, or chosen and would not move, is nearly optimal. */
  lemma QuietLook(p: Problem, pt: Point, pgMaxOld: Limit, pgMinOld: Limit, tolerance: real, wider: real, looks: seq<Look>, j: nat)
    requires j < |looks| && LookOk(p, pt, pgMaxOld, pgMinOld, looks[j]) && looks[j].decision.Keep? && tolerance <= wider && PointOk(p, pt)
    requires forall i :: i in Chosen(looks, tolerance) ==> !Moves(p, pt, i)
    ensures NearlyOptimalAt(p, pt, wider, looks[j].i)
  {
    KeptAndChosen(looks, tolerance);
    assert Large(looks[j].decision.pg, wider) ==> Picked(looks[j], tolerance);
    UpdatedIsBest(p, pt, looks[j].i);
  }

  /** A run that stops because the spread is narrow has, in its last sweep, seen every example with a projected gradient within that spread. */
  lemma NarrowSpread(p: Problem, eps: real, rounds: seq<Round>, i: nat, i': nat)
    requires Run(p, eps, rounds) && rounds != [] && OutcomeOf(p, eps, Last(rounds)).StopNarrow? && i < |p.x| && i' < |p.x|
    ensures var round := Last(rounds);
      exists m: nat, j: nat, m': nat, j': nat :: SeenWithin(p, round, eps, m, j, i, m', j', i')
  {
    var k := |rounds| - 1;
    var m, j := AllKept(p, eps, rounds, k, i);
    var m', j' := AllKept(p, eps, rounds, k, i');
    ExtremesAre(LooksOf(rounds[k]));
    assert SeenWithin(p, rounds[k], eps, m, j, i, m', j', i');
  }

  /** The looks at i and i' found projected gradients, each that of its moment, no more than eps apart. */
  ghost predicate SeenWithin(p: Problem, round: Round, eps: real, m: nat, j: nat, i: nat, m': nat, j': nat, i': nat) {
    && KeptAt(round, m, j, i) && KeptAt(round, m', j', i')
    && HasExample(p, round.stages[m].at, i) && HasExample(p, round.stages[m'].at, i')
    && ProjectedAt(p, round.stages[m].at, i) - ProjectedAt(p, round.stages[m'].at, i') <= eps
  }

  ghost function ProjectedAt(p: Problem, pt: Point, i: nat): real
    requires HasExample(p, pt, i)
  {
    Projected(pt.alpha[i], p.upper[i], Gradient(p, pt.alpha, pt.w, i))
  }

  // ------------------------------------------------------------------------- the run

  datatype Ending = OutOfIterations | AllSettled | SpreadNarrow

  /** The run ended by the rule it names, or no rule has ended it. */
  ghost predicate EndingOk(p: Problem, eps: real, rounds: seq<Round>, ending: Ending) {
    match ending
    case AllSettled => rounds != [] && OutcomeOf(p, eps, Last(rounds)).StopSettled?
    case SpreadNarrow => rounds != [] && OutcomeOf(p, eps, Last(rounds)).StopNarrow?
    case OutOfIterations => rounds != [] ==> var o := OutcomeOf(p, eps, Last(rounds)); !o.StopSettled? && !o.StopNarrow?
  }

  /** The examples that are active: those the last sweep kept, or all. */
  ghost predicate Remaining(p: Problem, eps: real, rounds: seq<Round>, active: seq<nat>) {
    if rounds == [] || OutcomeOf(p, eps, Last(rounds)).StartOver? then Permutation(active, |p.x|)
    else active == Kept(LooksOf(Last(rounds)))
  }

  /** Between two sweeps. */
  ghost predicate RunOk(p: Problem, eps: real, rounds: seq<Round>, pt: Point, idx: seq<nat>, active: nat) {
    && Permutation(idx, |p.x|) && active <= |p.x| && AllAtBound(p, pt.alpha, idx, active, |p.x|)
    && Run(p, eps, rounds) && pt == RunEnd(p, rounds)
  }

  /** The next sweep. */
  ghost function Upcoming(active: seq<nat>, pgMaxOld: Limit, pgMinOld: Limit, eps1: real, candidates: nat, pt: Point): Round {
    Round(active, pgMaxOld, pgMinOld, eps1, 0.1 * eps1, candidates, pt, [])
  }

  lemma ShuffledBounds(p: Problem, alpha: seq<real>, idx: seq<nat>, idx': seq<nat>, active: nat)
    requires AllAtBound(p, alpha, idx, active, |idx|) && active <= |idx| == |idx'| && idx'[active..] == idx[active..]
    ensures AllAtBound(p, alpha, idx', active, |idx|)
  {
    forall q: nat | active <= q < |idx|
      ensures BoundAt(p, alpha, idx', q)
    {
      assert BoundAt(p, alpha, idx, q);
      assert idx'[q] == idx'[active..][q - active] && idx[q] == idx[active..][q - active];
    }
  }

  /** The shuffle and the blocks of the sweep do not change how it joins the run. */
  lemma JoinsShuffled(p: Problem, eps: real, rounds: seq<Round>, before: Round, after: Round, idx: seq<nat>)
    requires Joins(p, eps, rounds, before) && after == before.(active := after.active, stages := after.stages)
    requires multiset(after.active) == multiset(before.active) && |after.active| == |before.active| <= |idx|
    requires Permutation(idx, |p.x|) && after.active == idx[..|after.active|]
    ensures Joins(p, eps, rounds, after)
  {
    if |after.active| == |p.x| {
      assert idx[..|after.active|] == idx;
    }
  }

  /** The shuffle touches the active part of the index only. */
  method ShuffleActive(ghost p: Problem, ghost alpha: seq<real>, index: array<nat>, active: nat, rand: nat -> nat)
    requires index.Length == |p.x| && Permutation(index[..], |p.x|) && active <= |p.x| && AllAtBound(p, alpha, index[..], active, |p.x|)
    modifies index
    ensures Permutation(index[..], |p.x|) && AllAtBound(p, alpha, index[..], active, |p.x|)
    ensures multiset(index[..][..active]) == multiset(old(index[..])[..active])
  {
    ghost var idx := index[..];
    Shuffle(index, active, rand);
    assert index[..][active..] == index[active..] && idx[active..] == old(index[active..]);
    assert index[..][..active] == index[..active] && idx[..active] == old(index[..active]);
    ShuffledBounds(p, alpha, idx, index[..], active);
  }

  /** A sweep that joins the run extends it. */
  lemma RoundDone(p: Problem, eps: real, rounds: seq<Round>, before: Round, round: Round, shuffled: seq<nat>, pt: Point)
    requires Run(p, eps, rounds) && Joins(p, eps, rounds, before) && round == before.(active := round.active, stages := round.stages)
    requires multiset(round.active) == multiset(before.active) && |round.active| == |before.active| <= |shuffled|
    requires Permutation(shuffled, |p.x|) && round.active == shuffled[..|round.active|]
    requires RoundOk(p, round) && pt == EndOf(p, round)
    ensures Run(p, eps, rounds + [round]) && pt == RunEnd(p, rounds + [round])
  {
    JoinsShuffled(p, eps, rounds, before, round, shuffled);
    RunNext(p, eps, rounds, round);
  }

  /** What a round of the record says of its sweep: where it ended, what it kept, and its results. */
  ghost predicate Swept(p: Problem, round: Round, pt: Point, kept: seq<nat>, candidates: nat, updates: nat, pgMax: Limit, pgMin: Limit) {
    && RoundOk(p, round) && pt == EndOf(p, round) && kept == Kept(LooksOf(round))
    && candidates == EndCandidates(PlanOf(p, round), round.stages) && updates == Updates(PlanOf(p, round), round.stages)
    && pgMax == Highest(LooksOf(round)) && pgMin == Lowest(LooksOf(round))
  }

  lemma SweptIs(p: Problem, before: Round, plan: Plan, stages: seq<Stage>, pt: Point, kept: seq<nat>, candidates: nat, updates: nat, pgMax: Limit, pgMin: Limit)
    requires plan == Plan(p, before.pgMaxOld, before.pgMinOld, before.tolerance, |before.active|, before.candidates, before.start)
    requires before.tolerance == 0.1 * before.eps1
    requires Follows(plan, stages) && multiset(Names(AllLooks(stages))) == multiset(before.active)
    requires pt == EndPoint(plan, stages) && kept == Kept(AllLooks(stages)) && candidates == EndCandidates(plan, stages)
    requires updates == Updates(plan, stages) && pgMax == Highest(AllLooks(stages)) && pgMin == Lowest(AllLooks(stages))
    ensures Swept(p, before.(stages := stages), pt, kept, candidates, updates, pgMax, pgMin)
  {
  }

  /** A sweep, as one round of the record. */
  method SweepRound(solver: Solver, index: array<nat>, active0: nat, candidates0: nat, pgMaxOld: Limit, pgMinOld: Limit, eps1: real)
    returns (active: nat, candidates: nat, updates: nat, pgMax: Limit, pgMin: Limit, ghost round: Round)
    requires solver.Valid() && Permutation(index[..], index.Length) && index.Length == |solver.p.x| && active0 <= index.Length
    requires 128 <= candidates0 <= 4096 && AllAtBound(solver.p, solver.alpha[..], index[..], active0, index.Length)
    modifies index, solver.alpha, solver.w
    ensures solver.Valid() && Permutation(index[..], index.Length) && active <= index.Length && 128 <= candidates <= 4096
    ensures round == Upcoming(old(index[..])[..active0], pgMaxOld, pgMinOld, eps1, candidates0, old(solver.At())).(stages := round.stages)
    ensures Swept(solver.p, round, solver.At(), index[..][..active], candidates, updates, pgMax, pgMin)
    ensures AllAtBound(solver.p, solver.alpha[..], index[..], active, index.Length)
  {
    ghost var stages;
    ghost var before := Upcoming(index[..][..active0], pgMaxOld, pgMinOld, eps1, candidates0, solver.At());
    var tolerance := 0.1 * eps1;
    ghost var plan := Plan(solver.p, pgMaxOld, pgMinOld, tolerance, active0, candidates0, before.start);
    active, candidates, updates, pgMax, pgMin, stages := Sweep(solver, index, active0, candidates0, pgMaxOld, pgMinOld, tolerance);
    round := before.(stages := stages);
    SweptIs(solver.p, before, plan, stages, solver.At(), index[..][..active], candidates, updates, pgMax, pgMin);
  }

  /** Shuffle and sweep. */
  method Iterate(solver: Solver, index: array<nat>, active0: nat, candidates0: nat, pgMaxOld: Limit, pgMinOld: Limit, eps1: real,
                 rand: nat -> nat, ghost eps: real, ghost rounds: seq<Round>)
    returns (active: nat, candidates: nat, updates: nat, pgMax: Limit, pgMin: Limit, ghost round: Round)
    requires solver.Valid() && 128 <= candidates0 <= 4096 && index.Length == |solver.p.x|
    requires RunOk(solver.p, eps, rounds, solver.At(), index[..], active0)
    requires Joins(solver.p, eps, rounds, Upcoming(index[..][..active0], pgMaxOld, pgMinOld, eps1, candidates0, solver.At()))
    modifies index, solver.alpha, solver.w
    ensures solver.Valid() && 128 <= candidates <= 4096 && RunOk(solver.p, eps, rounds + [round], solver.At(), index[..], active)
    ensures round.eps1 == eps1 && Swept(solver.p, round, solver.At(), index[..][..active], candidates, updates, pgMax, pgMin)
  {
    ghost var before := Upcoming(index[..][..active0], pgMaxOld, pgMinOld, eps1, candidates0, solver.At());
    ShuffleActive(solver.p, solver.alpha[..], index, active0, rand);
    ghost var shuffled := index[..];
    active, candidates, updates, pgMax, pgMin, round := SweepRound(solver, index, active0, candidates0, pgMaxOld, pgMinOld, eps1);
    RoundDone(solver.p, eps, rounds, before, round, shuffled, solver.At());
  }

  /** One iteration with its stopping rules. */
  method Advance(solver: Solver, index: array<nat>, active0: nat, candidates0: nat, pgMaxOld0: Limit, pgMinOld0: Limit, eps: real, eps10: real,
                 rand: nat -> nat, ghost rounds0: seq<Round>)
    returns (active: nat, candidates: nat, pgMaxOld: Limit, pgMinOld: Limit, eps1: real, ending: Ending, ghost rounds: seq<Round>)
    requires solver.Valid() && 128 <= candidates0 <= 4096 && index.Length == |solver.p.x|
    requires RunOk(solver.p, eps, rounds0, solver.At(), index[..], active0)
    requires Joins(solver.p, eps, rounds0, Upcoming(index[..][..active0], pgMaxOld0, pgMinOld0, eps10, candidates0, solver.At()))
    modifies index, solver.alpha, solver.w
    ensures solver.Valid() && 128 <= candidates <= 4096 && |rounds| == |rounds0| + 1 && rounds[..|rounds0|] == rounds0
    ensures RunOk(solver.p, eps, rounds, solver.At(), index[..], active) && EndingOk(solver.p, eps, rounds, ending)
    ensures Remaining(solver.p, eps, rounds, index[..][..active])
    ensures ending.OutOfIterations? ==> Joins(solver.p, eps, rounds, Upcoming(index[..][..active], pgMaxOld, pgMinOld, eps1, candidates, solver.At()))
  {
    var updates, pgMax, pgMin;
    ghost var round;
    active, candidates, updates, pgMax, pgMin, round :=
      Iterate(solver, index, active0, candidates0, pgMaxOld0, pgMinOld0, eps10, rand, eps, rounds0);
    rounds := rounds0 + [round];
    eps1, ending, pgMaxOld, pgMinOld := eps10, OutOfIterations, Infinite, Infinite;
    var outcome := AfterSweep(updates, active, index.Length, eps, eps1, pgMax, pgMin);
    assert outcome == OutcomeOf(solver.p, eps, round);
    match outcome {
      case StopSettled =>
        ending := AllSettled;
      case StopNarrow =>
        ending := SpreadNarrow;
      case StartOver(next) =>
        eps1, active := next, index.Length;
        assert index[..][..active] == index[..];
      case GoOn(next, hi, lo) =>
        eps1, pgMaxOld, pgMinOld := next, hi, lo;
    }
  }

  lemma RunStart(p: Problem, eps: real, idx: seq<nat>)
    requires |idx| == |p.x| && forall a :: 0 <= a < |idx| ==> idx[a] == a
    ensures RunOk(p, eps, [], Zero(p), idx, |p.x|) && Remaining(p, eps, [], idx[..|p.x|])
    ensures Joins(p, eps, [], Upcoming(idx[..|p.x|], Infinite, Infinite, 0.1, 256, Zero(p)))
  {
    Apart(idx);
    assert idx[..|p.x|] == idx;
  }

  /**
    Every run, for any tolerance, any bound on the iterations and any random numbers, is a
    sequence of sweeps: from zero and with everything active, each sweep works through its
    blocks from the state it finds, looks at every example active at its start exactly once,
    and hands its state, its kept examples and its thresholds to the next as the rules say.
    The solver ends in the state of the last sweep, feasible and coupled and with an objective
    of at most 0, and every example outside the active set is at a bound.
  */
  method Solve(p: Problem, eps: real, maxIter: nat, rand: (nat, nat) -> nat)
    returns (solver: Solver, index: array<nat>, active: nat, iter: nat, ending: Ending, ghost rounds: seq<Round>)
    requires WellPosed(p)
    ensures solver.Valid() && solver.p == p && Run(p, eps, rounds) && solver.At() == RunEnd(p, rounds) && solver.Value() <= 0.0
    ensures Permutation(index[..], |p.x|) && active <= |p.x| && AllAtBound(p, solver.alpha[..], index[..], active, |p.x|)
    ensures |rounds| == iter <= maxIter && EndingOk(p, eps, rounds, ending) && (ending.OutOfIterations? ==> iter == maxIter)
    ensures Remaining(p, eps, rounds, index[..][..active])
  {
    solver := new Solver(p);
    index := new nat[|p.x|](i => i);
    active, iter, ending, rounds := |p.x|, 0, OutOfIterations, [];
    var candidates, eps1, pgMaxOld, pgMinOld := 256, 0.1, Infinite, Infinite;
    RunStart(p, eps, index[..]);
    while ending.OutOfIterations? && iter < maxIter
      invariant solver.Valid() && solver.p == p && fresh(solver.alpha) && fresh(solver.w) && fresh(index) && index.Length == |p.x|
      invariant RunOk(p, eps, rounds, solver.At(), index[..], active) && EndingOk(p, eps, rounds, ending)
      invariant ending.OutOfIterations? ==> Joins(p, eps, rounds, Upcoming(index[..][..active], pgMaxOld, pgMinOld, eps1, candidates, solver.At()))
      invariant Remaining(p, eps, rounds, index[..][..active]) && |rounds| == iter <= maxIter && 128 <= candidates <= 4096
      decreases maxIter - iter
    {
      active, candidates, pgMaxOld, pgMinOld, eps1, ending, rounds :=
        Advance(solver, index, active, candidates, pgMaxOld, pgMinOld, eps, eps1, i => rand(iter, i), rounds);
      iter := iter + 1;
    }
    EndsBelowZero(p, eps, rounds);
  }

  lemma EndsBelowZero(p: Problem, eps: real, rounds: seq<Round>)
    requires WellPosed(p) && Run(p, eps, rounds)
    ensures PointOk(p, RunEnd(p, rounds)) && ValueAt(p, RunEnd(p, rounds)) <= 0.0
  {
    if rounds == [] {
      ZeroStart(p, Zero(p).alpha, Zero(p).w);
    } else {
      NeverRises(p, eps, rounds, |rounds| - 1);
    }
  }
}
