/**
  The whole run of the Crammer-Singer solver (trident-workloads/liblinear/linear.cpp,
  Solver_MCSVM_CS::Solve): passes over the active examples in random order, examples that
  retire from the active set, and the rules for starting over and for stopping.
*/
module CrammerRuns {
  import opened Reals
  import opened SparseVectors
  import opened CrammerSinger
  import opened CrammerOrder
  import opened CrammerWeights
  import opened CrammerDual
  import opened CrammerRow
  import opened Permutations

  // ------------------------------------------------------------------- the state of a run

  /**
    The rows and weights, with two things the program does not keep: the variables as w has seen
    them, and the number of visits in which a step did not reach w.
  */
  datatype State = State(views: seq<View>, ws: seq<seq<real>>, seen: seq<seq<real>>, losses: nat)

  ghost function Alphas(views: seq<View>): seq<seq<real>> {
    seq(|views|, i requires 0 <= i < |views| => views[i].al)
  }

  ghost predicate ViewOk(p: Problem, views: seq<View>, i: nat) {
    && i < |views| && ExampleOk(p, i)
    && RowOk(p.classes, p.y[i], p.c[p.y[i]], views[i].al, views[i].ai, views[i].yIndex, views[i].active)
  }

  /** Every row keeps its invariant, and w is the sum of the examples times the variables it has seen. */
  ghost predicate StateOk(p: Problem, st: State) {
    && |st.views| == |p.x| && (forall i: nat {:trigger ViewOk(p, st.views, i)} :: i < |p.x| ==> ViewOk(p, st.views, i))
    && Coupled(p, st.seen, st.ws) && (st.losses == 0 ==> st.seen == Alphas(st.views))
  }

  ghost function Value(p: Problem, st: State): real
    requires |st.views| == |p.y|
  {
    CrammerDual.Objective(p, Alphas(st.views), st.ws)
  }

  ghost predicate Near(bound: real, a: real, b: real) {
    -bound <= a - b <= bound
  }

  /** The variables of example i differ from what w has seen by at most bound. */
  ghost predicate Drift(st: State, i: nat, bound: real) {
    && i < |st.views| && i < |st.seen| && |st.seen[i]| == |st.views[i].al|
    && forall m :: 0 <= m < |st.seen[i]| ==> Near(bound, st.views[i].al[m], st.seen[i][m])
  }

  /** What a visit to example i leaves: a new row and new weights. */
  ghost function Visited(st: State, i: nat, v: View, ws: seq<seq<real>>): State
    requires i < |st.views| && i < |st.seen| && |st.seen[i]| == |st.views[i].al| == |v.al|
  {
    State(st.views[i := v], ws, st.seen[i := Plus(st.seen[i], KeptSteps(st.views[i].al, v.al))],
          if NothingLost(st.views[i].al, v.al) then st.losses else st.losses + 1)
  }

  lemma SeenSize(p: Problem, st: State, i: nat)
    requires StateOk(p, st) && i < |p.x|
    ensures i < |st.seen| && |st.seen[i]| == |st.views[i].al| == p.classes
  {
    assert ViewOk(p, st.views, i);
  }

  /** A visit keeps the state in order. */
  lemma VisitOk(p: Problem, st: State, i: nat, v: View, ws: seq<seq<real>>)
    requires WellPosed(p) && StateOk(p, st) && i < |p.x| && |v.al| == p.classes && |st.seen[i]| == |st.views[i].al| == p.classes
    requires ViewOk(p, st.views[i := v], i) && Moved(st.ws, ws, KeptSteps(st.views[i].al, v.al), p.x[i])
    ensures StateOk(p, Visited(st, i, v, ws))
  {
    var st' := Visited(st, i, v, ws);
    forall j: nat | j < |p.x|
      ensures ViewOk(p, st'.views, j)
    {
      assert j != i ==> ViewOk(p, st.views, j);
    }
    MovedCouples(p, st.seen, st.ws, i, KeptSteps(st.views[i].al, v.al), ws);
    if st'.losses == 0 {
      AllReach(st.views[i].al, v.al);
      assert st'.seen == Alphas(st'.views);
    }
  }

  /** As long as no step is lost, a visit does not raise the objective. */
  lemma VisitValue(p: Problem, st: State, i: nat, v: View, ws: seq<seq<real>>)
    requires WellPosed(p) && StateOk(p, st) && i < |p.x| && |v.al| == p.classes && |st.seen[i]| == |st.views[i].al| == p.classes
    requires ExampleOk(p, i) && Covers(st.ws, p.x[i]) && |st.ws| == p.classes
    requires Moved(st.ws, ws, KeptSteps(st.views[i].al, v.al), p.x[i])
    requires Sum(Gains(SquaredNorm(p.x[i]), ClassGradients(st.ws, p.x[i], p.y[i]), st.views[i].al, v.al)) <= 0.0
    ensures Visited(st, i, v, ws).losses == 0 ==> Value(p, Visited(st, i, v, ws)) <= Value(p, st)
  {
    var st' := Visited(st, i, v, ws);
    if st'.losses == 0 {
      var als := Alphas(st.views);
      VisitObjective(p, als, st.ws, i, v.al, ws);
      assert Alphas(st'.views) == als[i := v.al];
    }
  }

  /** A visit adds less than 1e-12 to the drift of its example, and nothing to that of the others. */
  lemma VisitDrift(st: State, i: nat, v: View, ws: seq<seq<real>>, j: nat, bound: real)
    requires i < |st.views| && i < |st.seen| && |st.seen[i]| == |st.views[i].al| == |v.al| && Drift(st, j, bound)
    ensures Drift(Visited(st, i, v, ws), j, if j == i then bound + 0.000000000001 else bound)
  {
    var st' := Visited(st, i, v, ws);
    if j == i {
      var steps := KeptSteps(st.views[i].al, v.al);
      forall m | 0 <= m < |v.al|
        ensures Near(bound + 0.000000000001, v.al[m], st'.seen[i][m])
      {
        assert Near(bound, st.views[i].al[m], st.seen[i][m]);
        assert steps[m] == Kept(v.al[m] - st.views[i].al[m]);
      }
    }
  }

  lemma WiderDrift(st: State, i: nat, bound: real, wider: real)
    requires Drift(st, i, bound) && bound <= wider
    ensures Drift(st, i, wider)
  {
    forall m | 0 <= m < |st.seen[i]|
      ensures Near(wider, st.views[i].al[m], st.seen[i][m])
    {
      assert Near(bound, st.views[i].al[m], st.seen[i][m]);
    }
  }

  // ------------------------------------------------------------------------ the record

  /** One turn of a pass: the example, the state before and after, and the spread that counts for stopping. */
  datatype Visit = Visit(i: nat, before: State, after: State, spread: Limit)

  /** An example with a positive norm is visited as VisitedRow says, and w takes the steps that are not tiny; any other is left alone. */
  ghost predicate VisitSpec(p: Problem, visit: Visit) {
    && ExampleOk(p, visit.i) && visit.i < |visit.before.views| && visit.i < |visit.before.seen| && visit.i < |visit.after.views|
    && if SquaredNorm(p.x[visit.i]) > 0.0 then
      var i, x, y := visit.i, p.x[visit.i], p.y[visit.i];
      var before, after := visit.before.views[i], visit.after.views[i];
      && |visit.before.seen[i]| == |before.al| == |after.al| && visit.after == Visited(visit.before, i, after, visit.after.ws)
      && Moved(visit.before.ws, visit.after.ws, KeptSteps(before.al, after.al), x)
      && Covers(visit.before.ws, x) && VisitedRow(SquaredNorm(x), ClassGradients(visit.before.ws, x, y), y, p.c[y], before, after, visit.spread)
    else visit.after == visit.before && visit.spread.Infinite?
  }

  ghost function Names(log: seq<Visit>): seq<nat> {
    seq(|log|, k requires 0 <= k < |log| => log[k].i)
  }

  /** The visit ends with the example leaving the active set. */
  ghost predicate Retires(p: Problem, visit: Visit) {
    visit.i < |p.x| && visit.i < |visit.after.views| && SquaredNorm(p.x[visit.i]) > 0.0 && visit.after.views[visit.i].active <= 1
  }

  /** The examples that have not retired, in the order of their visits. */
  ghost function Stayed(p: Problem, log: seq<Visit>): seq<nat> {
    if log == [] then []
    else Stayed(p, log[..|log| - 1]) + if Retires(p, log[|log| - 1]) then [] else [log[|log| - 1].i]
  }

  /** stopping after these visits; Infinite stands for -INF. */
  ghost function Stopping(log: seq<Visit>): Limit {
    if log == [] then Infinite
    else
      var before := Stopping(log[..|log| - 1]);
      match log[|log| - 1].spread
      case Finite(x) => Larger(before, x)
      case Infinite => before
  }

  /** It is the largest spread of any visit, and -INF if no visit had one. */
  lemma {:induction false} StoppingIs(log: seq<Visit>)
    ensures forall k :: 0 <= k < |log| && log[k].spread.Finite? ==> Stopping(log).Finite? && log[k].spread.value <= Stopping(log).value
    ensures Stopping(log).Finite? ==> exists k :: 0 <= k < |log| && log[k].spread == Stopping(log)
    decreases |log|
  {
    if log != [] {
      var m := |log| - 1;
      var before := log[..m];
      StoppingIs(before);
      assert forall k :: 0 <= k < m ==> before[k] == log[k];
      if Stopping(log).Finite? && Stopping(log) != log[m].spread {
        var k :| 0 <= k < m && before[k].spread == Stopping(before);
        assert log[k].spread == Stopping(log);
      }
    }
  }

  ghost predicate TurnOk(p: Problem, log: seq<Visit>, st0: State, k: nat) {
    k < |log| && VisitSpec(p, log[k]) && StateOk(p, log[k].after) && log[k].before == if k == 0 then st0 else log[k - 1].after
  }

  /** The visits lead, one after the other, from st0 to st. */
  ghost predicate Chain(p: Problem, log: seq<Visit>, st0: State, st: State) {
    && (forall k: nat {:trigger TurnOk(p, log, st0, k)} :: k < |log| ==> TurnOk(p, log, st0, k))
    && st == if log == [] then st0 else log[|log| - 1].after
  }

  lemma ChainNext(p: Problem, log: seq<Visit>, st0: State, st: State, visit: Visit)
    requires Chain(p, log, st0, st) && VisitSpec(p, visit) && visit.before == st && StateOk(p, visit.after)
    ensures Stayed(p, log + [visit]) == Stayed(p, log) + if Retires(p, visit) then [] else [visit.i]
    ensures Chain(p, log + [visit], st0, visit.after) && Names(log + [visit]) == Names(log) + [visit.i]
    ensures Stopping(log + [visit]) == if visit.spread.Finite? then Larger(Stopping(log), visit.spread.value) else Stopping(log)
  {
    var log' := log + [visit];
    assert log'[..|log|] == log;
    forall k: nat | k < |log'|
      ensures TurnOk(p, log', st0, k)
    {
      assert k < |log| ==> TurnOk(p, log, st0, k);
    }
  }

  // --------------------------------------------------------------------- within a pass

  /** Position q: outside the active part stands a retired example; only visited examples may have drifted further. */
  ghost predicate PlaceOk(st: State, idx: seq<nat>, s: nat, active: nat, bound: real, q: nat) {
    && q < |idx| && idx[q] < |st.views| && (q >= active ==> st.views[idx[q]].active <= 1)
    && Drift(st, idx[q], if s <= q < active then bound else bound + 0.000000000001)
  }

  ghost predicate Passing(p: Problem, st: State, idx: seq<nat>, s: nat, active: nat, bound: real) {
    && Permutation(idx, |p.x|) && s <= active <= |p.x|
    && forall q: nat {:trigger PlaceOk(st, idx, s, active, bound, q)} :: q < |p.x| ==> PlaceOk(st, idx, s, active, bound, q)
  }

  lemma PassNext(p: Problem, st: State, idx: seq<nat>, s: nat, active: nat, bound: real, v: View, ws: seq<seq<real>>)
    requires Passing(p, st, idx, s, active, bound) && s < active && StateOk(p, st)
    requires |st.seen[idx[s]]| == |st.views[idx[s]].al| == |v.al|
    ensures Passing(p, Visited(st, idx[s], v, ws), idx, s + 1, active, bound)
  {
    var st', next := Visited(st, idx[s], v, ws), s + 1;
    Apart(idx);
    forall q: nat | q < |p.x|
      ensures PlaceOk(st', idx, next, active, bound, q)
    {
      assert PlaceOk(st, idx, s, active, bound, q);
      VisitDrift(st, idx[s], v, ws, idx[q], if s <= q < active then bound else bound + 0.000000000001);
    }
  }

  lemma PassSkip(p: Problem, st: State, idx: seq<nat>, s: nat, active: nat, bound: real)
    requires Passing(p, st, idx, s, active, bound) && s < active
    ensures Passing(p, st, idx, s + 1, active, bound)
  {
    var next := s + 1;
    forall q: nat | q < |p.x|
      ensures PlaceOk(st, idx, next, active, bound, q)
    {
      assert PlaceOk(st, idx, s, active, bound, q);
      if q == s {
        WiderDrift(st, idx[q], bound, bound + 0.000000000001);
      }
    }
  }

  /** The example at s retires: the last active one takes its place, to be visited next. */
  lemma PassRetire(p: Problem, st: State, idx: seq<nat>, s: nat, active: nat, bound: real, v: View, ws: seq<seq<real>>)
    requires Passing(p, st, idx, s, active + 1, bound) && s <= active && StateOk(p, st) && v.active <= 1
    requires |st.seen[idx[s]]| == |st.views[idx[s]].al| == |v.al|
    ensures Passing(p, Visited(st, idx[s], v, ws), idx[s := idx[active]][active := idx[s]], s, active, bound)
  {
    var st', idx', wide := Visited(st, idx[s], v, ws), idx[s := idx[active]][active := idx[s]], active + 1;
    SwappedPermutation(idx, |p.x|, s, active);
    Apart(idx);
    forall q: nat | q < |p.x|
      ensures PlaceOk(st', idx', s, active, bound, q)
    {
      var r := if q == s then active else if q == active then s else q;
      assert idx'[q] == idx[r];
      assert PlaceOk(st, idx, s, wide, bound, r);
      VisitDrift(st, idx[s], v, ws, idx[r], if s <= r < wide then bound else bound + 0.000000000001);
    }
  }

  // -------------------------------------------------------------------------- the rows

  ghost predicate ShapedAt(p: Problem, rows: seq<Row>, i: nat) {
    && i < |rows| && ExampleOk(p, i)
    && rows[i].n == p.classes && rows[i].y == p.y[i] && rows[i].c == p.c[p.y[i]]
    && rows[i].alpha.Length == p.classes && rows[i].alphaIndex.Length == p.classes
  }

  ghost predicate ApartAt(rows: seq<Row>, i: nat, j: nat) {
    i < |rows| && j < |rows| && (i != j ==> rows[i] != rows[j] && rows[i].alpha != rows[j].alpha && rows[i].alphaIndex != rows[j].alphaIndex)
  }

  /** One row for each example, no two of which share anything. */
  ghost predicate Shaped(p: Problem, rows: seq<Row>) {
    && |rows| == |p.x|
    && (forall i: nat {:trigger ShapedAt(p, rows, i)} :: i < |rows| ==> ShapedAt(p, rows, i))
    && (forall i: nat, j: nat {:trigger ApartAt(rows, i, j)} :: i < |rows| && j < |rows| ==> ApartAt(rows, i, j))
  }

  ghost function Views(rows: seq<Row>): (vs: seq<View>)
    reads rows, (set r <- rows :: r.alpha), (set r <- rows :: r.alphaIndex)
    ensures |vs| == |rows| && forall i {:trigger vs[i]} :: 0 <= i < |rows| ==> vs[i] == rows[i].Shown()
  {
    seq(|rows|, i requires 0 <= i < |rows| reads rows, (set r <- rows :: r.alpha), (set r <- rows :: r.alphaIndex) => rows[i].Shown())
  }

  /** The state is what the rows and the table hold. */
  ghost predicate Shows(p: Problem, rows: seq<Row>, w: array2<real>, st: State)
    reads rows, (set r <- rows :: r.alpha), (set r <- rows :: r.alphaIndex), w
  {
    w.Length0 == p.n && w.Length1 == p.classes && st.views == Views(rows) && st.ws == Columns(w)
  }

  lemma VisitDone(p: Problem, st: State, i: nat, v: View, ws: seq<seq<real>>, spread: Limit)
    requires WellPosed(p) && StateOk(p, st) && i < |p.x| && ExampleOk(p, i) && |v.al| == p.classes && |st.seen[i]| == |st.views[i].al| == p.classes
    requires RowOk(p.classes, p.y[i], p.c[p.y[i]], v.al, v.ai, v.yIndex, v.active) && SquaredNorm(p.x[i]) > 0.0
    requires Moved(st.ws, ws, KeptSteps(st.views[i].al, v.al), p.x[i]) && Covers(st.ws, p.x[i])
    requires VisitedRow(SquaredNorm(p.x[i]), ClassGradients(st.ws, p.x[i], p.y[i]), p.y[i], p.c[p.y[i]], st.views[i], v, spread)
    requires Sum(Gains(SquaredNorm(p.x[i]), ClassGradients(st.ws, p.x[i], p.y[i]), st.views[i].al, v.al)) <= 0.0
    ensures StateOk(p, Visited(st, i, v, ws)) && VisitSpec(p, Visit(i, st, Visited(st, i, v, ws), spread))
    ensures Visited(st, i, v, ws).losses == 0 ==> Value(p, Visited(st, i, v, ws)) <= Value(p, st)
  {
    assert ViewOk(p, st.views[i := v], i);
    VisitOk(p, st, i, v, ws);
    VisitValue(p, st, i, v, ws);
  }

  /** One visit, as it changes the state. */
  method VisitExample(ghost p: Problem, rows: seq<Row>, i: nat, a: real, x: seq<Feature>, w: array2<real>, ghost st: State)
    returns (retired: bool, spread: Limit, ghost v: View, ghost ws: seq<seq<real>>)
    requires WellPosed(p) && Shaped(p, rows) && Shows(p, rows, w, st) && StateOk(p, st) && i < |rows| && x == p.x[i] && a == SquaredNorm(x) && a > 0.0
    modifies rows[i], rows[i].alpha, rows[i].alphaIndex, w
    ensures |v.al| == |st.seen[i]| == |st.views[i].al| && Shows(p, rows, w, Visited(st, i, v, ws)) && StateOk(p, Visited(st, i, v, ws))
    ensures Visited(st, i, v, ws).losses == 0 ==> Value(p, Visited(st, i, v, ws)) <= Value(p, st)
    ensures (retired <==> v.active <= 1) && VisitSpec(p, Visit(i, st, Visited(st, i, v, ws), spread))
  {
    assert ShapedAt(p, rows, i) && ViewOk(p, st.views, i) && st.views[i] == rows[i].Shown();
    SeenSize(p, st, i);
    retired, spread := rows[i].Visit(a, x, w);
    v, ws := rows[i].Shown(), Columns(w);
    VisitDone(p, st, i, v, ws, spread);
    forall j: nat | j < |rows|
      ensures rows[j].Shown() == st.views[i := v][j]
    {
      assert ApartAt(rows, i, j) && st.views[j] == old(rows[j].Shown());
    }
    assert Views(rows) == st.views[i := v];
  }

  // -------------------------------------------------------------------------- one pass

  ghost predicate IndexApart(rows: seq<Row>, index: array<nat>) {
    forall i {:trigger rows[i]} :: 0 <= i < |rows| ==> rows[i].alphaIndex != index
  }

  ghost predicate Norms(p: Problem, qd: seq<real>) {
    |qd| == |p.x| && forall i :: 0 <= i < |qd| ==> qd[i] == SquaredNorm(p.x[i])
  }

  /** Between two visits of a pass. */
  ghost predicate PassOk(p: Problem, rows: seq<Row>, index: array<nat>, w: array2<real>, qd: seq<real>, st: State, s: nat, active: nat, bound: real)
    reads rows, (set r <- rows :: r.alpha), (set r <- rows :: r.alphaIndex), w, index
  {
    && WellPosed(p) && Shaped(p, rows) && IndexApart(rows, index) && Norms(p, qd) && index.Length == |p.x|
    && Shows(p, rows, w, st) && StateOk(p, st) && Passing(p, st, index[..], s, active, bound)
  }

  /** The record of the pass so far: who has been visited, with what result, and who is still to come. */
  ghost predicate Logged(p: Problem, start: seq<nat>, idx: seq<nat>, s: nat, active: nat, active0: nat,
                         st0: State, st: State, stopping: Limit, log: seq<Visit>) {
    && Chain(p, log, st0, st) && Accounted(start, idx, 0, s, active, active0, Names(log)) && stopping == Stopping(log)
    && s <= |idx| && idx[..s] == Stayed(p, log)
  }

  lemma LoggedNext(p: Problem, start: seq<nat>, idx: seq<nat>, s: nat, active: nat, active0: nat, st0: State, st: State,
                   stopping: Limit, log: seq<Visit>, visit: Visit)
    requires Logged(p, start, idx, s, active, active0, st0, st, stopping, log) && s < active <= |idx| && VisitSpec(p, visit)
    requires visit.before == st && visit.i == idx[s] && StateOk(p, visit.after) && !Retires(p, visit)
    ensures Logged(p, start, idx, s + 1, active, active0, st0, visit.after,
                   if visit.spread.Finite? then Larger(stopping, visit.spread.value) else stopping, log + [visit])
  {
    ChainNext(p, log, st0, st, visit);
    NextRest(idx, s, active);
    AccountedMove(start, idx, idx, 0, s, s + 1, active, active, active0, Names(log), visit.i);
  }

  lemma LoggedOut(p: Problem, start: seq<nat>, idx: seq<nat>, s: nat, active: nat, active0: nat, st0: State, st: State,
                  stopping: Limit, log: seq<Visit>, visit: Visit)
    requires Logged(p, start, idx, s, active + 1, active0, st0, st, stopping, log) && s <= active < |idx| && VisitSpec(p, visit)
    requires visit.before == st && visit.i == idx[s] && visit.spread.Infinite? && StateOk(p, visit.after) && Retires(p, visit)
    ensures Logged(p, start, idx[s := idx[active]][active := idx[s]], s, active, active0, st0, visit.after, stopping, log + [visit])
  {
    ChainNext(p, log, st0, st, visit);
    SwappedOut(idx, s, active);
    AccountedMove(start, idx, idx[s := idx[active]][active := idx[s]], 0, s, s, active + 1, active, active0, Names(log), visit.i);
  }

  /** A later state of the run: if nothing has been lost by then, the objective has not risen. */
  ghost predicate Descends(p: Problem, st: State, st': State) {
    |st.views| == |st'.views| == |p.y| && st.losses <= st'.losses && (st'.losses == 0 ==> Value(p, st') <= Value(p, st))
  }

  /** The turn of example i. */
  method Turn(p: Problem, rows: seq<Row>, i: nat, w: array2<real>, qd: seq<real>, ghost st: State)
    returns (retired: bool, spread: Limit, ghost visit: Visit)
    requires WellPosed(p) && Shaped(p, rows) && Norms(p, qd) && Shows(p, rows, w, st) && StateOk(p, st) && i < |p.x|
    modifies rows, (set r <- rows :: r.alpha), (set r <- rows :: r.alphaIndex), w
    ensures VisitSpec(p, visit) && visit.i == i && visit.before == st && visit.spread == spread
    ensures Shows(p, rows, w, visit.after) && StateOk(p, visit.after) && Descends(p, st, visit.after)
    ensures retired <==> Retires(p, visit)
  {
    retired, spread, visit := false, Infinite, Visit(i, st, st, Infinite);
    SeenSize(p, st, i);
    assert ViewOk(p, st.views, i);
    if qd[i] > 0.0 {
      ghost var v, ws;
      assert rows[i] in rows;
      retired, spread, v, ws := VisitExample(p, rows, i, qd[i], p.x[i], w, st);
      visit := Visit(i, st, Visited(st, i, v, ws), spread);
    }
  }

  lemma TurnNext(p: Problem, st: State, idx: seq<nat>, s: nat, active: nat, bound: real, visit: Visit)
    requires Passing(p, st, idx, s, active, bound) && s < active && StateOk(p, st) && VisitSpec(p, visit) && visit.before == st && visit.i == idx[s]
    ensures Passing(p, visit.after, idx, s + 1, active, bound)
  {
    if SquaredNorm(p.x[visit.i]) > 0.0 {
      PassNext(p, st, idx, s, active, bound, visit.after.views[visit.i], visit.after.ws);
    } else {
      PassSkip(p, st, idx, s, active, bound);
    }
  }

  lemma TurnOut(p: Problem, st: State, idx: seq<nat>, s: nat, active: nat, bound: real, visit: Visit)
    requires Passing(p, st, idx, s, active + 1, bound) && s <= active && StateOk(p, st) && VisitSpec(p, visit) && visit.before == st && visit.i == idx[s]
    requires Retires(p, visit)
    ensures Passing(p, visit.after, idx[s := idx[active]][active := idx[s]], s, active, bound) && visit.spread.Infinite?
  {
    PassRetire(p, st, idx, s, active, bound, visit.after.views[visit.i], visit.after.ws);
  }

  /** The example at position s has its turn, and retires or not. */
  method PassStep(p: Problem, rows: seq<Row>, index: array<nat>, w: array2<real>, qd: seq<real>, s0: nat, active0: nat, stopping0: Limit,
                  ghost st: State, ghost bound: real, ghost start: seq<nat>, ghost wide: nat, ghost first: State, ghost log0: seq<Visit>)
    returns (s: nat, active: nat, stopping: Limit, ghost st': State, ghost log: seq<Visit>)
    requires PassOk(p, rows, index, w, qd, st, s0, active0, bound) && s0 < active0
    requires Logged(p, start, index[..], s0, active0, wide, first, st, stopping0, log0)
    modifies rows, (set r <- rows :: r.alpha), (set r <- rows :: r.alphaIndex), w, index
    ensures PassOk(p, rows, index, w, qd, st', s, active, bound) && Logged(p, start, index[..], s, active, wide, first, st', stopping, log)
    ensures active <= active0 && active - s < active0 - s0 && Descends(p, st, st')
  {
    ghost var idx := index[..];
    var retired, spread;
    ghost var visit;
    retired, spread, visit := Turn(p, rows, index[s0], w, qd, st);
    st', log := visit.after, log0 + [visit];
    assert index[..] == idx;
    if retired {
      s, active, stopping := s0, active0 - 1, stopping0;
      TurnOut(p, st, idx, s0, active, bound, visit);
      LoggedOut(p, start, idx, s0, active, wide, first, st, stopping, log0, visit);
      index[s], index[active] := index[active], index[s];
      assert index[..] == idx[s := idx[active]][active := idx[s]];
    } else {
      s, active, stopping := s0 + 1, active0, if spread.Finite? then Larger(stopping0, spread.value) else stopping0;
      TurnNext(p, st, idx, s0, active, bound, visit);
      LoggedNext(p, start, idx, s0, active, wide, first, st, stopping0, log0, visit);
    }
  }

  /** One pass: every example active at its start has one turn. */
  method Pass(p: Problem, rows: seq<Row>, index: array<nat>, w: array2<real>, qd: seq<real>, active0: nat, ghost st0: State, ghost bound: real)
    returns (active: nat, stopping: Limit, ghost st: State, ghost log: seq<Visit>)
    requires PassOk(p, rows, index, w, qd, st0, 0, active0, bound)
    modifies rows, (set r <- rows :: r.alpha), (set r <- rows :: r.alphaIndex), w, index
    ensures PassOk(p, rows, index, w, qd, st, active, active, bound) && active <= active0 && Descends(p, st0, st)
    ensures Chain(p, log, st0, st) && multiset(Names(log)) == multiset(old(index[..])[..active0]) && stopping == Stopping(log)
    ensures index[..][..active] == Stayed(p, log)
  {
    var s: nat := 0;
    active, stopping, st, log := active0, Infinite, st0, [];
    ghost var start := index[..];
    assert Names([]) == [];
    AccountedStart(start, 0, active0);
    while s < active
      invariant PassOk(p, rows, index, w, qd, st, s, active, bound) && active <= active0 && Descends(p, st0, st)
      invariant Logged(p, start, index[..], s, active, active0, st0, st, stopping, log)
      decreases active - s
    {
      s, active, stopping, st, log := PassStep(p, rows, index, w, qd, s, active, stopping, st, bound, start, active0, st0, log);
    }
    AccountedIs(start, index[..], 0, s, active, active0, Names(log));
    assert index[..][s..active] == [] && start[0..active0] == start[..active0];
  }

  // --------------------------------------------------------------------- between passes

  ghost predicate RetiredAt(st: State, idx: seq<nat>, q: nat) {
    q < |idx| && idx[q] < |st.views| && st.views[idx[q]].active <= 1
  }

  /** The index is a permutation whose positions from active on hold retired examples, and nobody has drifted further than bound. */
  ghost predicate Between(p: Problem, st: State, idx: seq<nat>, active: nat, bound: real) {
    && Permutation(idx, |p.x|) && active <= |p.x|
    && (forall q: nat {:trigger RetiredAt(st, idx, q)} :: active <= q < |p.x| ==> RetiredAt(st, idx, q))
    && AllDrift(p, st, bound)
  }

  ghost predicate AllDrift(p: Problem, st: State, bound: real) {
    forall i: nat {:trigger Drift(st, i, bound)} :: i < |p.x| ==> Drift(st, i, bound)
  }

  lemma PassBegin(p: Problem, st: State, idx: seq<nat>, idx': seq<nat>, active: nat, bound: real)
    requires Between(p, st, idx, active, bound) && Permutation(idx', |p.x|) && idx'[active..] == idx[active..] && |st.views| == |p.x|
    ensures Passing(p, st, idx', 0, active, bound)
  {
    var s: nat := 0;
    forall q: nat | q < |p.x|
      ensures PlaceOk(st, idx', s, active, bound, q)
    {
      if q >= active {
        assert idx'[q] == idx'[active..][q - active] == idx[active..][q - active] == idx[q];
        assert RetiredAt(st, idx, q);
      }
      assert Drift(st, idx'[q], bound);
      WiderDrift(st, idx'[q], bound, bound + 0.000000000001);
    }
  }

  lemma PassEnd(p: Problem, st: State, idx: seq<nat>, active: nat, bound: real, bound': real)
    requires Passing(p, st, idx, active, active, bound) && bound' == bound + 0.000000000001
    ensures Between(p, st, idx, active, bound')
  {
    forall q: nat | active <= q < |p.x|
      ensures RetiredAt(st, idx, q)
    {
      assert PlaceOk(st, idx, active, active, bound, q);
    }
    forall i: nat | i < |p.x|
      ensures Drift(st, i, bound')
    {
      var q := PlaceOf(idx, |p.x|, i);
      assert PlaceOk(st, idx, active, active, bound, q);
    }
  }

  /** All classes of all examples are active again. */
  ghost function Renewed(p: Problem, st: State): (st': State)
    ensures |st'.views| == |st.views|
  {
    st.(views := seq(|st.views|, i requires 0 <= i < |st.views| => st.views[i].(active := p.classes)))
  }

  ghost predicate FullyActive(p: Problem, st: State, active: nat) {
    active == |p.x| == |st.views| && forall i :: 0 <= i < |st.views| ==> st.views[i].active == p.classes
  }

  lemma RenewedOk(p: Problem, st: State, idx: seq<nat>, active: nat, bound: real)
    requires StateOk(p, st) && |p.y| == |p.x| && Between(p, st, idx, active, bound)
    ensures StateOk(p, Renewed(p, st)) && Between(p, Renewed(p, st), idx, |p.x|, bound) && FullyActive(p, Renewed(p, st), |p.x|)
    ensures Descends(p, st, Renewed(p, st))
  {
    var st' := Renewed(p, st);
    assert Alphas(st'.views) == Alphas(st.views);
    forall i: nat | i < |p.x|
      ensures ViewOk(p, st'.views, i) && Drift(st', i, bound)
    {
      assert ViewOk(p, st.views, i) && Drift(st, i, bound);
    }
  }

  /** active_size_i[i] = nr_class for every example. */
  method ResetAll(ghost p: Problem, rows: seq<Row>, w: array2<real>, ghost st: State)
    requires Shaped(p, rows) && Shows(p, rows, w, st) && StateOk(p, st)
    modifies rows
    ensures Shows(p, rows, w, Renewed(p, st))
  {
    for i := 0 to |rows|
      invariant Columns(w) == st.ws
      invariant forall j {:trigger rows[j]} :: 0 <= j < |rows| ==> rows[j].Shown() == if j < i then st.views[j].(active := p.classes) else st.views[j]
    {
      assert ShapedAt(p, rows, i) && ViewOk(p, st.views, i);
      rows[i].Reset();
      forall j: nat | j < |rows|
        ensures rows[j].Shown() == if j <= i then st.views[j].(active := p.classes) else st.views[j]
      {
        assert ApartAt(rows, i, j);
      }
    }
    assert Views(rows) == Renewed(p, st).views;
  }

  // --------------------------------------------------------------------------- the run

  /** The rows at the start. */
  method MakeRows(p: Problem) returns (rows: seq<Row>)
    requires WellPosed(p)
    ensures Shaped(p, rows) && forall i {:trigger rows[i]} :: 0 <= i < |rows| ==> FreshRow(p, rows[i], i)
    ensures forall i {:trigger rows[i]} :: 0 <= i < |rows| ==> fresh(rows[i]) && fresh(rows[i].alpha) && fresh(rows[i].alphaIndex)
  {
    rows := [];
    for i := 0 to |p.x|
      invariant |rows| == i && forall j {:trigger rows[j]} :: 0 <= j < i ==> FreshRow(p, rows[j], j)
      invariant forall j {:trigger rows[j]} :: 0 <= j < i ==> fresh(rows[j]) && fresh(rows[j].alpha) && fresh(rows[j].alphaIndex)
      invariant forall j: nat, k: nat {:trigger ApartAt(rows, j, k)} :: j < i && k < i ==> ApartAt(rows, j, k)
    {
      assert ExampleOk(p, i);
      var row := new Row(p.classes, p.y[i], p.c[p.y[i]]);
      ApartNext(rows, row);
      rows := rows + [row];
    }
    forall i: nat | i < |rows|
      ensures ShapedAt(p, rows, i)
    {
      assert FreshRow(p, rows[i], i);
    }
  }

  lemma ApartNext(rows: seq<Row>, row: Row)
    requires forall j: nat, k: nat {:trigger ApartAt(rows, j, k)} :: j < |rows| && k < |rows| ==> ApartAt(rows, j, k)
    requires forall j {:trigger rows[j]} :: 0 <= j < |rows| ==> rows[j] != row && rows[j].alpha != row.alpha && rows[j].alphaIndex != row.alphaIndex
    ensures forall j: nat, k: nat {:trigger ApartAt(rows + [row], j, k)} :: j <= |rows| && k <= |rows| ==> ApartAt(rows + [row], j, k)
  {
    var rows' := rows + [row];
    forall j: nat, k: nat | j <= |rows| && k <= |rows|
      ensures ApartAt(rows', j, k)
    {
      assert j < |rows| && k < |rows| ==> ApartAt(rows, j, k);
    }
  }

  /** The variables of one example at the start: all zero, in their own order, all active. */
  ghost function ZeroView(p: Problem, y: nat): View {
    View(Zeros(p.classes), seq(p.classes, m => m), y, p.classes)
  }

  /** The start of every run. */
  ghost function ZeroState(p: Problem): State
    requires |p.y| == |p.x|
  {
    State(seq(|p.x|, i requires 0 <= i < |p.x| => ZeroView(p, p.y[i])), seq(p.classes, m => Zeros(p.n)), seq(|p.x|, i => Zeros(p.classes)), 0)
  }

  /** A row as its constructor leaves it. */
  ghost predicate FreshRow(p: Problem, row: Row, i: nat)
    reads row, row.alpha, row.alphaIndex
  {
    && ExampleOk(p, i) && row.Valid() && row.n == p.classes && row.y == p.y[i] && row.c == p.c[p.y[i]]
    && row.Shown() == ZeroView(p, p.y[i])
  }

  /** Everything is zero and active at the start. */
  lemma StartOk(p: Problem, idx: seq<nat>)
    requires WellPosed(p) && |idx| == |p.x| && forall a :: 0 <= a < |idx| ==> idx[a] == a
    requires forall i: nat {:trigger ViewOk(p, ZeroState(p).views, i)} :: i < |p.x| ==> ViewOk(p, ZeroState(p).views, i)
    ensures StateOk(p, ZeroState(p)) && Between(p, ZeroState(p), idx, |p.x|, 0.0)
  {
    var st := ZeroState(p);
    assert st.seen == Alphas(st.views);
    StartCoupled(p, st);
    Apart(idx);
    forall i: nat | i < |p.x|
      ensures Drift(st, i, 0.0)
    {
    }
  }

  lemma StartCoupled(p: Problem, st: State)
    requires |st.views| == |p.x| && st.seen == Alphas(st.views)
    requires forall i: nat {:trigger ViewOk(p, st.views, i)} :: i < |p.x| ==> ViewOk(p, st.views, i)
    requires forall i, m :: 0 <= i < |p.x| && 0 <= m < |st.views[i].al| ==> st.views[i].al[m] == 0.0
    requires |st.ws| == p.classes && forall m {:trigger st.ws[m]} :: 0 <= m < |st.ws| ==> |st.ws[m]| == p.n && forall k :: 0 <= k < p.n ==> st.ws[m][k] == 0.0
    ensures Coupled(p, st.seen, st.ws)
  {
    forall i | 0 <= i < |p.x|
      ensures |st.seen[i]| == p.classes
    {
      assert ViewOk(p, st.views, i);
    }
    forall m: nat | m < p.classes
      ensures CoupledAt(p, st.seen, st.ws, m)
    {
      CombinesZero(p.x, Coefficients(st.seen, m), st.ws[m]);
    }
  }

  lemma StartValue(p: Problem, st: State)
    requires |st.views| == |p.x| == |p.y|
    requires forall i, m :: 0 <= i < |p.x| && 0 <= m < |st.views[i].al| ==> st.views[i].al[m] == 0.0
    requires forall m {:trigger st.ws[m]} :: 0 <= m < |st.ws| ==> forall k :: 0 <= k < |st.ws[m]| ==> st.ws[m][k] == 0.0
    ensures Value(p, st) == 0.0
  {
    forall m: nat | m < |st.ws|
      ensures HalfNorms(st.ws)[m] == 0.0
    {
      var w := st.ws[m];
      MulZero(0.0);
      assert forall k :: 0 <= k < |w| ==> Squares(w)[k] == 0.0;
      SumZeros(Squares(w));
    }
    SumZeros(HalfNorms(st.ws));
    var als := Alphas(st.views);
    forall i: nat | i < |als|
      ensures Linears(p, als)[i] == 0.0
    {
      SumZeros(Others(p.y[i], als[i]));
    }
    SumZeros(Linears(p, als));
  }

  predicate Below(stopping: Limit, e: real) {
    stopping.Infinite? || stopping.value < e
  }

  function Max(a: real, b: real): real { if a >= b then a else b }

  /** What comes after a pass: the end, a new start with everything active, or the next pass. */
  datatype Outcome = Stop | StartOver(epsShrink: real) | GoOn

  function AfterPass(stopping: Limit, eps: real, epsShrink: real, fromAll: bool): (o: Outcome)
    ensures o.Stop? ==> fromAll && Below(stopping, eps)
    ensures o.StartOver? ==> o.epsShrink >= eps
  {
    if Below(stopping, epsShrink) then
      if Below(stopping, eps) && fromAll then Stop else StartOver(Max(epsShrink / 2.0, eps))
    else GoOn
  }

  // ------------------------------------------------------------------------ the record of a run

  /** One pass: the examples active at its start in the order after the shuffle, eps_shrink and start_from_all, the state before it, and the visits. */
  datatype Round = Round(active: seq<nat>, epsShrink: real, fromAll: bool, start: State, log: seq<Visit>)

  ghost function EndOf(round: Round): State {
    if round.log == [] then round.start else round.log[|round.log| - 1].after
  }

  ghost function OutcomeOf(eps: real, round: Round): Outcome {
    AfterPass(Stopping(round.log), eps, round.epsShrink, round.fromAll)
  }

  /** Every active example has exactly one turn, and the turns lead from one valid state to the next. */
  ghost predicate RoundOk(p: Problem, round: Round) {
    && Chain(p, round.log, round.start, EndOf(round)) && multiset(Names(round.log)) == multiset(round.active)
    && StateOk(p, round.start) && StateOk(p, EndOf(round)) && Descends(p, round.start, EndOf(round))
  }

  /** The first pass: everything zero and active. */
  ghost predicate First(p: Problem, eps: real, round: Round) {
    |p.y| == |p.x| && round.start == ZeroState(p) && Permutation(round.active, |p.x|) && round.epsShrink == Max(10.0 * eps, 1.0) && round.fromAll
  }

  /** A later pass goes on where the one before ended, as the rules between them say. */
  ghost predicate Next(p: Problem, eps: real, before: Round, after: Round) {
    match OutcomeOf(eps, before)
    case Stop => false
    case StartOver(epsShrink) =>
      after.start == Renewed(p, EndOf(before)) && Permutation(after.active, |p.x|) && after.epsShrink == epsShrink && after.fromAll
    case GoOn =>
      after.start == EndOf(before) && multiset(after.active) == multiset(Stayed(p, before.log)) && after.epsShrink == before.epsShrink && !after.fromAll
  }

  ghost function Last(rounds: seq<Round>): Round
    requires rounds != []
  {
    rounds[|rounds| - 1]
  }

  ghost predicate Joins(p: Problem, eps: real, rounds: seq<Round>, round: Round) {
    if rounds == [] then First(p, eps, round) else Next(p, eps, Last(rounds), round)
  }

  ghost predicate RoundAt(p: Problem, eps: real, rounds: seq<Round>, k: nat) {
    k < |rounds| && RoundOk(p, rounds[k]) && Joins(p, eps, rounds[..k], rounds[k])
  }

  /** The passes of a run. */
  ghost predicate Run(p: Problem, eps: real, rounds: seq<Round>) {
    forall k: nat {:trigger RoundAt(p, eps, rounds, k)} :: k < |rounds| ==> RoundAt(p, eps, rounds, k)
  }

  /** The state the passes lead to, with everything active again if the last one asks for it. */
  ghost function RunEnd(p: Problem, eps: real, rounds: seq<Round>): State
    requires |p.y| == |p.x|
  {
    if rounds == [] then ZeroState(p)
    else if OutcomeOf(eps, Last(rounds)).StartOver? then Renewed(p, EndOf(Last(rounds)))
    else EndOf(Last(rounds))
  }

  /** The examples that are active after them: those that stayed in the last one, or all. */
  ghost predicate Remaining(p: Problem, eps: real, rounds: seq<Round>, active: seq<nat>) {
    if rounds == [] || OutcomeOf(eps, Last(rounds)).StartOver? then Permutation(active, |p.x|)
    else active == Stayed(p, Last(rounds).log)
  }

  lemma RunNext(p: Problem, eps: real, rounds: seq<Round>, round: Round)
    requires Run(p, eps, rounds) && RoundOk(p, round) && Joins(p, eps, rounds, round)
    ensures Run(p, eps, rounds + [round])
  {
    var all := rounds + [round];
    assert all[..|rounds|] == rounds;
    forall k: nat | k < |all|
      ensures RoundAt(p, eps, all, k)
    {
      assert k < |rounds| ==> RoundAt(p, eps, rounds, k) && all[..k] == rounds[..k];
    }
  }

  lemma RenewedDescends(p: Problem, st: State)
    requires |st.views| == |p.y|
    ensures Descends(p, st, Renewed(p, st))
  {
    assert Alphas(Renewed(p, st).views) == Alphas(st.views);
  }

  lemma NextDescends(p: Problem, eps: real, before: Round, after: Round)
    requires Next(p, eps, before, after) && |EndOf(before).views| == |p.y|
    ensures Descends(p, EndOf(before), after.start)
  {
    RenewedDescends(p, EndOf(before));
  }

  /** As long as no step has been lost, the objective of a run has never risen, pass by pass, from 0 at the start. */
  lemma {:induction false} NeverRises(p: Problem, eps: real, rounds: seq<Round>, k: nat)
    requires WellPosed(p) && Run(p, eps, rounds) && k < |rounds|
    ensures Descends(p, ZeroState(p), rounds[k].start) && Descends(p, rounds[k].start, EndOf(rounds[k]))
    ensures EndOf(rounds[k]).losses == 0 ==> Value(p, EndOf(rounds[k])) <= Value(p, rounds[k].start) <= 0.0
    decreases k
  {
    assert RoundAt(p, eps, rounds, k);
    StartValue(p, ZeroState(p));
    if k > 0 {
      NeverRises(p, eps, rounds, k - 1);
      assert Last(rounds[..k]) == rounds[k - 1];
      NextDescends(p, eps, rounds[k - 1], rounds[k]);
    }
  }

  lemma EndDescends(p: Problem, eps: real, rounds: seq<Round>)
    requires WellPosed(p) && Run(p, eps, rounds)
    ensures |RunEnd(p, eps, rounds).views| == |p.y| && (RunEnd(p, eps, rounds).losses == 0 ==> Value(p, RunEnd(p, eps, rounds)) <= 0.0)
  {
    StartValue(p, ZeroState(p));
    if rounds != [] {
      NeverRises(p, eps, rounds, |rounds| - 1);
      RenewedDescends(p, EndOf(Last(rounds)));
    }
  }

  // ------------------------------------------------------------------------- the rules

  /** No visit of the pass had a spread of e or more. */
  ghost predicate Calm(round: Round, e: real) {
    forall k: nat {:trigger SpreadAt(round, k)} :: SpreadAt(round, k) ==> round.log[k].spread.value < e
  }

  ghost predicate SpreadAt(round: Round, k: nat) {
    k < |round.log| && round.log[k].spread.Finite?
  }

  lemma CalmIs(round: Round, e: real)
    ensures Calm(round, e) <==> Below(Stopping(round.log), e)
  {
    StoppingIs(round.log);
    if Stopping(round.log).Finite? {
      var k: nat :| k < |round.log| && round.log[k].spread == Stopping(round.log);
      assert SpreadAt(round, k);
    }
  }

  /** Everything is active: every example, and of every example every class. */
  ghost predicate AllActive(p: Problem, round: Round) {
    Permutation(round.active, |p.x|) && FullyActive(p, round.start, |p.x|)
  }

  /** The pass is the first, or the one before it was calm by its eps_shrink. */
  ghost predicate Restarted(rounds: seq<Round>, k: nat)
    requires k < |rounds|
  {
    k == 0 || Calm(rounds[k - 1], rounds[k - 1].epsShrink)
  }

  /**
    When a run ends and how it goes on, by what its visits saw.  The first pass, and every pass
    after one that was calm by its eps_shrink, starts from everything active.  If such a pass is
    calm by eps, it is the last.  After any other calm pass the next starts from everything
    active, with eps_shrink halved but not below eps; after a pass that is not calm the next
    has the examples that stayed, the classes they kept, and the same eps_shrink.
  */
  lemma Rules(p: Problem, eps: real, rounds: seq<Round>, k: nat)
    requires Run(p, eps, rounds) && k < |rounds|
    ensures Restarted(rounds, k) ==> AllActive(p, rounds[k])
    ensures Restarted(rounds, k) && Calm(rounds[k], eps) ==> k + 1 == |rounds| && OutcomeOf(eps, rounds[k]).Stop?
    ensures k + 1 < |rounds| && Calm(rounds[k], rounds[k].epsShrink) ==>
      rounds[k + 1].start == Renewed(p, EndOf(rounds[k])) && rounds[k + 1].epsShrink == if rounds[k].epsShrink / 2.0 >= eps then rounds[k].epsShrink / 2.0 else eps
    ensures k + 1 < |rounds| && !Calm(rounds[k], rounds[k].epsShrink) ==>
      && rounds[k + 1].start == EndOf(rounds[k]) && multiset(rounds[k + 1].active) == multiset(Stayed(p, rounds[k].log))
      && rounds[k + 1].epsShrink == rounds[k].epsShrink
  {
    EpsShrinkAbove(p, eps, rounds, k);
    FromAllIs(p, eps, rounds, k);
    CalmIs(rounds[k], eps);
    CalmIs(rounds[k], rounds[k].epsShrink);
    if rounds[k].fromAll {
      FromAllMeans(p, eps, rounds, k);
    }
    if k + 1 < |rounds| {
      assert RoundAt(p, eps, rounds, k + 1) && Last(rounds[..k + 1]) == rounds[k];
    }
  }

  lemma {:induction false} StayedOfNames(p: Problem, log: seq<Visit>, v: nat)
    ensures multiset(Stayed(p, log))[v] <= multiset(Names(log))[v]
    decreases |log|
  {
    if log != [] {
      var m := |log| - 1;
      StayedOfNames(p, log[..m], v);
      assert Names(log) == Names(log[..m]) + [log[m].i];
    }
  }

  /** The active examples are distinct, and so are those with a turn. */
  lemma {:induction false} ActiveOnce(p: Problem, eps: real, rounds: seq<Round>, k: nat)
    requires Run(p, eps, rounds) && k < |rounds|
    ensures Once(rounds[k].active, |p.x|) && Once(Names(rounds[k].log), |p.x|)
    decreases k
  {
    assert RoundAt(p, eps, rounds, k);
    if Permutation(rounds[k].active, |p.x|) {
      PermutationOnce(rounds[k].active, |p.x|);
    } else {
      ActiveOnce(p, eps, rounds, k - 1);
      var log := rounds[k - 1].log;
      assert Last(rounds[..k]) == rounds[k - 1];
      forall v: nat
        ensures OnceAt(rounds[k].active, |p.x|, v)
      {
        StayedOfNames(p, log, v);
        assert OnceAt(Names(log), |p.x|, v);
      }
    }
    OnceOf(rounds[k].active, Names(rounds[k].log), |p.x|);
  }

  lemma {:induction false} StayedFrom(p: Problem, log: seq<Visit>, i: nat)
    ensures i in Stayed(p, log) <==> exists k: nat :: k < |log| && log[k].i == i && !Retires(p, log[k])
    decreases |log|
  {
    if log != [] {
      var m := |log| - 1;
      StayedFrom(p, log[..m], i);
      if k: nat :| k < |log| && log[k].i == i && !Retires(p, log[k]) {
        assert k < m ==> log[..m][k] == log[k];
      }
    }
  }

  lemma StayedIs(p: Problem, log: seq<Visit>, j: nat)
    requires Once(Names(log), |p.x|) && j < |log|
    ensures log[j].i in Stayed(p, log) <==> !Retires(p, log[j])
  {
    OnceDistinct(Names(log), |p.x|);
    Apart(Names(log));
    StayedFrom(p, log, log[j].i);
    if k: nat :| k < |log| && log[k].i == log[j].i && !Retires(p, log[k]) {
      assert Names(log)[k] == Names(log)[j];
    }
  }

  /**
    After a pass that is not calm, an example that had its turn is active in the next pass if and
    only if it has no features or kept two classes or more.
  */
  lemma StaysActive(p: Problem, eps: real, rounds: seq<Round>, k: nat, j: nat)
    requires Run(p, eps, rounds) && k + 1 < |rounds| && !Calm(rounds[k], rounds[k].epsShrink) && j < |rounds[k].log|
    ensures var visit := rounds[k].log[j];
      && visit.i < |p.x| && visit.i < |visit.after.views|
      && (visit.i in rounds[k + 1].active <==> SquaredNorm(p.x[visit.i]) <= 0.0 || visit.after.views[visit.i].active >= 2)
  {
    var round, next, i := rounds[k], rounds[k + 1], rounds[k].log[j].i;
    Rules(p, eps, rounds, k);
    ActiveOnce(p, eps, rounds, k);
    StayedIs(p, round.log, j);
    assert RoundAt(p, eps, rounds, k) && TurnOk(p, round.log, round.start, j);
    assert i in next.active <==> i in multiset(next.active);
    assert i in Stayed(p, round.log) <==> i in multiset(Stayed(p, round.log));
  }

  lemma FromAllIs(p: Problem, eps: real, rounds: seq<Round>, k: nat)
    requires Run(p, eps, rounds) && k < |rounds|
    ensures rounds[k].fromAll <==> Restarted(rounds, k)
  {
    assert RoundAt(p, eps, rounds, k);
    if k > 0 {
      assert Last(rounds[..k]) == rounds[k - 1];
      CalmIs(rounds[k - 1], rounds[k - 1].epsShrink);
    }
  }

  /** How the state at the end of a run follows from its last pass: converged, afresh after a calm pass, or as the pass left it. */
  lemma EndRules(p: Problem, eps: real, rounds: seq<Round>)
    requires |p.y| == |p.x| && Run(p, eps, rounds) && rounds != []
    ensures OutcomeOf(eps, Last(rounds)).Stop? <==> Restarted(rounds, |rounds| - 1) && Calm(Last(rounds), eps)
    ensures !OutcomeOf(eps, Last(rounds)).Stop? && Calm(Last(rounds), Last(rounds).epsShrink) ==> RunEnd(p, eps, rounds) == Renewed(p, EndOf(Last(rounds)))
    ensures OutcomeOf(eps, Last(rounds)).Stop? || !Calm(Last(rounds), Last(rounds).epsShrink) ==> RunEnd(p, eps, rounds) == EndOf(Last(rounds))
  {
    FromAllIs(p, eps, rounds, |rounds| - 1);
    EpsShrinkAbove(p, eps, rounds, |rounds| - 1);
    CalmIs(Last(rounds), eps);
    CalmIs(Last(rounds), Last(rounds).epsShrink);
  }

  /** eps_shrink starts at the larger of 10 eps and 1, never rises, and never falls below eps. */
  lemma {:induction false} EpsShrinkAbove(p: Problem, eps: real, rounds: seq<Round>, k: nat)
    requires Run(p, eps, rounds) && k < |rounds|
    ensures rounds[k].epsShrink > 0.0 && (k > 0 ==> rounds[k].epsShrink <= rounds[k - 1].epsShrink)
    ensures rounds[k].epsShrink >= eps && (k == 0 ==> rounds[k].epsShrink == if 10.0 * eps >= 1.0 then 10.0 * eps else 1.0)
    decreases k
  {
    assert RoundAt(p, eps, rounds, k);
    if k > 0 {
      EpsShrinkAbove(p, eps, rounds, k - 1);
      assert Last(rounds[..k]) == rounds[k - 1];
    }
  }

  /** start_from_all means just that: every example and every class is active at the start of the pass. */
  lemma FromAllMeans(p: Problem, eps: real, rounds: seq<Round>, k: nat)
    requires Run(p, eps, rounds) && k < |rounds| && rounds[k].fromAll
    ensures Permutation(rounds[k].active, |p.x|) && FullyActive(p, rounds[k].start, |p.x|)
  {
    assert RoundAt(p, eps, rounds, k);
  }

  ghost predicate TurnOf(round: Round, k: nat, i: nat) {
    k < |round.log| && round.log[k].i == i
  }

  /** The example's optimality condition was violated by at most e at its turn, unless it has no features or retired in it. */
  ghost predicate HeldAt(p: Problem, visit: Visit, e: real) {
    && VisitSpec(p, visit)
    && (SquaredNorm(p.x[visit.i]) > 0.0 && !Retires(p, visit) ==>
          ViolatedBy(ClassGradients(visit.before.ws, p.x[visit.i], p.y[visit.i]), p.c[p.y[visit.i]], visit.before.views[visit.i], e))
  }

  /** A run that stops by the rule ended with a pass from everything active, in which every example had a turn that violated its optimality condition by at most eps, or 1e-12. */
  lemma ConvergedMeans(p: Problem, eps: real, rounds: seq<Round>, i: nat) returns (k: nat)
    requires WellPosed(p) && Run(p, eps, rounds) && rounds != [] && OutcomeOf(eps, Last(rounds)).Stop? && i < |p.x|
    ensures FullyActive(p, Last(rounds).start, |p.x|) && TurnOf(Last(rounds), k, i) && HeldAt(p, Last(rounds).log[k], Max(eps, 0.000000000001))
  {
    var round := Last(rounds);
    FromAllMeans(p, eps, rounds, |rounds| - 1);
    assert RoundAt(p, eps, rounds, |rounds| - 1);
    var a := PlaceOf(round.active, |p.x|, i);
    assert round.active[a] in multiset(round.active);
    assert i in multiset(Names(round.log));
    k :| 0 <= k < |Names(round.log)| && Names(round.log)[k] == i;
    assert TurnOk(p, round.log, round.start, k);
    var visit := round.log[k];
    if SquaredNorm(p.x[i]) > 0.0 && !Retires(p, visit) {
      if visit.spread.Finite? {
        StoppingIs(round.log);
      }
      WiderViolation(ClassGradients(visit.before.ws, p.x[i], p.y[i]), p.c[p.y[i]], visit.before.views[i],
                     if visit.spread.Finite? then visit.spread.value else 0.000000000001, Max(eps, 0.000000000001));
    }
  }

  /** Between two passes of the run. */
  ghost predicate RunOk(p: Problem, rows: seq<Row>, index: array<nat>, w: array2<real>, qd: seq<real>, st: State, active: nat, bound: real)
    reads rows, (set r <- rows :: r.alpha), (set r <- rows :: r.alphaIndex), w, index
  {
    && WellPosed(p) && Shaped(p, rows) && IndexApart(rows, index) && Norms(p, qd) && index.Length == |p.x|
    && Shows(p, rows, w, st) && StateOk(p, st) && Between(p, st, index[..], active, bound)
  }

  /** The next pass. */
  ghost function Upcoming(active: seq<nat>, epsShrink: real, fromAll: bool, st: State): Round {
    Round(active, epsShrink, fromAll, st, [])
  }

  /** The shuffle and the visits of a pass do not change how it joins the run. */
  lemma RoundDone(p: Problem, eps: real, rounds: seq<Round>, before: Round, round: Round, shuffled: seq<nat>)
    requires Run(p, eps, rounds) && Joins(p, eps, rounds, before) && round == before.(active := round.active, log := round.log)
    requires multiset(round.active) == multiset(before.active) && |round.active| == |before.active| <= |shuffled|
    requires Permutation(shuffled, |p.x|) && round.active == shuffled[..|round.active|] && RoundOk(p, round)
    ensures Run(p, eps, rounds + [round])
  {
    if |round.active| == |p.x| {
      assert shuffled[..|round.active|] == shuffled;
    }
    RunNext(p, eps, rounds, round);
  }

  /** A pass, as one round of the record. */
  method PassRound(p: Problem, rows: seq<Row>, index: array<nat>, w: array2<real>, qd: seq<real>, active0: nat, epsShrink: real, fromAll: bool,
                   ghost st0: State, ghost bound: real)
    returns (active: nat, stopping: Limit, ghost round: Round)
    requires RunOk(p, rows, index, w, qd, st0, active0, bound)
    modifies rows, (set r <- rows :: r.alpha), (set r <- rows :: r.alphaIndex), w, index
    ensures RunOk(p, rows, index, w, qd, EndOf(round), active, bound + 0.000000000001) && RoundOk(p, round)
    ensures round == Upcoming(old(index[..])[..active0], epsShrink, fromAll, st0).(log := round.log)
    ensures stopping == Stopping(round.log) && index[..][..active] == Stayed(p, round.log)
  {
    PassBegin(p, st0, index[..], index[..], active0, bound);
    ghost var idx := index[..];
    ghost var st, log;
    active, stopping, st, log := Pass(p, rows, index, w, qd, active0, st0, bound);
    PassEnd(p, st, index[..], active, bound, bound + 0.000000000001);
    round := Round(idx[..active0], epsShrink, fromAll, st0, log);
  }

  /** Shuffle and pass. */
  method Iterate(p: Problem, rows: seq<Row>, index: array<nat>, w: array2<real>, qd: seq<real>, active0: nat, epsShrink: real, fromAll: bool,
                 rand: nat -> nat, ghost eps: real, ghost rounds: seq<Round>, ghost st0: State, ghost bound: real)
    returns (active: nat, stopping: Limit, ghost round: Round)
    requires RunOk(p, rows, index, w, qd, st0, active0, bound) && Run(p, eps, rounds)
    requires Joins(p, eps, rounds, Upcoming(index[..][..active0], epsShrink, fromAll, st0))
    modifies rows, (set r <- rows :: r.alpha), (set r <- rows :: r.alphaIndex), w, index
    ensures RunOk(p, rows, index, w, qd, EndOf(round), active, bound + 0.000000000001) && Run(p, eps, rounds + [round])
    ensures round.epsShrink == epsShrink && round.fromAll == fromAll
    ensures stopping == Stopping(round.log) && index[..][..active] == Stayed(p, round.log)
  {
    ghost var before := Upcoming(index[..][..active0], epsShrink, fromAll, st0);
    ShuffleActive(p, rows, index, w, qd, st0, active0, rand, bound);
    ghost var shuffled := index[..];
    active, stopping, round := PassRound(p, rows, index, w, qd, active0, epsShrink, fromAll, st0, bound);
    RoundDone(p, eps, rounds, before, round, shuffled);
  }

  /** The shuffle touches the active part of the index only. */
  method ShuffleActive(ghost p: Problem, ghost rows: seq<Row>, index: array<nat>, ghost w: array2<real>, ghost qd: seq<real>, ghost st: State,
                       active: nat, rand: nat -> nat, ghost bound: real)
    requires RunOk(p, rows, index, w, qd, st, active, bound)
    modifies index
    ensures RunOk(p, rows, index, w, qd, st, active, bound) && multiset(index[..][..active]) == multiset(old(index[..])[..active])
  {
    ghost var idx := index[..];
    ShuffleApart(p, rows, index, w, st, active, rand);
    assert index[..][active..] == index[active..] && idx[active..] == old(index[active..]);
    assert index[..][..active] == index[..active] && idx[..active] == old(index[..active]);
    StillBetween(p, st, idx, index[..], active, bound);
  }

  lemma StillBetween(p: Problem, st: State, idx: seq<nat>, idx': seq<nat>, active: nat, bound: real)
    requires Between(p, st, idx, active, bound) && Permutation(idx', |p.x|) && idx'[active..] == idx[active..]
    ensures Between(p, st, idx', active, bound)
  {
    forall q: nat | active <= q < |p.x|
      ensures RetiredAt(st, idx', q)
    {
      assert idx'[q] == idx'[active..][q - active] == idx[active..][q - active] == idx[q];
      assert RetiredAt(st, idx, q);
    }
  }

  /** The shuffle touches the index only. */
  method ShuffleApart(ghost p: Problem, ghost rows: seq<Row>, index: array<nat>, ghost w: array2<real>, ghost st: State, active: nat, rand: nat -> nat)
    requires active <= index.Length && Permutation(index[..], index.Length) && IndexApart(rows, index) && Shows(p, rows, w, st)
    modifies index
    ensures Permutation(index[..], index.Length) && Shows(p, rows, w, st)
    ensures multiset(index[..active]) == multiset(old(index[..active])) && index[active..] == old(index[active..])
  {
    Shuffle(index, active, rand);
    forall j: nat | j < |rows|
      ensures rows[j].Shown() == st.views[j]
    {
      assert rows[j].alphaIndex != index && st.views[j] == old(rows[j].Shown());
    }
    assert Views(rows) == st.views;
  }

  /** The rules between passes, where the run goes on. */
  method Continue(p: Problem, rows: seq<Row>, index: array<nat>, w: array2<real>, qd: seq<real>, active0: nat, startOver: bool, ghost st0: State, ghost bound: real)
    returns (active: nat, ghost st: State)
    requires RunOk(p, rows, index, w, qd, st0, active0, bound)
    modifies rows
    ensures RunOk(p, rows, index, w, qd, st, active, bound) && index[..] == old(index[..])
    ensures if startOver then st == Renewed(p, st0) && active == |p.x| else st == st0 && active == active0
  {
    active, st := active0, st0;
    if startOver {
      active, st := index.Length, Renewed(p, st0);
      RenewedOk(p, st0, index[..], active0, bound);
      ResetAll(p, rows, w, st0);
    }
  }

  /** The rows, index, weights and norms at the start. */
  method Start(p: Problem) returns (rows: seq<Row>, index: array<nat>, w: array2<real>, qd: seq<real>)
    requires WellPosed(p)
    ensures RunOk(p, rows, index, w, qd, ZeroState(p), |p.x|, 0.0)
    ensures fresh(index) && fresh(w)
    ensures forall i {:trigger rows[i]} :: 0 <= i < |rows| ==> fresh(rows[i]) && fresh(rows[i].alpha) && fresh(rows[i].alphaIndex)
  {
    rows := MakeRows(p);
    index := new nat[|p.x|](i => i);
    w := new real[p.n, p.classes]((k, m) => 0.0);
    qd := MakeNorms(p);
    assert IndexApart(rows, index);
    StartShows(p, rows, w);
    StartOk(p, index[..]);
  }

  /** One iteration with the rules that follow it. */
  method Advance(p: Problem, rows: seq<Row>, index: array<nat>, w: array2<real>, qd: seq<real>, active0: nat, eps: real, epsShrink0: real, fromAll0: bool,
                 rand: nat -> nat, ghost st0: State, ghost rounds0: seq<Round>, ghost bound: real)
    returns (active: nat, epsShrink: real, fromAll: bool, converged: bool, ghost st: State, ghost rounds: seq<Round>)
    requires RunOk(p, rows, index, w, qd, st0, active0, bound) && Run(p, eps, rounds0)
    requires Joins(p, eps, rounds0, Upcoming(index[..][..active0], epsShrink0, fromAll0, st0))
    modifies rows, (set r <- rows :: r.alpha), (set r <- rows :: r.alphaIndex), w, index
    ensures RunOk(p, rows, index, w, qd, st, active, bound + 0.000000000001) && Run(p, eps, rounds) && st == RunEnd(p, eps, rounds)
    ensures |rounds| == |rounds0| + 1 && rounds[..|rounds0|] == rounds0 && Remaining(p, eps, rounds, index[..][..active])
    ensures if converged then OutcomeOf(eps, Last(rounds)).Stop? else Joins(p, eps, rounds, Upcoming(index[..][..active], epsShrink, fromAll, st))
  {
    var stopping;
    ghost var round;
    active, stopping, round := Iterate(p, rows, index, w, qd, active0, epsShrink0, fromAll0, rand, eps, rounds0, st0, bound);
    var outcome := AfterPass(stopping, eps, epsShrink0, fromAll0);
    rounds := rounds0 + [round];
    assert outcome == OutcomeOf(eps, round);
    active, st := Continue(p, rows, index, w, qd, active, outcome.StartOver?, EndOf(round), bound + 0.000000000001);
    assert outcome.StartOver? ==> index[..][..active] == index[..];
    converged, fromAll := outcome.Stop?, outcome.StartOver?;
    epsShrink := if outcome.StartOver? then outcome.epsShrink else epsShrink0;
  }

  /** The loop of Solve. */
  method Loop(p: Problem, rows: seq<Row>, index: array<nat>, w: array2<real>, qd: seq<real>, eps: real, maxIter: nat, rand: (nat, nat) -> nat)
    returns (active: nat, iter: nat, converged: bool, ghost st: State, ghost rounds: seq<Round>, ghost drift: real)
    requires |p.y| == |p.x| && RunOk(p, rows, index, w, qd, ZeroState(p), |p.x|, 0.0)
    modifies rows, (set r <- rows :: r.alpha), (set r <- rows :: r.alphaIndex), w, index
    ensures Permutation(index[..], |p.x|) && active <= |p.x| && Remaining(p, eps, rounds, index[..][..active])
    ensures Run(p, eps, rounds) && st == RunEnd(p, eps, rounds) && |rounds| == iter <= maxIter
    ensures (converged || iter == maxIter) && (converged <==> rounds != [] && OutcomeOf(eps, Last(rounds)).Stop?)
    ensures Shows(p, rows, w, st) && RowsOk(p, rows, index, active)
    ensures StateOk(p, st) && AllDrift(p, st, drift) && drift == iter as real * 0.000000000001 && (st.losses == 0 ==> Coupled(p, Alphas(st.views), st.ws))
  {
    drift := 0.0;
    active, iter, converged, st, rounds := |p.x|, 0, false, ZeroState(p), [];
    var epsShrink, fromAll := Max(10.0 * eps, 1.0), true;
    assert index[..][..active] == index[..];
    while !converged && iter < maxIter
      invariant RunOk(p, rows, index, w, qd, st, active, drift) && drift == iter as real * 0.000000000001
      invariant Run(p, eps, rounds) && st == RunEnd(p, eps, rounds) && |rounds| == iter <= maxIter && Remaining(p, eps, rounds, index[..][..active])
      invariant if converged then rounds != [] && OutcomeOf(eps, Last(rounds)).Stop?
                else Joins(p, eps, rounds, Upcoming(index[..][..active], epsShrink, fromAll, st))
      decreases maxIter - iter
    {
      active, epsShrink, fromAll, converged, st, rounds :=
        Advance(p, rows, index, w, qd, active, eps, epsShrink, fromAll, i => rand(iter, i), st, rounds, drift);
      iter, drift := iter + 1, drift + 0.000000000001;
    }
    RunMeans(p, rows, index, w, qd, st, active, drift);
  }

  /** What the state between passes means for the rows. */
  lemma RunMeans(p: Problem, rows: seq<Row>, index: array<nat>, w: array2<real>, qd: seq<real>, st: State, active: nat, bound: real)
    requires RunOk(p, rows, index, w, qd, st, active, bound)
    ensures RowsOk(p, rows, index, active) && AllDrift(p, st, bound) && StateOk(p, st) && Permutation(index[..], |p.x|) && active <= |p.x|
    ensures st.losses == 0 ==> Coupled(p, Alphas(st.views), st.ws)
  {
    forall i: nat | i < |rows|
      ensures rows[i].Valid()
    {
      assert ShapedAt(p, rows, i) && ViewOk(p, st.views, i) && st.views[i] == rows[i].Shown();
    }
    forall q: nat | active <= q < |p.x|
      ensures index[q] < |rows| && rows[index[q]].active <= 1
    {
      assert RetiredAt(st, index[..], q);
      assert st.views[index[q]] == rows[index[q]].Shown();
    }
  }

  /**
    Every run, for any tolerance, any bound on the passes and any random numbers, is a sequence
    of passes: from zero and with everything active, each pass gives every example active at its
    start exactly one turn, and hands its state, the examples that stayed, eps_shrink and
    start_from_all to the next as the rules say.  The rows and w end in the state after the last
    pass; every row keeps its invariant, the index is a permutation, and from active on it holds
    retired examples only.  w is the sum of the examples times the variables it has seen; these
    differ from alpha by at most 1e-12 for each pass; if no step was lost, w is the sum of alpha
    x and the dual objective at most 0.
  */
  method Solve(p: Problem, eps: real, maxIter: nat, rand: (nat, nat) -> nat)
    returns (rows: seq<Row>, index: array<nat>, active: nat, w: array2<real>, iter: nat, converged: bool,
             ghost st: State, ghost rounds: seq<Round>, ghost drift: real)
    requires WellPosed(p)
    ensures Permutation(index[..], |p.x|) && active <= |p.x| && Remaining(p, eps, rounds, index[..][..active])
    ensures Run(p, eps, rounds) && st == RunEnd(p, eps, rounds) && |rounds| == iter <= maxIter
    ensures (converged || iter == maxIter) && (converged <==> rounds != [] && OutcomeOf(eps, Last(rounds)).Stop?)
    ensures Shaped(p, rows) && Shows(p, rows, w, st) && RowsOk(p, rows, index, active)
    ensures StateOk(p, st) && AllDrift(p, st, drift) && drift == iter as real * 0.000000000001
    ensures |st.views| == |p.y| && (st.losses == 0 ==> Coupled(p, Alphas(st.views), st.ws) && Value(p, st) <= 0.0)
  {
    var qd;
    rows, index, w, qd := Start(p);
    active, iter, converged, st, rounds, drift := Loop(p, rows, index, w, qd, eps, maxIter, rand);
    EndDescends(p, eps, rounds);
  }

  /** Every row keeps its invariant, and outside the active part of the index stand retired ones. */
  ghost predicate RowsOk(p: Problem, rows: seq<Row>, index: array<nat>, active: nat)
    reads rows, (set r <- rows :: r.alpha), (set r <- rows :: r.alphaIndex), index
  {
    && index.Length == |rows| == |p.x|
    && (forall i {:trigger rows[i]} :: 0 <= i < |rows| ==> rows[i].Valid())
    && forall q {:trigger index[q]} :: active <= q < |rows| ==> index[q] < |rows| && rows[index[q]].active <= 1
  }

  method MakeNorms(p: Problem) returns (qd: seq<real>)
    ensures Norms(p, qd)
  {
    qd := [];
    for i := 0 to |p.x|
      invariant |qd| == i && forall j :: 0 <= j < i ==> qd[j] == SquaredNorm(p.x[j])
    {
      var norm := Nrm2Sq(p.x[i]);
      qd := qd + [norm];
    }
  }

  lemma StartShows(p: Problem, rows: seq<Row>, w: array2<real>)
    requires WellPosed(p) && Shaped(p, rows) && (forall i {:trigger rows[i]} :: 0 <= i < |rows| ==> FreshRow(p, rows[i], i))
    requires w.Length0 == p.n && w.Length1 == p.classes && forall k, m :: 0 <= k < w.Length0 && 0 <= m < w.Length1 ==> w[k, m] == 0.0
    ensures Shows(p, rows, w, ZeroState(p))
    ensures forall i: nat {:trigger ViewOk(p, ZeroState(p).views, i)} :: i < |p.x| ==> ViewOk(p, ZeroState(p).views, i)
  {
    var zero := ZeroState(p);
    forall i: nat | i < |p.x|
      ensures ViewOk(p, zero.views, i) && zero.views[i] == Views(rows)[i]
    {
      assert FreshRow(p, rows[i], i) && ShapedAt(p, rows, i) && Views(rows)[i] == rows[i].Shown();
    }
    assert Views(rows) == zero.views;
    forall m: nat | m < p.classes
      ensures Columns(w)[m] == zero.ws[m]
    {
      assert Columns(w)[m] == Column(w, m);
    }
    assert Columns(w) == zero.ws;
  }
}
