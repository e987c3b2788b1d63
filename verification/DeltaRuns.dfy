/**
  Whole runs of DeltaStep (trident-workloads/gapbs/src/sssp.cc): the invariant holds in every
  reachable state, no run goes on for ever or gets stuck, and a finished run has computed the
  distances that the serial oracle computes.
*/
module DeltaRuns {
  import opened WeightedGraphs
  import opened Frontier
  import opened DeltaStep
  import opened DeltaCopy
  import opened Multiples

  datatype State = State(sh: Shared, threads: seq<Thread>)

  ghost function Initial(g: WGraph, s: nat, threadCount: nat): State
    requires s < g.n
  {
    State(Shared(seq(g.n, v => if v == s then 0 else kDistInf), map[0 := s], [0, kMaxBin], [1, 0], 0, {0}, false, []),
          seq(threadCount, t => Thread([], Head)))
  }

  ghost predicate Blocked(pc: Pc) {
    pc.Voted? || pc.Copied? || pc.Done?
  }

  /** Thread t moves; p is the work it is handed if it asks for some. */
  ghost predicate Moves(g: WGraph, delta: nat, a: State, b: State, t: nat, p: nat) {
    && delta > 0 && t < |a.threads| && Indexed(g, a.sh, a.threads[t]) && !Blocked(a.threads[t].pc)
    && (a.threads[t].pc.Grab? ==> a.sh.todo == {} || p in a.sh.todo)
    && b == State(Next(g, delta, a.sh, a.threads[t], p).0, a.threads[t := Next(g, delta, a.sh, a.threads[t], p).1])
  }

  ghost predicate FirstBarrier(a: State, b: State) {
    |a.threads| > 0 && All(a.threads, Voted) && b == State(StartCopying(a.sh), Released(a.threads, Single))
  }

  ghost predicate SecondBarrier(a: State, b: State) {
    |a.threads| > 0 && All(a.threads, Copied) && Sized(a.sh) && b == State(NextRound(a.sh), Released(a.threads, Head))
  }

  ghost predicate Step(g: WGraph, delta: nat, a: State, b: State) {
    (exists t: nat, p: nat :: Moves(g, delta, a, b, t, p)) || FirstBarrier(a, b) || SecondBarrier(a, b)
  }

  ghost predicate Inv(g: WGraph, delta: nat, s: nat, st: State) {
    || RelaxInv(g, delta, s, st.sh, st.threads)
    || CopyInv(g, delta, s, st.sh, st.threads)
    || (|st.threads| > 0 && FinalInv(g, delta, s, st.sh, st.threads))
  }

  lemma InitialInv(g: WGraph, delta: nat, s: nat, threadCount: nat)
    requires WellWeighted(g) && s < g.n && delta > 0 && threadCount > 0
    ensures Inv(g, delta, s, Initial(g, s, threadCount))
  {
    var st := Initial(g, s, threadCount);
    var sh, threads := st.sh, st.threads;
    StartLabels(g, s, sh.dist);
    BinRange(delta, 0);
    forall t: nat | t < threadCount
      ensures ThreadKnows(g, delta, s, sh, threads, t)
    {
    }
    forall u: nat, j: nat | HasEdge(g, u, j)
      ensures Covered(g, delta, sh, threads, u, j)
    {
      if u == s {
        assert 0 in sh.todo && sh.frontier[0] == u;
      } else {
        assert LabelAt(g, s, sh.dist, g.outs[u][j].v);
        assert Settled(g, sh.dist, u, j);
      }
    }
    assert TodoOk(g, sh, 0);
  }

  /** Every step, by any thread or through a barrier, keeps the invariant. */
  lemma StepInv(g: WGraph, delta: nat, s: nat, a: State, b: State)
    requires Inv(g, delta, s, a) && Step(g, delta, a, b)
    ensures Inv(g, delta, s, b) && |b.threads| == |a.threads|
  {
    if t: nat, p: nat :| Moves(g, delta, a, b, t, p) {
      if RelaxInv(g, delta, s, a.sh, a.threads) {
        RelaxStep(g, delta, s, a.sh, a.threads, t, p);
      } else if CopyInv(g, delta, s, a.sh, a.threads) {
        CopyStep(g, delta, s, a.sh, a.threads, t, p);
      }
    } else if FirstBarrier(a, b) {
      FirstThread(g, delta, s, a);
      VotesIn(g, delta, s, a.sh, a.threads);
    } else {
      FirstThread(g, delta, s, a);
      CopiesIn(g, delta, s, a.sh, a.threads);
    }
  }

  /** The first thread tells the phase. */
  lemma FirstThread(g: WGraph, delta: nat, s: nat, st: State)
    requires Inv(g, delta, s, st)
    ensures st.threads[0].pc.Voted? ==> RelaxInv(g, delta, s, st.sh, st.threads)
    ensures st.threads[0].pc.Copied? ==> CopyInv(g, delta, s, st.sh, st.threads)
    ensures CopyInv(g, delta, s, st.sh, st.threads) ==> InCopy(st.threads)
    ensures RelaxInv(g, delta, s, st.sh, st.threads) ==> Relaxing(st.threads[0].pc)
  {
    if RelaxInv(g, delta, s, st.sh, st.threads) {
      assert ThreadKnows(g, delta, s, st.sh, st.threads, 0);
    }
    if CopyInv(g, delta, s, st.sh, st.threads) {
      assert ThreadCopies(g, delta, st.sh, st.threads, 0);
    }
  }

  // ------------------------------------------------------------------ reachability

  ghost predicate StepAt(g: WGraph, delta: nat, trace: seq<State>, i: nat) {
    i + 1 < |trace| && Step(g, delta, trace[i], trace[i + 1])
  }

  /** A finite run from the initial state. */
  ghost predicate IsTrace(g: WGraph, delta: nat, s: nat, threadCount: nat, trace: seq<State>) {
    && WellWeighted(g) && s < g.n && delta > 0 && threadCount > 0
    && |trace| > 0 && trace[0] == Initial(g, s, threadCount)
    && forall i: nat {:trigger StepAt(g, delta, trace, i)} :: i + 1 < |trace| ==> StepAt(g, delta, trace, i)
  }

  lemma {:induction false} TraceInv(g: WGraph, delta: nat, s: nat, threadCount: nat, trace: seq<State>, i: nat)
    requires IsTrace(g, delta, s, threadCount, trace) && i < |trace|
    ensures Inv(g, delta, s, trace[i])
  {
    if i == 0 {
      InitialInv(g, delta, s, threadCount);
    } else {
      TraceInv(g, delta, s, threadCount, trace, i - 1);
      assert StepAt(g, delta, trace, i - 1);
      StepInv(g, delta, s, trace[i - 1], trace[i]);
    }
  }

  /** Whatever the interleaving, when all threads are done the labels are the shortest-path distances. */
  lemma DeltaStepCorrect(g: WGraph, delta: nat, s: nat, threadCount: nat, trace: seq<State>)
    requires IsTrace(g, delta, s, threadCount, trace) && All(trace[|trace| - 1].threads, Done)
    ensures Distances(g, s, trace[|trace| - 1].sh.dist)
  {
    var last := trace[|trace| - 1];
    TraceInv(g, delta, s, threadCount, trace, |trace| - 1);
    FirstThread(g, delta, s, last);
    SettledLabels(g, s, last.sh.dist);
  }

  /** The bins are processed in non-decreasing order. */
  lemma BinsInOrder(g: WGraph, delta: nat, s: nat, threadCount: nat, trace: seq<State>, x: nat, y: nat)
    requires IsTrace(g, delta, s, threadCount, trace)
    requires x < y < |trace[|trace| - 1].sh.printed|
    ensures trace[|trace| - 1].sh.printed[x] <= trace[|trace| - 1].sh.printed[y]
  {
    TraceInv(g, delta, s, threadCount, trace, |trace| - 1);
  }

  /**
    With weights up to 2^62 no sum or product of the source leaves the 64-bit range: the sum
    dist[u] + w of a relaxation, and delta * curr_bin_index of the test before it.
  */
  lemma NoOverflow(g: WGraph, delta: nat, s: nat, threadCount: nat, trace: seq<State>, i: nat, t: nat)
    requires IsTrace(g, delta, s, threadCount, trace) && i < |trace| && t < |trace[i].threads|
    requires forall u: nat, j: nat {:trigger HasEdge(g, u, j)} :: HasEdge(g, u, j) ==> g.outs[u][j].w <= 0x4000_0000_0000_0000
    ensures var sh, pc := trace[i].sh, trace[i].threads[t].pc;
      && (pc.LoadSource? ==> pc.u < |sh.dist| && HasEdge(g, pc.u, pc.j)
                             && 0 <= sh.dist[pc.u] + g.outs[pc.u][pc.j].w <= 0x7fff_ffff_ffff_ffff)
      && (pc.Check? ==> Sized(sh) && 0 <= delta * CurrBin(sh) <= 0x7fff_ffff_ffff_ffff)
  {
    TraceInv(g, delta, s, threadCount, trace, i);
    var st := trace[i];
    if RelaxInv(g, delta, s, st.sh, st.threads) {
      assert ThreadKnows(g, delta, s, st.sh, st.threads, t);
      var pc := st.threads[t].pc;
      if pc.LoadSource? {
        assert LabelAt(g, s, st.sh.dist, pc.u);
      }
    } else if CopyInv(g, delta, s, st.sh, st.threads) {
      assert ThreadCopies(g, delta, st.sh, st.threads, t);
    }
  }

  /** The barriers never block for ever: unless all threads are done, some step is possible. */
  lemma NeverStuck(g: WGraph, delta: nat, s: nat, st: State) returns (next: State)
    requires Inv(g, delta, s, st) && !All(st.threads, Done)
    ensures Step(g, delta, st, next)
  {
    if t: nat :| t < |st.threads| && !Blocked(st.threads[t].pc) {
      MovableIndexed(g, delta, s, st, t);
      var p: nat := 0;
      if st.sh.todo != {} {
        p :| p in st.sh.todo;
      }
      next := State(Next(g, delta, st.sh, st.threads[t], p).0, st.threads[t := Next(g, delta, st.sh, st.threads[t], p).1]);
      assert Moves(g, delta, st, next, t, p);
    } else if RelaxInv(g, delta, s, st.sh, st.threads) {
      forall t: nat | t < |st.threads|
        ensures st.threads[t].pc == Voted
      {
        assert ThreadKnows(g, delta, s, st.sh, st.threads, t);
      }
      next := State(StartCopying(st.sh), Released(st.threads, Single));
    } else {
      assert CopyInv(g, delta, s, st.sh, st.threads);
      forall t: nat | t < |st.threads|
        ensures st.threads[t].pc == Copied
      {
        assert ThreadCopies(g, delta, st.sh, st.threads, t);
      }
      next := State(NextRound(st.sh), Released(st.threads, Head));
    }
  }

  lemma MovableIndexed(g: WGraph, delta: nat, s: nat, st: State, t: nat)
    requires Inv(g, delta, s, st) && t < |st.threads|
    ensures delta > 0 && Indexed(g, st.sh, st.threads[t])
  {
    if RelaxInv(g, delta, s, st.sh, st.threads) {
      assert ThreadKnows(g, delta, s, st.sh, st.threads, t);
    } else if CopyInv(g, delta, s, st.sh, st.threads) {
      assert ThreadCopies(g, delta, st.sh, st.threads, t);
    }
  }

  // -------------------------------------------------------------------- termination

  ghost predicate InCopy(threads: seq<Thread>) {
    |threads| > 0 &&
    (threads[0].pc.Single? || threads[0].pc.ResetTail? || threads[0].pc.Reserve? || threads[0].pc.Copy? || threads[0].pc.Copied?)
  }

  ghost function Lengths(bins: seq<seq<nat>>): seq<nat> {
    seq(|bins|, i requires 0 <= i < |bins| => |bins[i]|)
  }

  ghost function BinLength(th: Thread, nb: nat): nat {
    if nb < |th.bins| then |th.bins[nb]| else 0
  }

  /** Entries waiting in the bins of a thread: those it owes count, those it has reserved room for do not. */
  ghost function Load(th: Thread, nb: nat): nat {
    match th.pc
    case Push(_, _, _) => Sum(Lengths(th.bins)) + 1
    case Copy(_, _) => if nb < |th.bins| then Sum(Lengths(th.bins)[nb := 0]) else Sum(Lengths(th.bins))
    case _ => Sum(Lengths(th.bins))
  }

  ghost function Loads(threads: seq<Thread>, nb: nat): seq<nat> {
    seq(|threads|, t requires 0 <= t < |threads| => Load(threads[t], nb))
  }

  /** The steps one edge can cost: every retry of the compare-and-swap has seen a smaller label. */
  const EdgeCost: nat := 2 * kDistInf + 10

  ghost function EdgesLeft(g: WGraph, u: nat, j: nat): nat {
    Times(if u < |g.outs| && j <= |g.outs[u]| then |g.outs[u]| - j else 0, EdgeCost)
  }

  function Natural(x: int): nat {
    if x < 0 then 0 else x
  }

  /** An upper bound on the steps a thread takes before its next barrier or piece of work. */
  ghost function LocalRank(g: WGraph, th: Thread, nb: nat): nat {
    match th.pc
    case Head => 3
    case Grab => 2
    case Vote => 1
    case Voted => 0
    case Check(u) => 5 + EdgesLeft(g, u, 0)
    case Scan(u, j) => 4 + EdgesLeft(g, u, j)
    case LoadSource(u, j, prev) => 4 + EdgesLeft(g, u, j + 1) + 2 * Natural(prev) + 5
    case Cas(u, j, prev, _) => 4 + EdgesLeft(g, u, j + 1) + 2 * Natural(prev) + 2
    case Reload(u, j, prev, _) => 4 + EdgesLeft(g, u, j + 1) + 2 * Natural(prev) + 1
    case Push(u, j, _) => 4 + EdgesLeft(g, u, j + 1) + 1
    case Single => BinLength(th, nb) + 4
    case ResetTail => BinLength(th, nb) + 3
    case Reserve => BinLength(th, nb) + 2
    case Copy(_, k) => Natural(BinLength(th, nb) - k) + 1
    case Copied => 0
    case Done => 0
  }

  ghost function LocalRanks(g: WGraph, threads: seq<Thread>, nb: nat): seq<nat> {
    seq(|threads|, t requires 0 <= t < |threads| => LocalRank(g, threads[t], nb))
  }

  /** Labels still to fall, counted twice, and vertices still to be handed out. */
  ghost function Backlog(st: State): nat
    requires Sized(st.sh)
  {
    2 * Weight(st.sh.dist) + Sum(Loads(st.threads, NextBin(st.sh))) +
    (if InCopy(st.threads) then NextTail(st.sh) else |st.sh.todo|)
  }

  ghost function PhaseRank(st: State): nat
    requires Sized(st.sh)
  {
    if InCopy(st.threads) then 1 else if |st.sh.todo| == CurrTail(st.sh) then 0 else 2
  }

  ghost function StepsLeft(g: WGraph, st: State): nat
    requires Sized(st.sh)
  {
    Sum(LocalRanks(g, st.threads, NextBin(st.sh)))
  }

  ghost predicate Drops(g: WGraph, a: State, b: State) {
    && Sized(a.sh) && Sized(b.sh)
    && (Backlog(b) < Backlog(a)
        || (Backlog(b) == Backlog(a)
            && (PhaseRank(b) < PhaseRank(a) || (PhaseRank(b) == PhaseRank(a) && StepsLeft(g, b) < StepsLeft(g, a)))))
  }

  lemma {:induction false} SumZeros(xs: seq<nat>, k: nat)
    ensures Sum(xs + seq(k, i => 0)) == Sum(xs)
  {
    var zs := xs + seq(k, i => 0);
    if k == 0 {
      assert zs == xs;
    } else {
      SumZeros(xs, k - 1);
      assert zs[..|zs| - 1] == xs + seq(k - 1, i => 0);
    }
  }

  lemma PushLoad(bins: seq<seq<nat>>, i: nat, v: nat)
    ensures Sum(Lengths(PushBin(bins, i, v))) == Sum(Lengths(bins)) + 1
  {
    var k: nat := if i < |bins| then 0 else i + 1 - |bins|;
    var grown := Lengths(bins) + seq(k, x => 0);
    SumZeros(Lengths(bins), k);
    SumUpdate(grown, i, grown[i] + 1);
    PushLengths(bins, i, v, grown);
  }

  lemma PushLengths(bins: seq<seq<nat>>, i: nat, v: nat, grown: seq<nat>)
    requires i < |grown| && |grown| == if i < |bins| then |bins| else i + 1
    requires forall x :: 0 <= x < |grown| ==> grown[x] == if x < |bins| then |bins[x]| else 0
    ensures Lengths(PushBin(bins, i, v)) == grown[i := grown[i] + 1]
  {
  }

  lemma LoadsUpdate(threads: seq<Thread>, t: nat, th: Thread, nb: nat)
    requires t < |threads|
    ensures Sum(Loads(threads[t := th], nb)) == Sum(Loads(threads, nb)) - Load(threads[t], nb) + Load(th, nb)
  {
    assert Loads(threads[t := th], nb) == Loads(threads, nb)[t := Load(th, nb)];
    SumUpdate(Loads(threads, nb), t, Load(th, nb));
  }

  lemma RanksUpdate(g: WGraph, threads: seq<Thread>, t: nat, th: Thread, nb: nat)
    requires t < |threads|
    ensures Sum(LocalRanks(g, threads[t := th], nb))
      == Sum(LocalRanks(g, threads, nb)) - LocalRank(g, threads[t], nb) + LocalRank(g, th, nb)
  {
    assert LocalRanks(g, threads[t := th], nb) == LocalRanks(g, threads, nb)[t := LocalRank(g, th, nb)];
    SumUpdate(LocalRanks(g, threads, nb), t, LocalRank(g, th, nb));
  }

  /** The step lowers a label, takes work, or gets closer to the end of the work in hand. */
  ghost predicate Pays(g: WGraph, sh: Shared, th: Thread, p: nat, sh': Shared, th': Thread, nb: nat) {
    || (Weight(sh'.dist) < Weight(sh.dist) && Load(th', nb) <= Load(th, nb) + 1 && sh'.todo == sh.todo)
    || (sh'.dist == sh.dist && Load(th', nb) == Load(th, nb) && p in sh.todo && sh'.todo == sh.todo - {p})
    || (sh'.dist == sh.dist && Load(th', nb) == Load(th, nb) && sh'.todo == sh.todo && LocalRank(g, th', nb) < LocalRank(g, th, nb))
  }

  lemma CasCost(g: WGraph, delta: nat, s: nat, sh: Shared, th: Thread, p: nat)
    requires WellWeighted(g) && Labels(g, s, sh.dist) && Knows(g, delta, s, sh, th) && th.pc.Cas?
    ensures var (sh', th') := Next(g, delta, sh, th, p); Pays(g, sh, th, p, sh', th', NextBin(sh))
  {
    var v := g.outs[th.pc.u][th.pc.j].v;
    if sh.dist[v] == th.pc.prev {
      WeightDrops(sh.dist, v, th.pc.cand);
    }
  }

  lemma ScanCost(g: WGraph, delta: nat, s: nat, sh: Shared, th: Thread, p: nat)
    requires WellWeighted(g) && Labels(g, s, sh.dist) && Knows(g, delta, s, sh, th) && (th.pc.Scan? || th.pc.Reload?)
    ensures var (sh', th') := Next(g, delta, sh, th, p); Pays(g, sh, th, p, sh', th', NextBin(sh))
  {
    var u, j := th.pc.u, th.pc.j;
    if j < |g.outs[u]| {
      assert HasEdge(g, u, j);
      assert LabelAt(g, s, sh.dist, g.outs[u][j].v);
    }
  }

  lemma PushCost(g: WGraph, delta: nat, s: nat, sh: Shared, th: Thread, p: nat)
    requires Knows(g, delta, s, sh, th) && th.pc.Push?
    ensures var (sh', th') := Next(g, delta, sh, th, p); Pays(g, sh, th, p, sh', th', NextBin(sh))
  {
    BinRange(delta, th.pc.cand);
    PushLoad(th.bins, th.pc.cand / delta, g.outs[th.pc.u][th.pc.j].v);
  }

  lemma RelaxCost(g: WGraph, delta: nat, s: nat, sh: Shared, th: Thread, p: nat)
    requires WellWeighted(g) && Labels(g, s, sh.dist) && Knows(g, delta, s, sh, th) && !Blocked(th.pc)
    requires th.pc.Grab? ==> Feeding(g, sh) && (sh.todo == {} || p in sh.todo)
    ensures var (sh', th') := Next(g, delta, sh, th, p); Pays(g, sh, th, p, sh', th', NextBin(sh))
  {
    if th.pc.Scan? || th.pc.Reload? {
      ScanCost(g, delta, s, sh, th, p);
    } else if th.pc.Cas? {
      CasCost(g, delta, s, sh, th, p);
    } else if th.pc.Push? {
      PushCost(g, delta, s, sh, th, p);
    } else if th.pc.Grab? && sh.todo != {} {
      assert TodoOk(g, sh, p);
    }
  }

  /** The loads and local ranks do not depend on the vote while nobody copies. */
  lemma VoteIrrelevant(g: WGraph, threads: seq<Thread>, nb: nat, nb': nat)
    requires forall t: nat {:trigger threads[t]} :: t < |threads| ==> Relaxing(threads[t].pc) || threads[t].pc.Done?
    ensures Loads(threads, nb) == Loads(threads, nb') && LocalRanks(g, threads, nb) == LocalRanks(g, threads, nb')
  {
  }

  lemma TodoShrinks(todo: set<nat>, p: nat)
    requires p in todo
    ensures |todo - {p}| == |todo| - 1
  {
  }

  /** A step that pays lowers the measure. */
  lemma PaysDrops(g: WGraph, a: State, b: State, t: nat, p: nat)
    requires Sized(a.sh) && Sized(b.sh) && t < |a.threads| && |b.threads| == |a.threads| && b.threads == a.threads[t := b.threads[t]]
    requires Pays(g, a.sh, a.threads[t], p, b.sh, b.threads[t], NextBin(a.sh))
    requires !InCopy(a.threads) && !InCopy(b.threads) && CurrTail(b.sh) == CurrTail(a.sh)
    requires Loads(b.threads, NextBin(b.sh)) == Loads(b.threads, NextBin(a.sh))
    requires LocalRanks(g, b.threads, NextBin(b.sh)) == LocalRanks(g, b.threads, NextBin(a.sh))
    ensures Drops(g, a, b)
  {
    LoadsUpdate(a.threads, t, b.threads[t], NextBin(a.sh));
    RanksUpdate(g, a.threads, t, b.threads[t], NextBin(a.sh));
    if p in a.sh.todo && b.sh.todo == a.sh.todo - {p} {
      TodoShrinks(a.sh.todo, p);
    }
  }

  lemma RelaxDrops(g: WGraph, delta: nat, s: nat, a: State, b: State, t: nat, p: nat)
    requires RelaxInv(g, delta, s, a.sh, a.threads) && Moves(g, delta, a, b, t, p)
    ensures Drops(g, a, b)
  {
    RelaxStep(g, delta, s, a.sh, a.threads, t, p);
    assert ThreadKnows(g, delta, s, a.sh, a.threads, t);
    RelaxCost(g, delta, s, a.sh, a.threads[t], p);
    AllRelaxing(g, delta, s, a);
    AllRelaxing(g, delta, s, b);
    VoteIrrelevant(g, b.threads, NextBin(a.sh), NextBin(b.sh));
    PaysDrops(g, a, b, t, p);
  }

  lemma AllRelaxing(g: WGraph, delta: nat, s: nat, st: State)
    requires RelaxInv(g, delta, s, st.sh, st.threads)
    ensures forall t: nat {:trigger st.threads[t]} :: t < |st.threads| ==> Relaxing(st.threads[t].pc)
  {
    forall t: nat | t < |st.threads|
      ensures Relaxing(st.threads[t].pc)
    {
      assert ThreadKnows(g, delta, s, st.sh, st.threads, t);
    }
  }

  lemma CopyCost(g: WGraph, delta: nat, sh: Shared, th: Thread, p: nat)
    requires delta > 0 && CopyKnows(g, delta, sh, th) && !Blocked(th.pc)
    ensures var (sh', th') := Next(g, delta, sh, th, p);
      var nb := NextBin(sh);
      && Sized(sh') && sh'.dist == sh.dist && NextBin(sh') == nb
      && Load(th', nb) + NextTail(sh') == Load(th, nb) + NextTail(sh) && LocalRank(g, th', nb) < LocalRank(g, th, nb)
  {
    var nb := NextBin(sh);
    if nb < |th.bins| {
      SumUpdate(Lengths(th.bins), nb, 0);
      assert Lengths(th.bins[nb := []]) == Lengths(th.bins)[nb := 0];
    }
  }

  lemma CopyDrops(g: WGraph, delta: nat, s: nat, a: State, b: State, t: nat, p: nat)
    requires CopyInv(g, delta, s, a.sh, a.threads) && Moves(g, delta, a, b, t, p)
    ensures Drops(g, a, b)
  {
    CopyStep(g, delta, s, a.sh, a.threads, t, p);
    FirstThread(g, delta, s, a);
    FirstThread(g, delta, s, b);
    assert ThreadCopies(g, delta, a.sh, a.threads, t);
    CopyCost(g, delta, a.sh, a.threads[t], p);
    LoadsUpdate(a.threads, t, b.threads[t], NextBin(a.sh));
    RanksUpdate(g, a.threads, t, b.threads[t], NextBin(a.sh));
  }

  lemma ReleasedLoads(threads: seq<Thread>, from: Pc, to: Pc, nb: nat, nb': nat)
    requires All(threads, from) && !from.Push? && !from.Copy? && !to.Push? && !to.Copy?
    ensures Loads(Released(threads, to), nb') == Loads(threads, nb)
  {
  }

  lemma BarrierDrops(g: WGraph, delta: nat, s: nat, a: State, b: State)
    requires Inv(g, delta, s, a) && (FirstBarrier(a, b) || SecondBarrier(a, b))
    ensures Drops(g, a, b)
  {
    FirstThread(g, delta, s, a);
    if FirstBarrier(a, b) {
      assert ThreadKnows(g, delta, s, a.sh, a.threads, 0);
      ReleasedLoads(a.threads, Voted, Single, NextBin(a.sh), NextBin(b.sh));
    } else {
      ReleasedLoads(a.threads, Copied, Head, NextBin(a.sh), NextBin(b.sh));
    }
  }

  lemma FinalDrops(g: WGraph, delta: nat, s: nat, a: State, b: State, t: nat, p: nat)
    requires FinalInv(g, delta, s, a.sh, a.threads) && Moves(g, delta, a, b, t, p)
    ensures Drops(g, a, b)
  {
    LoadsUpdate(a.threads, t, b.threads[t], NextBin(a.sh));
    RanksUpdate(g, a.threads, t, b.threads[t], NextBin(a.sh));
  }

  /** Every step lowers a lexicographic measure. */
  lemma StepDrops(g: WGraph, delta: nat, s: nat, a: State, b: State)
    requires Inv(g, delta, s, a) && Step(g, delta, a, b)
    ensures Drops(g, a, b)
  {
    if t: nat, p: nat :| Moves(g, delta, a, b, t, p) {
      if RelaxInv(g, delta, s, a.sh, a.threads) {
        RelaxDrops(g, delta, s, a, b, t, p);
      } else if CopyInv(g, delta, s, a.sh, a.threads) {
        CopyDrops(g, delta, s, a, b, t, p);
      } else {
        FinalDrops(g, delta, s, a, b, t, p);
      }
    } else {
      BarrierDrops(g, delta, s, a, b);
    }
  }

  /** No sequence of triples falls for ever. */
  lemma {:induction false} LexDescent(x: nat -> nat, y: nat -> nat, z: nat -> nat, i: nat) returns (k: nat)
    ensures x(k + 1) > x(k) || (x(k + 1) == x(k) && (y(k + 1) > y(k) || (y(k + 1) == y(k) && z(k + 1) >= z(k))))
    decreases x(i), y(i), z(i)
  {
    if x(i + 1) > x(i) || (x(i + 1) == x(i) && (y(i + 1) > y(i) || (y(i + 1) == y(i) && z(i + 1) >= z(i)))) {
      k := i;
    } else {
      k := LexDescent(x, y, z, i + 1);
    }
  }

  /** The run takes a step after its state number k. */
  ghost predicate Goes(g: WGraph, delta: nat, run: nat -> State, k: nat) {
    Step(g, delta, run(k), run(k + 1))
  }

  lemma {:induction false} RunInv(g: WGraph, delta: nat, s: nat, run: nat -> State, i: nat)
    requires Inv(g, delta, s, run(0)) && forall k: nat {:trigger Goes(g, delta, run, k)} :: Goes(g, delta, run, k)
    ensures Inv(g, delta, s, run(i))
  {
    if i > 0 {
      var j: nat := i - 1;
      RunInv(g, delta, s, run, j);
      RunNext(g, delta, s, run, j);
    }
  }

  lemma RunNext(g: WGraph, delta: nat, s: nat, run: nat -> State, i: nat)
    requires Inv(g, delta, s, run(i)) && Goes(g, delta, run, i)
    ensures Inv(g, delta, s, run(i + 1))
  {
    StepInv(g, delta, s, run(i), run(i + 1));
  }

  lemma RunDrops(g: WGraph, delta: nat, s: nat, run: nat -> State, i: nat)
    requires Inv(g, delta, s, run(i)) && Goes(g, delta, run, i)
    ensures Drops(g, run(i), run(i + 1))
  {
    StepDrops(g, delta, s, run(i), run(i + 1));
  }

  /** No run goes on for ever, whatever the interleaving. */
  lemma DeltaStepTerminates(g: WGraph, delta: nat, s: nat, threadCount: nat, run: nat -> State)
    requires WellWeighted(g) && s < g.n && delta > 0 && threadCount > 0 && run(0) == Initial(g, s, threadCount)
    ensures exists k: nat :: !Goes(g, delta, run, k)
  {
    InitialInv(g, delta, s, threadCount);
    if forall k: nat {:trigger Goes(g, delta, run, k)} :: Goes(g, delta, run, k) {
      var k := LexDescent(i => if Sized(run(i).sh) then Backlog(run(i)) else 0,
                          i => if Sized(run(i).sh) then PhaseRank(run(i)) else 0,
                          i => if Sized(run(i).sh) then StepsLeft(g, run(i)) else 0, 0);
      RunInv(g, delta, s, run, k);
      RunDrops(g, delta, s, run, k);
      assert false;
    }
  }
}
