/**
  Connected components by Afforest (trident-workloads/gapbs/src/cc.cc).  A phase is a
  parallel loop between two barriers: any number of threads, one shared access at a
  time, in any order.  Link hooks roots with compare-and-swap; Compress shortens paths.
*/
module Afforest {
  import opened Graphs
  import opened Components
  import opened Compression
  import opened Multiples

  /**
    One thread of a linking loop: it calls Link(u, v) for v = vs[i], vs[i + 1], ...
    Skip is the test comp[u] == c that lets a vertex of the sampled component go.
  */
  datatype LinkPc =
    | Skip(c: nat)
    | Pick
    | LoadSecond(p1: nat)
    | Loop(p1: nat, p2: nat)
    | Cas(high: nat, low: nat)
    | LoadUp(high: nat, low: nat)
    | LoadUpUp(up: nat, low: nat)
    | LoadLow(p1: nat, low: nat)
    | Finished(skipped: bool, c: nat)

  datatype Linker = Linker(u: nat, vs: seq<nat>, i: nat, pc: LinkPc)

  datatype Linking = Linking(comp: seq<nat>, threads: seq<Linker>)

  /** Locals and vertices are valid indices. */
  predicate Indexed(n: nat, th: Linker) {
    && th.u < n && th.i <= |th.vs| && (forall j :: 0 <= j < |th.vs| ==> th.vs[j] < n)
    && match th.pc
       case LoadSecond(p1) => p1 < n && th.i < |th.vs|
       case Loop(p1, p2) => p1 < n && p2 < n && th.i < |th.vs|
       case Cas(high, low) => low < high < n && th.i < |th.vs|
       case LoadUp(high, low) => low < high < n && th.i < |th.vs|
       case LoadUpUp(up, low) => up < n && low < n && th.i < |th.vs|
       case LoadLow(p1, low) => p1 < n && low < n && th.i < |th.vs|
       case _ => true
  }

  /** The call Link(u, vs[i]) returns. */
  function Linked(th: Linker): Linker {
    Linker(th.u, th.vs, th.i + 1, Pick)
  }

  function At(th: Linker, pc: LinkPc): Linker {
    Linker(th.u, th.vs, th.i, pc)
  }

  /** The next atomic step of one thread. */
  function Next(comp: seq<nat>, th: Linker): (r: (seq<nat>, Linker))
    requires Indexed(|comp|, th)
    ensures |r.0| == |comp|
  {
    match th.pc
    case Skip(c) => (comp, At(th, if comp[th.u] == c then Finished(true, c) else Pick))
    case Pick => (comp, At(th, if th.i == |th.vs| then Finished(false, 0) else LoadSecond(comp[th.u])))
    case LoadSecond(p1) => (comp, At(th, Loop(p1, comp[th.vs[th.i]])))
    case Loop(p1, p2) =>
      if p1 == p2 then (comp, Linked(th))
      else
        var high := if p1 > p2 then p1 else p2;
        var low := p1 + (p2 - high);
        if comp[high] == low then (comp, Linked(th))
        else if comp[high] == high then (comp, At(th, Cas(high, low)))
        else (comp, At(th, LoadUp(high, low)))
    case Cas(high, low) =>
      if comp[high] == high then (comp[high := low], Linked(th)) else (comp, At(th, LoadUp(high, low)))
    case LoadUp(high, low) => (comp, At(th, LoadUpUp(comp[high], low)))
    case LoadUpUp(up, low) => (comp, At(th, LoadLow(comp[up], low)))
    case LoadLow(p1, low) => (comp, At(th, Loop(p1, comp[low])))
    case Finished(_, _) => (comp, th)
  }

  // ------------------------------------------------------------- invariant

  /** x stands for u and y for v, or the other way round. */
  ghost predicate Pair(comp: seq<nat>, x: nat, y: nat, u: nat, v: nat) {
    (Same(comp, x, u) && Same(comp, y, v)) || (Same(comp, x, v) && Same(comp, y, u))
  }

  /** What thread t knows: earlier neighbours are united with u, and the current pair still stands for (u, v). */
  ghost predicate Promise(comp: seq<nat>, th: Linker) {
    && Indexed(|comp|, th)
    && (forall j :: 0 <= j < th.i ==> Same(comp, th.u, th.vs[j]))
    && match th.pc
       case Skip(_) => th.i == 0
       case Pick => true
       case LoadSecond(p1) => Same(comp, p1, th.u)
       case Loop(p1, p2) => Pair(comp, p1, p2, th.u, th.vs[th.i])
       case Cas(high, low) => Pair(comp, high, low, th.u, th.vs[th.i])
       case LoadUp(high, low) => Pair(comp, high, low, th.u, th.vs[th.i]) && comp[high] < high
       case LoadUpUp(up, low) => Pair(comp, up, low, th.u, th.vs[th.i])
       case LoadLow(p1, low) => Pair(comp, p1, low, th.u, th.vs[th.i])
       case Finished(skipped, c) => if skipped then Same(comp, th.u, c) else th.i == |th.vs|
  }

  ghost predicate ThreadOk(g: Graph, s: Linking, t: nat) {
    && t < |s.threads| && Promise(s.comp, s.threads[t])
    && (forall j :: 0 <= j < |s.threads[t].vs| ==> Connected(g, s.threads[t].u, s.threads[t].vs[j]))
  }

  ghost predicate LinkInv(g: Graph, s: Linking) {
    && Forest(s.comp) && Inside(g, s.comp)
    && forall t: nat {:trigger ThreadOk(g, s, t)} :: t < |s.threads| ==> ThreadOk(g, s, t)
  }

  /** comp' has all of comp's unions, and vertices that had a parent still have one. */
  ghost predicate Grows(comp: seq<nat>, comp': seq<nat>) {
    && Forest(comp) && Forest(comp') && |comp| == |comp'|
    && (forall x: nat, y: nat :: Same(comp, x, y) ==> Same(comp', x, y))
    && (forall x :: 0 <= x < |comp| && comp[x] < x ==> comp'[x] < x)
  }

  lemma HookGrows(comp: seq<nat>, h: nat, l: nat)
    requires Forest(comp) && l < h < |comp| && comp[h] == h
    ensures Grows(comp, comp[h := l])
    ensures Same(comp[h := l], h, l)
  {
    HookRoot(comp, h, l, 0);
    forall x: nat, y: nat | Same(comp, x, y)
      ensures Same(comp[h := l], x, y)
    {
      HookRoot(comp, h, l, x);
      HookRoot(comp, h, l, y);
    }
    HookRoot(comp, h, l, h);
    HookRoot(comp, h, l, l);
  }

  /** A promise survives what other threads do. */
  lemma PromiseKept(comp: seq<nat>, comp': seq<nat>, th: Linker)
    requires Promise(comp, th) && Grows(comp, comp')
    ensures Promise(comp', th)
  {
  }

  lemma PairSame(comp: seq<nat>, x: nat, y: nat, u: nat, v: nat)
    requires Pair(comp, x, y, u, v) && Same(comp, x, y)
    ensures Same(comp, u, v)
  {
  }

  lemma LoopPromise(comp: seq<nat>, th: Linker)
    requires Forest(comp) && Promise(comp, th) && th.pc.Loop?
    ensures Promise(comp, Next(comp, th).1)
  {
    var p1: int, p2: int := th.pc.p1, th.pc.p2;
    var high := if p1 > p2 then p1 else p2;
    var low := p1 + (p2 - high);
    assert Pair(comp, high, low, th.u, th.vs[th.i]);
    if p1 == p2 || comp[high] == low {
      PairSame(comp, high, low, th.u, th.vs[th.i]);
    }
  }

  lemma CasPromise(comp: seq<nat>, th: Linker)
    requires Forest(comp) && Promise(comp, th) && th.pc.Cas?
    ensures Grows(comp, Next(comp, th).0)
    ensures Promise(Next(comp, th).0, Next(comp, th).1)
  {
    var high, low := th.pc.high, th.pc.low;
    if comp[high] == high {
      HookGrows(comp, high, low);
      PromiseKept(comp, comp[high := low], th);
      PairSame(comp[high := low], high, low, th.u, th.vs[th.i]);
    }
  }

  /** One step of a thread: what it does to the forest, and that its own promise holds afterwards. */
  lemma NextPromise(comp: seq<nat>, th: Linker)
    requires Forest(comp) && Promise(comp, th)
    ensures Grows(comp, Next(comp, th).0)
    ensures Promise(Next(comp, th).0, Next(comp, th).1)
  {
    if th.pc.Loop? {
      LoopPromise(comp, th);
    } else if th.pc.Cas? {
      CasPromise(comp, th);
    }
  }

  lemma NextInside(g: Graph, comp: seq<nat>, th: Linker)
    requires Forest(comp) && Inside(g, comp) && Promise(comp, th)
    requires forall j :: 0 <= j < |th.vs| ==> Connected(g, th.u, th.vs[j])
    ensures Inside(g, Next(comp, th).0)
  {
    if th.pc.Cas? {
      var u, v, x, y := th.u, th.vs[th.i], th.pc.high, th.pc.low;
      if Same(comp, x, v) && Same(comp, y, u) {
        u, v := v, u;
        ConnectedSym(g, v, u);
      }
      SameTreeConnected(g, comp, x, u);
      SameTreeConnected(g, comp, v, y);
      ConnectedTrans(g, x, u, v);
      ConnectedTrans(g, x, v, y);
    }
  }

  function After(s: Linking, t: nat): Linking
    requires t < |s.threads| && Indexed(|s.comp|, s.threads[t])
  {
    Linking(Next(s.comp, s.threads[t]).0, s.threads[t := Next(s.comp, s.threads[t]).1])
  }

  /** Every step of every thread keeps the invariant. */
  lemma StepInv(g: Graph, s: Linking, t: nat)
    requires LinkInv(g, s) && t < |s.threads|
    ensures Indexed(|s.comp|, s.threads[t]) && LinkInv(g, After(s, t))
    ensures Grows(s.comp, After(s, t).comp)
  {
    assert ThreadOk(g, s, t);
    var s' := After(s, t);
    NextPromise(s.comp, s.threads[t]);
    NextInside(g, s.comp, s.threads[t]);
    forall u: nat | u < |s'.threads|
      ensures ThreadOk(g, s', u)
    {
      assert ThreadOk(g, s, u);
      if u != t {
        PromiseKept(s.comp, s'.comp, s.threads[u]);
      }
    }
  }

  // ------------------------------------------------------------ whole phases

  /** The state after the threads have moved in the order of sched. */
  ghost function RunLinks(s: Linking, sched: seq<nat>): Linking
    decreases |sched|
  {
    if sched == [] then s
    else if sched[0] < |s.threads| && Indexed(|s.comp|, s.threads[sched[0]]) then RunLinks(After(s, sched[0]), sched[1..])
    else s
  }

  ghost predicate AllFinished(s: Linking) {
    forall t :: 0 <= t < |s.threads| ==> s.threads[t].pc.Finished?
  }

  lemma GrowsTrans(a: seq<nat>, b: seq<nat>, c: seq<nat>)
    requires Grows(a, b) && Grows(b, c)
    ensures Grows(a, c)
  {
  }

  lemma {:induction false} RunInv(g: Graph, s: Linking, sched: seq<nat>)
    requires LinkInv(g, s)
    ensures LinkInv(g, RunLinks(s, sched)) && Grows(s.comp, RunLinks(s, sched).comp)
    ensures |RunLinks(s, sched).threads| == |s.threads|
    ensures forall t :: 0 <= t < |s.threads| ==>
      RunLinks(s, sched).threads[t].u == s.threads[t].u && RunLinks(s, sched).threads[t].vs == s.threads[t].vs
    decreases |sched|
  {
    if sched != [] && sched[0] < |s.threads| && Indexed(|s.comp|, s.threads[sched[0]]) {
      StepInv(g, s, sched[0]);
      RunInv(g, After(s, sched[0]), sched[1..]);
      GrowsTrans(s.comp, After(s, sched[0]).comp, RunLinks(s, sched).comp);
    }
  }

  /** Skipped threads remember the label they were skipped for. */
  ghost predicate SkipsOnly(s: Linking, c: nat) {
    forall t :: 0 <= t < |s.threads| ==>
      (s.threads[t].pc.Skip? ==> s.threads[t].pc.c == c) &&
      (s.threads[t].pc.Finished? && s.threads[t].pc.skipped ==> s.threads[t].pc.c == c)
  }

  lemma {:induction false} RunSkips(s: Linking, sched: seq<nat>, c: nat)
    requires SkipsOnly(s, c)
    ensures SkipsOnly(RunLinks(s, sched), c)
    decreases |sched|
  {
    if sched != [] && sched[0] < |s.threads| && Indexed(|s.comp|, s.threads[sched[0]]) {
      RunSkips(After(s, sched[0]), sched[1..], c);
    }
  }

  ghost predicate NoSkips(s: Linking) {
    forall t :: 0 <= t < |s.threads| ==>
      !s.threads[t].pc.Skip? && (s.threads[t].pc.Finished? ==> !s.threads[t].pc.skipped)
  }

  lemma {:induction false} RunNoSkips(s: Linking, sched: seq<nat>)
    requires NoSkips(s)
    ensures NoSkips(RunLinks(s, sched))
    decreases |sched|
  {
    if sched != [] && sched[0] < |s.threads| && Indexed(|s.comp|, s.threads[sched[0]]) {
      RunNoSkips(After(s, sched[0]), sched[1..]);
    }
  }

  // ------------------------------------------------------------- wait-freedom

  function PcRank(n: nat, pc: LinkPc): nat {
    match pc
    case Skip(_) => 10 * n + 20
    case Pick => 10 * n + 19
    case LoadSecond(_) => 10 * n + 18
    case Loop(p1, p2) => 5 * (p1 + p2) + 4
    case Cas(high, low) => 5 * (high + low) + 3
    case LoadUp(high, low) => 5 * (high + low) + 2
    case LoadUpUp(up, low) => 5 * (up + low) + 6
    case LoadLow(p1, low) => 5 * (p1 + low) + 5
    case Finished(_, _) => 0
  }

  /** An upper bound on the steps thread th still takes; no other thread can raise it. */
  function Rank(n: nat, th: Linker): nat
    requires Indexed(n, th)
  {
    Times(|th.vs| - th.i, 10 * n + 20) + PcRank(n, th.pc)
  }

  /** Each retry of Link's loop works on smaller vertices, so every step brings a thread closer to its end. */
  lemma RankDrops(comp: seq<nat>, th: Linker)
    requires Forest(comp) && Promise(comp, th) && !th.pc.Finished?
    requires Indexed(|comp|, Next(comp, th).1)
    ensures Rank(|comp|, Next(comp, th).1) < Rank(|comp|, th)
  {
  }

  ghost function TotalRank(n: nat, threads: seq<Linker>): nat
    requires forall t :: 0 <= t < |threads| ==> Indexed(n, threads[t])
  {
    if threads == [] then 0 else TotalRank(n, threads[..|threads| - 1]) + Rank(n, threads[|threads| - 1])
  }

  lemma {:induction false} TotalRankUpdate(n: nat, threads: seq<Linker>, t: nat, th: Linker)
    requires forall u :: 0 <= u < |threads| ==> Indexed(n, threads[u])
    requires t < |threads| && Indexed(n, th)
    ensures TotalRank(n, threads[t := th]) == TotalRank(n, threads) - Rank(n, threads[t]) + Rank(n, th)
  {
    var m := |threads| - 1;
    if t == m {
      assert threads[t := th][..m] == threads[..m];
    } else {
      TotalRankUpdate(n, threads[..m], t, th);
      assert threads[t := th][..m] == threads[..m][t := th];
    }
  }

  /** sched never schedules a thread that has finished. */
  ghost predicate Busy(s: Linking, sched: seq<nat>)
    decreases |sched|
  {
    sched == [] ||
    (sched[0] < |s.threads| && Indexed(|s.comp|, s.threads[sched[0]]) && !s.threads[sched[0]].pc.Finished?
     && Busy(After(s, sched[0]), sched[1..]))
  }

  /** Every schedule is finite: the linking loop ends whatever the interleaving. */
  lemma {:induction false} LinkingTerminates(g: Graph, s: Linking, sched: seq<nat>)
    requires LinkInv(g, s) && Busy(s, sched)
    requires forall t :: 0 <= t < |s.threads| ==> Indexed(|s.comp|, s.threads[t])
    ensures |sched| <= TotalRank(|s.comp|, s.threads)
    decreases |sched|
  {
    if sched != [] {
      var t := sched[0];
      assert ThreadOk(g, s, t);
      NextPromise(s.comp, s.threads[t]);
      RankDrops(s.comp, s.threads[t]);
      StepInv(g, s, t);
      var s' := After(s, t);
      forall u: nat | u < |s'.threads|
        ensures Indexed(|s'.comp|, s'.threads[u])
      {
        assert ThreadOk(g, s', u);
      }
      TotalRankUpdate(|s.comp|, s.threads, t, s'.threads[t]);
      LinkingTerminates(g, s', sched[1..]);
    }
  }

  // --------------------------------------------------------------- Afforest

  ghost predicate LinkPhase(start: Linking, comp: seq<nat>) {
    exists sched :: AllFinished(RunLinks(start, sched)) && RunLinks(start, sched).comp == comp
  }

  /** out_neigh(u, offset): the list from offset on, with the offset clipped to the list. */
  function From(vs: seq<nat>, offset: nat): seq<nat> {
    if offset <= |vs| then vs[offset..] else []
  }

  /** Sampling round r: every vertex links to its neighbour number r, if it has one. */
  function SampleThread(g: Graph, r: nat, u: nat): Linker
    requires u < |g.outs|
  {
    Linker(u, if r < |g.outs[u]| then [g.outs[u][r]] else [], 0, Pick)
  }

  function Sampling(g: Graph, r: nat, comp: seq<nat>): Linking {
    Linking(comp, seq(|g.outs|, u requires 0 <= u < |g.outs| => SampleThread(g, r, u)))
  }

  /** The final loop: vertices of the sampled component are skipped, the others finish their lists. */
  function FinalThread(g: Graph, directed: bool, rounds: nat, c: nat, u: nat): Linker
    requires u < |g.outs| && u < |g.ins|
  {
    Linker(u, From(g.outs[u], rounds) + (if directed then g.ins[u] else []), 0, Skip(c))
  }

  function Finishing(g: Graph, directed: bool, rounds: nat, c: nat, comp: seq<nat>): Linking
    requires |g.ins| == |g.outs|
  {
    Linking(comp, seq(|g.outs|, u requires 0 <= u < |g.outs| => FinalThread(g, directed, rounds, c, u)))
  }

  /** Round r of sampling, with its Compress. */
  ghost predicate RoundAt(g: Graph, comps: seq<seq<nat>>, mids: seq<seq<nat>>, r: nat) {
    r < |mids| && r + 1 < |comps| && LinkPhase(Sampling(g, r, comps[r]), mids[r]) && CompressPhase(mids[r], comps[r + 1])
  }

  /** A complete run of Afforest: comps[r] is comp before round r, c any sampled label. */
  ghost predicate AfforestRun(g: Graph, directed: bool, rounds: nat, comps: seq<seq<nat>>, mids: seq<seq<nat>>,
                              c: nat, last: seq<nat>, result: seq<nat>) {
    && WellFormed(g) && (directed || g.ins == g.outs)
    && |comps| == rounds + 1 && |mids| == rounds
    && comps[0] == seq(g.n, u => u)
    && (forall r: nat {:trigger RoundAt(g, comps, mids, r)} :: r < rounds ==> RoundAt(g, comps, mids, r))
    && LinkPhase(Finishing(g, directed, rounds, c, comps[rounds]), last)
    && CompressPhase(last, result)
  }

  /** The first r neighbours of every vertex are united with it. */
  ghost predicate Sampled(g: Graph, comp: seq<nat>, r: nat) {
    forall u: nat, j: nat :: u < |g.outs| && j < r && j < |g.outs[u]| ==> Same(comp, u, g.outs[u][j])
  }

  lemma ListedConnected(g: Graph, u: nat, j: nat)
    requires WellFormed(g) && u < g.n && j < |g.outs[u]|
    ensures g.outs[u][j] < g.n && Connected(g, u, g.outs[u][j])
  {
    assert Listed(g, u, g.outs[u][j]);
    ConnectedEdge(g, u, g.outs[u][j]);
  }

  lemma SamplingInv(g: Graph, r: nat, comp: seq<nat>)
    requires WellFormed(g) && Forest(comp) && Inside(g, comp)
    ensures LinkInv(g, Sampling(g, r, comp)) && NoSkips(Sampling(g, r, comp))
  {
    var s := Sampling(g, r, comp);
    forall t: nat | t < |s.threads|
      ensures ThreadOk(g, s, t)
    {
      if r < |g.outs[t]| {
        ListedConnected(g, t, r);
      }
    }
  }

  lemma SamplingRound(g: Graph, r: nat, comp: seq<nat>, mid: seq<nat>)
    requires WellFormed(g) && Forest(comp) && Inside(g, comp) && Sampled(g, comp, r)
    requires LinkPhase(Sampling(g, r, comp), mid)
    ensures Forest(mid) && Inside(g, mid) && Sampled(g, mid, r + 1)
  {
    var s := Sampling(g, r, comp);
    var sched :| AllFinished(RunLinks(s, sched)) && RunLinks(s, sched).comp == mid;
    SamplingInv(g, r, comp);
    RunInv(g, s, sched);
    RunNoSkips(s, sched);
    var s' := RunLinks(s, sched);
    forall u: nat, j: nat | u < |g.outs| && j < r + 1 && j < |g.outs[u]|
      ensures Same(mid, u, g.outs[u][j])
    {
      if j < r {
        assert Same(comp, u, g.outs[u][j]);
      } else {
        assert ThreadOk(g, s', u);
        assert s.threads[u].vs == [g.outs[u][r]];
        assert s'.threads[u].vs[0] == g.outs[u][r];
      }
    }
  }

  lemma {:induction false} RoundsSample(g: Graph, comps: seq<seq<nat>>, mids: seq<seq<nat>>, r: nat)
    requires WellFormed(g) && r < |comps| && |mids| + 1 == |comps| && comps[0] == seq(g.n, u => u)
    requires forall i: nat {:trigger RoundAt(g, comps, mids, i)} :: i < |mids| ==> RoundAt(g, comps, mids, i)
    ensures Forest(comps[r]) && Inside(g, comps[r]) && Sampled(g, comps[r], r)
    decreases r
  {
    if r == 0 {
      forall x: nat | x < g.n
        ensures Connected(g, x, comps[0][x])
      {
        ConnectedSelf(g, x);
      }
    } else {
      RoundsSample(g, comps, mids, r - 1);
      assert RoundAt(g, comps, mids, r - 1);
      SamplingRound(g, r - 1, comps[r - 1], mids[r - 1]);
      CompressKeeps(g, mids[r - 1], comps[r]);
    }
  }

  lemma FinishingInv(g: Graph, directed: bool, rounds: nat, c: nat, comp: seq<nat>)
    requires WellFormed(g) && Forest(comp) && Inside(g, comp)
    ensures LinkInv(g, Finishing(g, directed, rounds, c, comp)) && SkipsOnly(Finishing(g, directed, rounds, c, comp), c)
  {
    var s := Finishing(g, directed, rounds, c, comp);
    forall t: nat | t < |s.threads|
      ensures ThreadOk(g, s, t)
    {
      var vs := s.threads[t].vs;
      forall j | 0 <= j < |vs|
        ensures vs[j] < g.n && Connected(g, t, vs[j])
      {
        var k := |From(g.outs[t], rounds)|;
        if j < k {
          ListedConnected(g, t, rounds + j);
        } else {
          var v := g.ins[t][j - k];
          assert v in g.ins[t] && Listed(g, v, t);
          ConnectedEdge(g, t, v);
        }
      }
    }
  }

  /** What the final loop leaves: u is in the sampled tree, or united with v. */
  lemma FinalVertex(g: Graph, directed: bool, rounds: nat, c: nat, comp: seq<nat>, s': Linking, u: nat, v: nat)
    requires WellFormed(g) && u < g.n && LinkInv(g, s') && AllFinished(s') && SkipsOnly(s', c)
    requires |s'.threads| == g.n && s'.threads[u].u == u
    requires s'.threads[u].vs == FinalThread(g, directed, rounds, c, u).vs
    requires Grows(comp, s'.comp) && Sampled(g, comp, rounds)
    requires v in g.outs[u] || (directed && v in g.ins[u])
    ensures Same(s'.comp, u, c) || Same(s'.comp, u, v)
  {
    assert ThreadOk(g, s', u);
    var vs := s'.threads[u].vs;
    if v in g.outs[u] {
      var j :| 0 <= j < |g.outs[u]| && g.outs[u][j] == v;
      if j < rounds {
        assert Same(comp, u, v);
      } else {
        assert vs[j - rounds] == v;
      }
    } else {
      var j :| 0 <= j < |g.ins[u]| && g.ins[u][j] == v;
      assert vs[|From(g.outs[u], rounds)| + j] == v;
    }
  }

  lemma EdgeUnited(g: Graph, directed: bool, rounds: nat, c: nat, comp: seq<nat>, s': Linking, a: nat, b: nat)
    requires WellFormed(g) && (directed || g.ins == g.outs) && LinkInv(g, s') && AllFinished(s') && SkipsOnly(s', c)
    requires |s'.threads| == g.n
    requires forall u: nat :: u < g.n ==> s'.threads[u].u == u && s'.threads[u].vs == FinalThread(g, directed, rounds, c, u).vs
    requires Grows(comp, s'.comp) && Sampled(g, comp, rounds)
    requires a < g.n && b < g.n && Listed(g, a, b)
    ensures Same(s'.comp, a, b)
  {
    FinalVertex(g, directed, rounds, c, comp, s', a, b);
    assert a in g.ins[b];
    FinalVertex(g, directed, rounds, c, comp, s', b, a);
  }

  /** After the last compression adjacent vertices have one label. */
  lemma LabelsAgree(g: Graph, directed: bool, rounds: nat, c: nat, comp: seq<nat>, s': Linking, result: seq<nat>)
    requires WellFormed(g) && (directed || g.ins == g.outs) && LinkInv(g, s') && AllFinished(s') && SkipsOnly(s', c)
    requires |s'.threads| == g.n
    requires forall u: nat :: u < g.n ==> s'.threads[u].u == u && s'.threads[u].vs == FinalThread(g, directed, rounds, c, u).vs
    requires Grows(comp, s'.comp) && Sampled(g, comp, rounds)
    requires |result| == g.n && forall x: nat :: x < |s'.comp| ==> x < g.n && result[x] == Root(s'.comp, x)
    ensures forall a: nat, b: nat :: Adjacent(g, a, b) ==> a < g.n && b < g.n && result[a] == result[b]
  {
    forall a: nat, b: nat | Adjacent(g, a, b)
      ensures a < g.n && b < g.n && result[a] == result[b]
    {
      if Listed(g, a, b) {
        EdgeUnited(g, directed, rounds, c, comp, s', a, b);
      } else {
        EdgeUnited(g, directed, rounds, c, comp, s', b, a);
      }
    }
  }

  /**
    Whatever the interleaving of every phase, whatever label is sampled and however many
    rounds are played, Afforest labels every vertex with the least vertex of its component.
  */
  lemma AfforestCorrect(g: Graph, directed: bool, rounds: nat, comps: seq<seq<nat>>, mids: seq<seq<nat>>,
                        c: nat, last: seq<nat>, result: seq<nat>)
    requires AfforestRun(g, directed, rounds, comps, mids, c, last, result)
    ensures LeastLabels(g, result)
  {
    RoundsSample(g, comps, mids, rounds);
    var comp := comps[rounds];
    var s := Finishing(g, directed, rounds, c, comp);
    FinishingInv(g, directed, rounds, c, comp);
    var sched :| AllFinished(RunLinks(s, sched)) && RunLinks(s, sched).comp == last;
    RunInv(g, s, sched);
    RunSkips(s, sched, c);
    var s' := RunLinks(s, sched);
    CompressKeeps(g, last, result);
    LabelsAgree(g, directed, rounds, c, comp, s', result);
    AgreeingLabelsAreLeast(g, result);
  }

  // ------------------------------------------------------ every graph has a complete run

  /** From every reachable state some schedule ends the linking loop. */
  lemma {:induction false} LinksEnd(g: Graph, s: Linking) returns (sched: seq<nat>)
    requires LinkInv(g, s) && forall t :: 0 <= t < |s.threads| ==> Indexed(|s.comp|, s.threads[t])
    ensures AllFinished(RunLinks(s, sched))
    decreases TotalRank(|s.comp|, s.threads)
  {
    sched := [];
    if t: nat :| t < |s.threads| && !s.threads[t].pc.Finished? {
      assert ThreadOk(g, s, t);
      NextPromise(s.comp, s.threads[t]);
      RankDrops(s.comp, s.threads[t]);
      StepInv(g, s, t);
      var s' := After(s, t);
      forall u: nat | u < |s'.threads|
        ensures Indexed(|s'.comp|, s'.threads[u])
      {
        assert ThreadOk(g, s', u);
      }
      TotalRankUpdate(|s.comp|, s.threads, t, s'.threads[t]);
      var rest := LinksEnd(g, s');
      sched := [t] + rest;
    }
  }

  lemma LinkHappens(g: Graph, s: Linking) returns (comp: seq<nat>)
    requires LinkInv(g, s)
    ensures LinkPhase(s, comp) && Forest(comp) && Inside(g, comp)
  {
    forall t: nat | t < |s.threads|
      ensures Indexed(|s.comp|, s.threads[t])
    {
      assert ThreadOk(g, s, t);
    }
    var sched := LinksEnd(g, s);
    RunInv(g, s, sched);
    comp := RunLinks(s, sched).comp;
  }

  lemma {:induction false} RoundsHappen(g: Graph, rounds: nat) returns (comps: seq<seq<nat>>, mids: seq<seq<nat>>)
    requires WellFormed(g)
    ensures |comps| == rounds + 1 && |mids| == rounds && comps[0] == seq(g.n, u => u)
    ensures forall r: nat {:trigger RoundAt(g, comps, mids, r)} :: r < rounds ==> RoundAt(g, comps, mids, r)
  {
    if rounds == 0 {
      comps, mids := [seq(g.n, u => u)], [];
    } else {
      var before, earlier := RoundsHappen(g, rounds - 1);
      RoundsSample(g, before, earlier, rounds - 1);
      var comp := before[rounds - 1];
      SamplingInv(g, rounds - 1, comp);
      var mid := LinkHappens(g, Sampling(g, rounds - 1, comp));
      var next := CompressHappens(mid);
      comps, mids := before + [next], earlier + [mid];
      forall r: nat | r < rounds
        ensures RoundAt(g, comps, mids, r)
      {
        assert r < rounds - 1 ==> RoundAt(g, before, earlier, r);
      }
    }
  }

  /** Every graph has a complete run, for any number of rounds and any label sampled. */
  lemma AfforestCompletes(g: Graph, directed: bool, rounds: nat, c: nat)
    requires WellFormed(g) && (directed || g.ins == g.outs)
    ensures exists comps, mids, last, result :: AfforestRun(g, directed, rounds, comps, mids, c, last, result)
  {
    var comps, mids := RoundsHappen(g, rounds);
    RoundsSample(g, comps, mids, rounds);
    FinishingInv(g, directed, rounds, c, comps[rounds]);
    var last := LinkHappens(g, Finishing(g, directed, rounds, c, comps[rounds]));
    var result := CompressHappens(last);
    assert AfforestRun(g, directed, rounds, comps, mids, c, last, result);
  }
}
