/**
  Connected components by Shiloach-Vishkin (trident-workloads/gapbs/src/cc_sv.cc).  The
  hooking loop reads and writes comp with plain accesses, so a hook can overwrite another
  one; threads interleave freely between the barriers.
*/
module ShiloachVishkin {
  import opened Graphs
  import opened Components
  import opened Compression

  /** One thread of the hooking loop, for vertex u, at neighbour vs[i]. */
  datatype HookPc =
    | Pick
    | LoadSecond(cu: nat)
    | Test(high: nat, low: nat)
    | Announce(high: nat, low: nat)
    | Write(high: nat, low: nat)
    | Over

  datatype Hooker = Hooker(u: nat, vs: seq<nat>, i: nat, pc: HookPc)

  datatype Hooking = Hooking(comp: seq<nat>, change: bool, threads: seq<Hooker>)

  predicate Indexed(n: nat, th: Hooker) {
    && th.u < n && th.i <= |th.vs| && (forall j :: 0 <= j < |th.vs| ==> th.vs[j] < n)
    && match th.pc
       case Pick => true
       case LoadSecond(cu) => cu < n && th.i < |th.vs|
       case Test(high, low) => low < high < n && th.i < |th.vs|
       case Announce(high, low) => low < high < n && th.i < |th.vs|
       case Write(high, low) => low < high < n && th.i < |th.vs|
       case Over => th.i == |th.vs|
  }

  function At(th: Hooker, pc: HookPc): Hooker {
    Hooker(th.u, th.vs, th.i, pc)
  }

  function Onward(th: Hooker): Hooker {
    Hooker(th.u, th.vs, th.i + 1, Pick)
  }

  /** The next shared access of thread t. */
  function After(s: Hooking, t: nat): Hooking
    requires t < |s.threads| && Indexed(|s.comp|, s.threads[t])
  {
    var th := s.threads[t];
    match th.pc
    case Pick =>
      if th.i == |th.vs| then Hooking(s.comp, s.change, s.threads[t := At(th, HookPc.Over)])
      else Hooking(s.comp, s.change, s.threads[t := At(th, LoadSecond(s.comp[th.u]))])
    case LoadSecond(cu) =>
      var cv := s.comp[th.vs[th.i]];
      if cu == cv then Hooking(s.comp, s.change, s.threads[t := Onward(th)])
      else
        var high := if cu > cv then cu else cv;
        var low := cu + (cv - high);
        Hooking(s.comp, s.change, s.threads[t := At(th, Test(high, low))])
    case Test(high, low) =>
      if s.comp[high] == high then Hooking(s.comp, s.change, s.threads[t := At(th, Announce(high, low))])
      else Hooking(s.comp, s.change, s.threads[t := Onward(th)])
    case Announce(high, low) => Hooking(s.comp, true, s.threads[t := At(th, HookPc.Write(high, low))])
    case Write(high, low) => Hooking(s.comp[high := low], s.change, s.threads[t := Onward(th)])
    case Over => s
  }

  // ------------------------------------------------------------- invariant

  /** What holds of thread t, relative to the labels start at the beginning of the round. */
  ghost predicate ThreadOk(g: Graph, start: seq<nat>, s: Hooking, t: nat) {
    && t < |s.threads| && Indexed(|s.comp|, s.threads[t]) && |start| == |s.comp|
    && (forall j :: 0 <= j < |s.threads[t].vs| ==> Connected(g, s.threads[t].u, s.threads[t].vs[j]))
    && var th := s.threads[t];
    && (!s.change ==> forall j :: 0 <= j < th.i ==> start[th.u] == start[th.vs[j]])
    && match th.pc
       case Pick => true
       case LoadSecond(cu) => Connected(g, th.u, cu) && (!s.change ==> cu == start[th.u])
       case Test(high, low) => Connected(g, high, low) && (!s.change ==> start[high] == high)
       case Announce(high, low) => Connected(g, high, low) && start[high] == high
       case Write(high, low) => Connected(g, high, low) && start[high] == high && s.change
       case Over => true
  }

  /** A vertex that was a root when the round began and has been, or is about to be, hooked. */
  ghost predicate Hooked(start: seq<nat>, s: Hooking, h: nat) {
    h < |start| == |s.comp| && start[h] == h && (s.comp[h] < h || exists t :: IsWriting(s, t, h))
  }

  ghost predicate IsWriting(s: Hooking, t: nat, h: nat) {
    t < |s.threads| && s.threads[t].pc.Write? && s.threads[t].pc.high == h
  }

  ghost predicate Flat(comp: seq<nat>) {
    Forest(comp) && forall x: nat :: x < |comp| ==> comp[comp[x]] == comp[x]
  }

  ghost predicate HookInv(g: Graph, start: seq<nat>, s: Hooking) {
    && Flat(start) && |start| == |s.comp|
    && Forest(s.comp) && Inside(g, s.comp)
    && (forall x :: 0 <= x < |start| && start[x] < x ==> s.comp[x] < x)
    && (!s.change ==> s.comp == start)
    && (s.change ==> exists h :: Hooked(start, s, h))
    && (forall t: nat {:trigger ThreadOk(g, start, s, t)} :: t < |s.threads| ==> ThreadOk(g, start, s, t))
  }

  lemma LoadConnected(g: Graph, comp: seq<nat>, u: nat, v: nat, cu: nat)
    requires Inside(g, comp) && u < |comp| && v < |comp| && Connected(g, u, v) && Connected(g, u, cu)
    ensures Connected(g, cu, comp[v]) && Connected(g, comp[v], cu)
  {
    ConnectedSym(g, u, cu);
    ConnectedTrans(g, cu, u, v);
    ConnectedTrans(g, cu, v, comp[v]);
    ConnectedSym(g, cu, comp[v]);
  }

  lemma OwnThread(g: Graph, start: seq<nat>, s: Hooking, t: nat)
    requires HookInv(g, start, s) && t < |s.threads|
    ensures Indexed(|s.comp|, s.threads[t]) && ThreadOk(g, start, After(s, t), t)
  {
    assert ThreadOk(g, start, s, t);
    var th := s.threads[t];
    if th.pc.LoadSecond? {
      LoadConnected(g, s.comp, th.u, th.vs[th.i], th.pc.cu);
    }
  }

  lemma OtherThread(g: Graph, start: seq<nat>, s: Hooking, t: nat, u: nat)
    requires HookInv(g, start, s) && t < |s.threads| && u < |s.threads| && u != t
    requires Indexed(|s.comp|, s.threads[t])
    ensures ThreadOk(g, start, After(s, t), u)
  {
    assert ThreadOk(g, start, s, t) && ThreadOk(g, start, s, u);
  }

  lemma HookedKept(g: Graph, start: seq<nat>, s: Hooking, t: nat)
    requires HookInv(g, start, s) && t < |s.threads| && Indexed(|s.comp|, s.threads[t])
    ensures After(s, t).change ==> exists h :: Hooked(start, After(s, t), h)
  {
    assert ThreadOk(g, start, s, t);
    var s', th := After(s, t), s.threads[t];
    if th.pc.Announce? {
      assert IsWriting(s', t, th.pc.high);
      assert Hooked(start, s', th.pc.high);
    } else if s.change {
      var h: nat :| Hooked(start, s, h);
      if s.comp[h] >= h {
        var u: nat :| IsWriting(s, u, h);
        assert u != t ==> IsWriting(s', u, h);
      }
      assert Hooked(start, s', h);
    }
  }

  /** Every access of every thread keeps the invariant, lost hooks included. */
  lemma StepInv(g: Graph, start: seq<nat>, s: Hooking, t: nat)
    requires HookInv(g, start, s) && t < |s.threads|
    ensures Indexed(|s.comp|, s.threads[t]) && HookInv(g, start, After(s, t))
  {
    OwnThread(g, start, s, t);
    HookedKept(g, start, s, t);
    var s' := After(s, t);
    assert ThreadOk(g, start, s, t);
    forall u: nat | u < |s'.threads|
      ensures ThreadOk(g, start, s', u)
    {
      if u != t {
        OtherThread(g, start, s, t, u);
      }
    }
  }

  // --------------------------------------------------------------- one round

  ghost function RunHooks(s: Hooking, sched: seq<nat>): Hooking
    decreases |sched|
  {
    if sched == [] then s
    else if sched[0] < |s.threads| && Indexed(|s.comp|, s.threads[sched[0]]) then RunHooks(After(s, sched[0]), sched[1..])
    else s
  }

  lemma {:induction false} RunInv(g: Graph, start: seq<nat>, s: Hooking, sched: seq<nat>)
    requires HookInv(g, start, s)
    ensures HookInv(g, start, RunHooks(s, sched))
    decreases |sched|
  {
    if sched != [] && sched[0] < |s.threads| && Indexed(|s.comp|, s.threads[sched[0]]) {
      StepInv(g, start, s, sched[0]);
      RunInv(g, start, After(s, sched[0]), sched[1..]);
    }
  }

  lemma {:induction false} RunTasks(s: Hooking, sched: seq<nat>)
    ensures |RunHooks(s, sched).threads| == |s.threads|
    ensures forall t :: 0 <= t < |s.threads| ==>
      RunHooks(s, sched).threads[t].u == s.threads[t].u && RunHooks(s, sched).threads[t].vs == s.threads[t].vs
    decreases |sched|
  {
    if sched != [] && sched[0] < |s.threads| && Indexed(|s.comp|, s.threads[sched[0]]) {
      RunTasks(After(s, sched[0]), sched[1..]);
    }
  }

  function StartHooks(g: Graph, comp: seq<nat>): Hooking {
    Hooking(comp, false, seq(|g.outs|, u requires 0 <= u < |g.outs| => Hooker(u, g.outs[u], 0, HookPc.Pick)))
  }

  ghost predicate AllOver(s: Hooking) {
    forall t :: 0 <= t < |s.threads| ==> s.threads[t].pc.Over?
  }

  /** The hooking loop can turn comp into comp', setting change or not. */
  ghost predicate HookPhase(g: Graph, comp: seq<nat>, comp': seq<nat>, change: bool) {
    exists sched :: AllOver(RunHooks(StartHooks(g, comp), sched))
      && RunHooks(StartHooks(g, comp), sched).comp == comp' && RunHooks(StartHooks(g, comp), sched).change == change
  }

  function Roots(comp: seq<nat>, k: nat): nat
    requires k <= |comp|
  {
    if k == 0 then 0 else Roots(comp, k - 1) + if comp[k - 1] == k - 1 then 1 else 0
  }

  lemma {:induction false} FewerRoots(a: seq<nat>, b: seq<nat>, k: nat, h: nat)
    requires Forest(a) && Forest(b) && |a| == |b| && k <= |a|
    requires forall x :: 0 <= x < |a| && a[x] < x ==> b[x] < x
    requires h < |a| && a[h] == h && b[h] < h
    ensures Roots(b, k) + (if h < k then 1 else 0) <= Roots(a, k)
    decreases k
  {
    if k > 0 {
      FewerRoots(a, b, k - 1, h);
    }
  }

  lemma StartInv(g: Graph, comp: seq<nat>)
    requires WellFormed(g) && Flat(comp) && Inside(g, comp)
    ensures HookInv(g, comp, StartHooks(g, comp))
  {
    var s := StartHooks(g, comp);
    forall t: nat | t < |s.threads|
      ensures ThreadOk(g, comp, s, t)
    {
      forall j | 0 <= j < |g.outs[t]|
        ensures g.outs[t][j] < g.n && Connected(g, t, g.outs[t][j])
      {
        assert Listed(g, t, g.outs[t][j]);
        ConnectedEdge(g, t, g.outs[t][j]);
      }
    }
  }

  /** One round: the labels stay inside components, and a round that sets change loses at least one root. */
  lemma RoundEffect(g: Graph, comp: seq<nat>, mid: seq<nat>, change: bool, comp': seq<nat>)
    requires WellFormed(g) && Flat(comp) && Inside(g, comp)
    requires HookPhase(g, comp, mid, change) && CompressPhase(mid, comp')
    ensures Flat(comp') && Inside(g, comp')
    ensures change ==> Roots(comp', g.n) < Roots(comp, g.n)
    ensures !change ==> comp' == comp && forall a: nat, b: nat :: Adjacent(g, a, b) ==> comp[a] == comp[b]
  {
    var s := StartHooks(g, comp);
    var sched :| AllOver(RunHooks(s, sched)) && RunHooks(s, sched).comp == mid && RunHooks(s, sched).change == change;
    StartInv(g, comp);
    RunInv(g, comp, s, sched);
    RunTasks(s, sched);
    var s' := RunHooks(s, sched);
    CompressKeeps(g, mid, comp');
    CompressRoots(g, mid, comp');
    if change {
      var h: nat :| Hooked(comp, s', h);
      FewerRoots(comp, comp', g.n, h);
    } else {
      forall x: nat | x < g.n
        ensures comp'[x] == comp[x]
      {
        FlatRoot(comp, x);
      }
      forall a: nat, b: nat | Adjacent(g, a, b)
        ensures comp[a] == comp[b]
      {
        QuietEdge(g, comp, s', a, b);
      }
    }
  }

  /** Compress turns every vertex into a child of its root, and roots stay what they are. */
  lemma CompressRoots(g: Graph, mid: seq<nat>, comp': seq<nat>)
    requires Forest(mid) && Forest(comp') && |comp'| == |mid|
    requires forall x: nat :: x < |mid| ==> comp'[x] == Root(mid, x)
    ensures Flat(comp')
    ensures forall x :: 0 <= x < |mid| ==> (comp'[x] < x <==> mid[x] < x)
  {
    forall x: nat | x < |mid|
      ensures comp'[comp'[x]] == comp'[x]
      ensures comp'[x] < x <==> mid[x] < x
    {
      assert Root(mid, Root(mid, x)) == Root(mid, x);
    }
  }

  /** In a round without change, both ends of every edge already had one label. */
  lemma QuietEdge(g: Graph, comp: seq<nat>, s: Hooking, a: nat, b: nat)
    requires WellFormed(g) && HookInv(g, comp, s) && AllOver(s) && !s.change && Adjacent(g, a, b)
    requires |s.threads| == g.n
    requires forall t :: 0 <= t < g.n ==> s.threads[t].u == t && s.threads[t].vs == g.outs[t]
    ensures comp[a] == comp[b]
  {
    var x, y := if Listed(g, a, b) then a else b, if Listed(g, a, b) then b else a;
    assert Listed(g, x, y);
    assert ThreadOk(g, comp, s, x);
    var j :| 0 <= j < |g.outs[x]| && g.outs[x][j] == y;
    assert s.threads[x].vs[j] == y;
  }

  // ----------------------------------------------------------- whole algorithm

  ghost predicate RoundAt(g: Graph, comps: seq<seq<nat>>, mids: seq<seq<nat>>, r: nat, change: bool) {
    r < |mids| && r + 1 < |comps| && HookPhase(g, comps[r], mids[r], change) && CompressPhase(mids[r], comps[r + 1])
  }

  /** Rounds from the start, all of which set change: the loop is not over. */
  ghost predicate Changing(g: Graph, comps: seq<seq<nat>>, mids: seq<seq<nat>>) {
    && WellFormed(g) && |comps| == |mids| + 1 && comps[0] == seq(g.n, u => u)
    && forall r: nat {:trigger RoundAt(g, comps, mids, r, true)} :: r < |mids| ==> RoundAt(g, comps, mids, r, true)
  }

  /** A complete run: every round but the last sets change. */
  ghost predicate SVRun(g: Graph, comps: seq<seq<nat>>, mids: seq<seq<nat>>) {
    && |mids| > 0 && |comps| == |mids| + 1 && Changing(g, comps[..|mids|], mids[..|mids| - 1])
    && RoundAt(g, comps, mids, |mids| - 1, false)
  }

  lemma {:induction false} Identity(n: nat, k: nat)
    requires k <= n
    ensures Roots(seq(n, u => u), k) == k
    decreases k
  {
    if k > 0 {
      Identity(n, k - 1);
    }
  }

  /** The loop cannot go on for more than n rounds: each of them loses a root. */
  lemma {:induction false} ChangingRounds(g: Graph, comps: seq<seq<nat>>, mids: seq<seq<nat>>)
    requires Changing(g, comps, mids)
    ensures |mids| <= g.n
    ensures Flat(comps[|mids|]) && Inside(g, comps[|mids|]) && Roots(comps[|mids|], g.n) + |mids| <= g.n
    decreases |mids|
  {
    if mids == [] {
      Identity(g.n, g.n);
      forall x: nat | x < g.n
        ensures Connected(g, x, comps[0][x])
      {
        ConnectedSelf(g, x);
      }
    } else {
      var m := |mids| - 1;
      var earlier, before := comps[..m + 1], mids[..m];
      forall r: nat | r < m
        ensures RoundAt(g, earlier, before, r, true)
      {
        assert RoundAt(g, comps, mids, r, true);
      }
      ChangingRounds(g, earlier, before);
      assert RoundAt(g, comps, mids, m, true);
      RoundEffect(g, comps[m], mids[m], true, comps[m + 1]);
    }
  }

  /**
    Whatever the interleaving, a run of Shiloach-Vishkin has at most n + 1 rounds and at its end
    labels every vertex with the least vertex of its component, although plain writes may lose hooks.
  */
  lemma SVCorrect(g: Graph, comps: seq<seq<nat>>, mids: seq<seq<nat>>)
    requires SVRun(g, comps, mids)
    ensures |mids| <= g.n + 1
    ensures LeastLabels(g, comps[|mids|])
  {
    var r := |mids| - 1;
    ChangingRounds(g, comps[..r + 1], mids[..r]);
    RoundEffect(g, comps[r], mids[r], false, comps[r + 1]);
    AgreeingLabelsAreLeast(g, comps[r + 1]);
  }

  // ------------------------------------------------------------ the hooking loop ends

  /** How many accesses a thread has left at most. */
  function Rank(th: Hooker): nat {
    var left: nat := if th.i < |th.vs| then 5 * (|th.vs| - th.i - 1) else 0;
    match th.pc
    case Pick => if th.i < |th.vs| then left + 6 else 1
    case LoadSecond(_) => left + 5
    case Test(_, _) => left + 4
    case Announce(_, _) => left + 3
    case Write(_, _) => left + 2
    case Over => 0
  }

  ghost function TotalRank(threads: seq<Hooker>): nat {
    if threads == [] then 0 else TotalRank(threads[..|threads| - 1]) + Rank(threads[|threads| - 1])
  }

  lemma {:induction false} RankUpdate(threads: seq<Hooker>, t: nat, th: Hooker)
    requires t < |threads|
    ensures TotalRank(threads[t := th]) == TotalRank(threads) - Rank(threads[t]) + Rank(th)
  {
    var m := |threads| - 1;
    if t == m {
      assert threads[t := th][..m] == threads[..m];
    } else {
      RankUpdate(threads[..m], t, th);
      assert threads[t := th][..m] == threads[..m][t := th];
    }
  }

  /** A schedule that only picks threads with work to do. */
  ghost predicate Busy(s: Hooking, sched: seq<nat>)
    decreases |sched|
  {
    sched == [] ||
    (sched[0] < |s.threads| && Indexed(|s.comp|, s.threads[sched[0]]) && !s.threads[sched[0]].pc.Over? && Busy(After(s, sched[0]), sched[1..]))
  }

  /** The hooking loop of a round ends whatever the interleaving. */
  lemma {:induction false} HooksTerminate(g: Graph, start: seq<nat>, s: Hooking, sched: seq<nat>)
    requires HookInv(g, start, s) && Busy(s, sched)
    ensures |sched| <= TotalRank(s.threads)
    decreases |sched|
  {
    if sched != [] {
      var t, s' := sched[0], After(s, sched[0]);
      RankUpdate(s.threads, t, s'.threads[t]);
      StepInv(g, start, s, t);
      HooksTerminate(g, start, s', sched[1..]);
    }
  }

  // ------------------------------------------------------ every graph has a complete run

  /** From every reachable state some schedule ends the hooking loop. */
  lemma {:induction false} HooksEnd(g: Graph, start: seq<nat>, s: Hooking) returns (sched: seq<nat>)
    requires HookInv(g, start, s)
    ensures AllOver(RunHooks(s, sched))
    decreases TotalRank(s.threads)
  {
    sched := [];
    if t: nat :| t < |s.threads| && !s.threads[t].pc.Over? {
      StepInv(g, start, s, t);
      var s' := After(s, t);
      RankUpdate(s.threads, t, s'.threads[t]);
      var rest := HooksEnd(g, start, s');
      sched := [t] + rest;
    }
  }

  lemma RoundHappens(g: Graph, comp: seq<nat>) returns (mid: seq<nat>, change: bool, comp': seq<nat>)
    requires WellFormed(g) && Flat(comp) && Inside(g, comp)
    ensures HookPhase(g, comp, mid, change) && CompressPhase(mid, comp')
  {
    var s := StartHooks(g, comp);
    StartInv(g, comp);
    var sched := HooksEnd(g, comp, s);
    RunInv(g, comp, s, sched);
    mid, change := RunHooks(s, sched).comp, RunHooks(s, sched).change;
    comp' := CompressHappens(mid);
  }

  /** Rounds that set change go on to a complete run. */
  lemma {:induction false} RunGoesOn(g: Graph, comps: seq<seq<nat>>, mids: seq<seq<nat>>)
      returns (comps': seq<seq<nat>>, mids': seq<seq<nat>>)
    requires Changing(g, comps, mids)
    ensures SVRun(g, comps', mids')
    decreases g.n - |mids|
  {
    var m := |mids|;
    ChangingRounds(g, comps, mids);
    var mid, change, comp := RoundHappens(g, comps[m]);
    comps', mids' := comps + [comp], mids + [mid];
    assert comps'[..m + 1] == comps && mids'[..m] == mids;
    assert RoundAt(g, comps', mids', m, change);
    if change {
      forall r: nat | r < m + 1
        ensures RoundAt(g, comps', mids', r, true)
      {
        assert r < m ==> RoundAt(g, comps, mids, r, true);
      }
      ChangingRounds(g, comps', mids');
      comps', mids' := RunGoesOn(g, comps', mids');
    }
  }

  /** Every graph has a complete run. */
  lemma SVCompletes(g: Graph)
    requires WellFormed(g)
    ensures exists comps, mids :: SVRun(g, comps, mids)
  {
    var comps, mids := RunGoesOn(g, [seq(g.n, u => u)], []);
  }
}
