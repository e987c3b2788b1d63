/**
  Delta-stepping shortest paths (trident-workloads/gapbs/src/sssp.cc, DeltaStep) as a step
  machine: any number of threads, one shared access at a time, in any order, with the two
  barriers of each iteration.
*/
module DeltaStep {
  import opened WeightedGraphs
  import opened Frontier

  const kMaxBin: nat := 0x7fff_ffff_ffff_ffff

  /** Where a thread is.  u is the vertex at work, j its edge, prev and cand are old_dist and new_dist. */
  datatype Pc =
    | Head
    | Grab
    | Check(u: nat)
    | Scan(u: nat, j: nat)
    | LoadSource(u: nat, j: nat, prev: int)
    | Cas(u: nat, j: nat, prev: int, cand: int)
    | Reload(u: nat, j: nat, prev: int, cand: int)
    | Push(u: nat, j: nat, cand: int)
    | Vote
    | Voted
    | Single
    | ResetTail
    | Reserve
    | Copy(start: nat, k: nat)
    | Copied
    | Done

  datatype Thread = Thread(bins: seq<seq<nat>>, pc: Pc)

  /**
    What the threads share.  cur is iter & 1 and selects the current half of each double
    buffer; todo are the frontier positions the work-sharing loop has not handed out;
    single says that the single block has been taken; printed logs PrintStep's bin index.
  */
  datatype Shared = Shared(dist: seq<int>, frontier: map<nat, nat>, indexes: seq<nat>, tails: seq<nat>, cur: nat,
                           todo: set<nat>, single: bool, printed: seq<nat>)

  predicate Sized(sh: Shared) {
    |sh.indexes| == 2 && |sh.tails| == 2 && sh.cur < 2
  }

  function CurrBin(sh: Shared): nat requires Sized(sh) { sh.indexes[sh.cur] }
  function NextBin(sh: Shared): nat requires Sized(sh) { sh.indexes[1 - sh.cur] }
  function CurrTail(sh: Shared): nat requires Sized(sh) { sh.tails[sh.cur] }
  function NextTail(sh: Shared): nat requires Sized(sh) { sh.tails[1 - sh.cur] }

  function At(th: Thread, pc: Pc): Thread {
    Thread(th.bins, pc)
  }

  /** local_bins[i].push_back(v), growing local_bins first if it is too short. */
  function PushBin(bins: seq<seq<nat>>, i: nat, v: nat): (r: seq<seq<nat>>)
    ensures |r| == if i < |bins| then |bins| else i + 1
    ensures forall k :: 0 <= k < |r| ==> r[k] == (if k < |bins| then bins[k] else []) + (if k == i then [v] else [])
  {
    var grown := if i < |bins| then bins else bins + seq(i + 1 - |bins|, k => []);
    grown[i := grown[i] + [v]]
  }

  /** The first non-empty bin from i on, or kMaxBin: what a thread votes for. */
  function FirstBin(bins: seq<seq<nat>>, i: nat): (r: nat)
    ensures r == kMaxBin || (i <= r < |bins| && bins[r] != [])
    ensures forall k :: i <= k < |bins| && bins[k] != [] ==> r <= k || r == kMaxBin
    ensures |bins| <= kMaxBin && r == kMaxBin ==> forall k :: i <= k < |bins| ==> bins[k] == []
    decreases |bins| - i
  {
    if i >= |bins| then kMaxBin else if bins[i] != [] then i else FirstBin(bins, i + 1)
  }

  /** The locals of a thread are valid indices. */
  ghost predicate Indexed(g: WGraph, sh: Shared, th: Thread) {
    && WellWeighted(g) && |sh.dist| == g.n && Sized(sh)
    && match th.pc
       case Check(u) => u < g.n
       case Scan(u, j) => u < g.n && j <= |g.outs[u]|
       case LoadSource(u, j, _) => HasEdge(g, u, j)
       case Cas(u, j, _, _) => HasEdge(g, u, j)
       case Reload(u, j, _, _) => HasEdge(g, u, j)
       case Push(u, j, cand) => HasEdge(g, u, j) && cand >= 0
       case Copy(start, k) => NextBin(sh) < |th.bins| && k <= |th.bins[NextBin(sh)]|
       case _ => true
  }

  /** The next atomic step of a thread; p is the frontier position handed out when it asks for work. */
  ghost function Next(g: WGraph, delta: nat, sh: Shared, th: Thread, p: nat): (r: (Shared, Thread))
    requires delta > 0 && Indexed(g, sh, th)
  {
    match th.pc
    case Head => (sh, At(th, if CurrBin(sh) != kMaxBin then Grab else Done))
    case Grab =>
      if sh.todo == {} then (sh, At(th, Vote))
      else if p in sh.todo && p in sh.frontier then (sh.(todo := sh.todo - {p}), At(th, Check(sh.frontier[p])))
      else (sh, th)
    case Check(u) => (sh, At(th, if sh.dist[u] >= delta * CurrBin(sh) then Scan(u, 0) else Grab))
    case Scan(u, j) =>
      if j == |g.outs[u]| then (sh, At(th, Grab))
      else assert HasEdge(g, u, j); (sh, At(th, LoadSource(u, j, sh.dist[g.outs[u][j].v])))
    case LoadSource(u, j, prev) =>
      var cand := sh.dist[u] + g.outs[u][j].w;
      (sh, At(th, if cand < prev then Cas(u, j, prev, cand) else Scan(u, j + 1)))
    case Cas(u, j, prev, cand) =>
      var v := g.outs[u][j].v;
      if sh.dist[v] == prev then (sh.(dist := sh.dist[v := cand]), At(th, Push(u, j, cand)))
      else (sh, At(th, Reload(u, j, prev, cand)))
    case Reload(u, j, _, cand) =>
      var prev := sh.dist[g.outs[u][j].v];
      (sh, At(th, if prev <= cand then Scan(u, j + 1) else Cas(u, j, prev, cand)))
    case Push(u, j, cand) => (sh, Thread(PushBin(th.bins, cand / delta, g.outs[u][j].v), Scan(u, j + 1)))
    case Vote =>
      var b := FirstBin(th.bins, CurrBin(sh));
      (sh.(indexes := sh.indexes[1 - sh.cur := if b < NextBin(sh) then b else NextBin(sh)]), At(th, Voted))
    case Single =>
      if sh.single then (sh, At(th, Reserve))
      else (sh.(single := true, printed := sh.printed + [CurrBin(sh)], indexes := sh.indexes[sh.cur := kMaxBin]),
            At(th, ResetTail))
    case ResetTail => (sh.(tails := sh.tails[sh.cur := 0]), At(th, Reserve))
    case Reserve =>
      if NextBin(sh) < |th.bins| then
        (sh.(tails := sh.tails[1 - sh.cur := NextTail(sh) + |th.bins[NextBin(sh)]|]), At(th, Copy(NextTail(sh), 0)))
      else (sh, At(th, Copied))
    case Copy(start, k) =>
      var bin := th.bins[NextBin(sh)];
      if k < |bin| then (sh.(frontier := sh.frontier[start + k := bin[k]]), At(th, Copy(start, k + 1)))
      else (sh, Thread(th.bins[NextBin(sh) := []], Copied))
    case Voted => (sh, th)
    case Copied => (sh, th)
    case Done => (sh, th)
  }

  // ------------------------------------------------- relaxing: what threads know

  ghost predicate InBin(th: Thread, i: nat, v: nat) {
    i < |th.bins| && v in th.bins[i]
  }

  /** The least distance of bin i is a distance. */
  ghost predicate BinFits(delta: nat, i: nat) {
    delta * i <= kDistInf && i <= kDistInf
  }

  /** Vertices in bins have labels, and the bins below low are empty. */
  ghost predicate BinsOk(g: WGraph, delta: nat, dist: seq<int>, th: Thread, low: nat) {
    |dist| == g.n &&
    forall i: nat, v: nat {:trigger InBin(th, i, v)} :: InBin(th, i, v) ==>
      v < g.n && dist[v] < kDistInf && low <= i && BinFits(delta, i)
  }

  function BinOf(delta: nat, d: int): int
    requires delta > 0
  {
    d / delta
  }

  lemma {:induction false} Scaled(k: nat, a: int, b: int)
    requires k > 0 && a < b
    ensures k * a + k <= k * b
  {
    if k > 1 {
      Scaled(k - 1, a, b);
    }
  }

  lemma BinMonotone(delta: nat, d: int, e: int)
    requires delta > 0 && d <= e
    ensures BinOf(delta, d) <= BinOf(delta, e)
  {
    if BinOf(delta, e) < BinOf(delta, d) {
      Scaled(delta, BinOf(delta, e), BinOf(delta, d));
      assert false;
    }
  }

  lemma BinOfMultiple(delta: nat, b: int)
    requires delta > 0
    ensures BinOf(delta, delta * b) == b
  {
    var q, r := BinOf(delta, delta * b), (delta * b) % delta;
    assert delta * b == delta * q + r;
    if q < b {
      Scaled(delta, q, b);
    } else if b < q {
      Scaled(delta, b, q);
    }
  }

  /** The test of the source, with its multiplication, compares bins. */
  lemma BinBound(delta: nat, d: int, b: nat)
    requires delta > 0
    ensures d >= delta * b <==> BinOf(delta, d) >= b
  {
    if d >= delta * b {
      BinOfMultiple(delta, b);
      BinMonotone(delta, delta * b, d);
    } else if BinOf(delta, d) >= b {
      if BinOf(delta, d) > b {
        Scaled(delta, b, BinOf(delta, d));
      }
      assert false;
    }
  }

  lemma BinRange(delta: nat, d: int)
    requires delta > 0 && d >= 0
    ensures 0 <= BinOf(delta, d) <= d && delta * BinOf(delta, d) <= d
  {
    BinOfMultiple(delta, 0);
    BinMonotone(delta, 0, d);
    if BinOf(delta, d) > d {
      Scaled(delta, d, BinOf(delta, d));
      if d > 0 {
        Scaled(delta, 0, d);
      }
      ScaleUp(delta, d);
      assert false;
    }
  }

  lemma {:induction false} ScaleUp(k: nat, d: nat)
    requires k > 0
    ensures d <= k * d
  {
    if k > 1 {
      ScaleUp(k - 1, d);
    }
  }

  /** u has a label, and not one below the current bin. */
  ghost predicate High(g: WGraph, delta: nat, dist: seq<int>, b: nat, u: nat) {
    delta > 0 && u < g.n && |dist| == g.n && dist[u] < kDistInf && BinOf(delta, dist[u]) >= b
  }

  /** cand is a walk's length to the end of edge j of u, through u, and not below the current bin. */
  ghost predicate Candidate(g: WGraph, delta: nat, s: nat, dist: seq<int>, b: nat, u: nat, j: nat, cand: int) {
    && High(g, delta, dist, b, u) && HasEdge(g, u, j)
    && HasWalk(g, s, g.outs[u][j].v, cand) && 0 <= cand < kDistInf
    && dist[u] + g.outs[u][j].w <= cand && BinOf(delta, cand) >= b
  }

  ghost predicate Knows(g: WGraph, delta: nat, s: nat, sh: Shared, th: Thread) {
    && delta > 0 && Indexed(g, sh, th) && BinsOk(g, delta, sh.dist, th, CurrBin(sh))
    && var b := CurrBin(sh);
       match th.pc
       case Head => true
       case Grab => true
       case Check(u) => sh.dist[u] < kDistInf
       case Scan(u, j) => High(g, delta, sh.dist, b, u)
       case LoadSource(u, j, prev) => High(g, delta, sh.dist, b, u) && sh.dist[g.outs[u][j].v] <= prev <= kDistInf
       case Cas(u, j, prev, cand) =>
         Candidate(g, delta, s, sh.dist, b, u, j, cand) && cand < prev <= kDistInf && sh.dist[g.outs[u][j].v] <= prev
       case Reload(u, j, prev, cand) =>
         Candidate(g, delta, s, sh.dist, b, u, j, cand) && prev <= kDistInf && sh.dist[g.outs[u][j].v] < prev
       case Push(u, j, cand) =>
         Candidate(g, delta, s, sh.dist, b, u, j, cand) && sh.dist[g.outs[u][j].v] <= cand
       case Vote => sh.todo == {}
       case Voted => sh.todo == {} && forall i: nat, v: nat {:trigger InBin(th, i, v)} :: InBin(th, i, v) ==> NextBin(sh) <= i
       case _ => false
  }

  // --------------------------------------------- relaxing: no edge is forgotten

  /** v is in bin i of the thread, or about to be pushed there. */
  ghost predicate Holds(g: WGraph, delta: nat, th: Thread, v: nat, i: int) {
    || (i >= 0 && InBin(th, i, v))
    || (delta > 0 && th.pc.Push? && HasEdge(g, th.pc.u, th.pc.j) && g.outs[th.pc.u][th.pc.j].v == v && BinOf(delta, th.pc.cand) == i)
  }

  /** The thread will still look at edge j of u with u's present label. */
  ghost predicate Works(g: WGraph, dist: seq<int>, th: Thread, u: nat, j: nat) {
    match th.pc
    case Check(x) => x == u
    case Scan(x, i) => x == u && i <= j
    case LoadSource(x, i, _) => x == u && i <= j
    case Cas(x, i, _, cand) => x == u && (i < j || (i == j && Exact(g, dist, u, j, cand)))
    case Reload(x, i, _, cand) => x == u && (i < j || (i == j && Exact(g, dist, u, j, cand)))
    case Push(x, i, _) => x == u && i < j
    case _ => false
  }

  ghost predicate Exact(g: WGraph, dist: seq<int>, u: nat, j: nat, cand: int) {
    HasEdge(g, u, j) && u < |dist| && cand == dist[u] + g.outs[u][j].w
  }

  /** u sits in the bin of its present label. */
  ghost predicate Awaits(g: WGraph, delta: nat, dist: seq<int>, threads: seq<Thread>, u: nat) {
    delta > 0 && u < |dist| && exists t: nat :: t < |threads| && Holds(g, delta, threads[t], u, BinOf(delta, dist[u]))
  }

  ghost predicate Waiting(sh: Shared, u: nat) {
    exists p :: p in sh.todo && p in sh.frontier && sh.frontier[p] == u
  }

  ghost predicate AtWork(g: WGraph, sh: Shared, threads: seq<Thread>, u: nat, j: nat) {
    Waiting(sh, u) || exists t: nat :: t < |threads| && Works(g, sh.dist, threads[t], u, j)
  }

  ghost predicate Covered(g: WGraph, delta: nat, sh: Shared, threads: seq<Thread>, u: nat, j: nat) {
    || Settled(g, sh.dist, u, j)
    || Awaits(g, delta, sh.dist, threads, u)
    || (Sized(sh) && High(g, delta, sh.dist, CurrBin(sh), u) && AtWork(g, sh, threads, u, j))
  }

  // ---------------------------------------------------- relaxing: the invariant

  ghost predicate TodoOk(g: WGraph, sh: Shared, p: nat) {
    && Sized(sh) && |sh.dist| == g.n && p < CurrTail(sh) && p in sh.frontier && sh.frontier[p] < g.n
    && sh.dist[sh.frontier[p]] < kDistInf
  }

  /** The vote so far: no bin yet, or one that is not below the current bin and not empty. */
  ghost predicate VoteOk(sh: Shared, threads: seq<Thread>) {
    && Sized(sh)
    && (NextBin(sh) != kMaxBin ==>
          CurrBin(sh) <= NextBin(sh) &&
          exists t: nat :: t < |threads| && threads[t].pc.Voted? && NextBin(sh) < |threads[t].bins| && threads[t].bins[NextBin(sh)] != [])
  }

  ghost predicate Sorted(xs: seq<nat>, last: nat) {
    && (forall i, j :: 0 <= i < j < |xs| ==> xs[i] <= xs[j])
    && (forall i :: 0 <= i < |xs| ==> xs[i] <= last)
  }

  ghost predicate ThreadKnows(g: WGraph, delta: nat, s: nat, sh: Shared, threads: seq<Thread>, t: nat) {
    t < |threads| && Knows(g, delta, s, sh, threads[t])
  }

  ghost predicate Knowing(g: WGraph, delta: nat, s: nat, sh: Shared, threads: seq<Thread>) {
    forall t: nat {:trigger ThreadKnows(g, delta, s, sh, threads, t)} :: t < |threads| ==> ThreadKnows(g, delta, s, sh, threads, t)
  }

  ghost predicate Covering(g: WGraph, delta: nat, sh: Shared, threads: seq<Thread>) {
    forall u: nat, j: nat {:trigger Covered(g, delta, sh, threads, u, j)} :: HasEdge(g, u, j) ==> Covered(g, delta, sh, threads, u, j)
  }

  ghost predicate Feeding(g: WGraph, sh: Shared) {
    forall p: nat {:trigger TodoOk(g, sh, p)} :: p in sh.todo ==> TodoOk(g, sh, p)
  }

  ghost predicate RelaxInv(g: WGraph, delta: nat, s: nat, sh: Shared, threads: seq<Thread>) {
    && delta > 0 && WellWeighted(g) && Sized(sh) && |threads| > 0
    && Labels(g, s, sh.dist) && Knowing(g, delta, s, sh, threads) && Covering(g, delta, sh, threads) && Feeding(g, sh)
    && BinFits(delta, CurrBin(sh)) && CurrTail(sh) > 0 && NextTail(sh) == 0
    && VoteOk(sh, threads) && Sorted(sh.printed, CurrBin(sh))
  }

  // ----------------------------------------------- relaxing: one step of a thread

  ghost predicate Relaxing(pc: Pc) {
    pc.Head? || pc.Grab? || pc.Check? || pc.Scan? || pc.LoadSource? || pc.Cas? || pc.Reload? || pc.Push? || pc.Vote? || pc.Voted?
  }

  /** What a step of one thread may do to what the others see. */
  ghost predicate Eases(delta: nat, sh: Shared, sh': Shared) {
    && delta > 0 && Sized(sh) && Sized(sh') && |sh'.dist| == |sh.dist|
    && sh'.cur == sh.cur && sh'.tails == sh.tails && sh'.frontier == sh.frontier && sh'.todo <= sh.todo
    && CurrBin(sh') == CurrBin(sh) && NextBin(sh') <= NextBin(sh) && sh'.printed == sh.printed && sh'.single == sh.single
    && forall v: nat {:trigger sh'.dist[v]} :: v < |sh.dist| ==>
      sh'.dist[v] <= sh.dist[v] && (sh'.dist[v] == sh.dist[v] || BinOf(delta, sh'.dist[v]) >= CurrBin(sh))
  }

  lemma OthersKnow(g: WGraph, delta: nat, s: nat, sh: Shared, sh': Shared, th: Thread)
    requires Knows(g, delta, s, sh, th) && Eases(delta, sh, sh')
    ensures Knows(g, delta, s, sh', th)
  {
    forall i: nat, v: nat | InBin(th, i, v)
      ensures v < g.n && sh'.dist[v] < kDistInf && CurrBin(sh) <= i && BinFits(delta, i)
    {
    }
  }

  lemma LoadSourceKnows(g: WGraph, delta: nat, s: nat, sh: Shared, th: Thread, p: nat)
    requires WellWeighted(g) && Labels(g, s, sh.dist) && Knows(g, delta, s, sh, th) && th.pc.LoadSource?
    ensures Knows(g, delta, s, sh, Next(g, delta, sh, th, p).1)
  {
    var u, j := th.pc.u, th.pc.j;
    var cand := sh.dist[u] + g.outs[u][j].w;
    assert LabelAt(g, s, sh.dist, u);
    ExtendWalk(g, s, u, j, sh.dist[u]);
    BinMonotone(delta, sh.dist[u], cand);
    var th' := Next(g, delta, sh, th, p).1;
    assert forall i: nat, v: nat :: InBin(th', i, v) ==> InBin(th, i, v);
  }

  lemma CasKnows(g: WGraph, delta: nat, s: nat, sh: Shared, th: Thread, p: nat)
    requires WellWeighted(g) && Labels(g, s, sh.dist) && Knows(g, delta, s, sh, th) && th.pc.Cas?
    ensures Eases(delta, sh, Next(g, delta, sh, th, p).0) && Labels(g, s, Next(g, delta, sh, th, p).0.dist)
    ensures Knows(g, delta, s, Next(g, delta, sh, th, p).0, Next(g, delta, sh, th, p).1)
  {
    var v := g.outs[th.pc.u][th.pc.j].v;
    var (sh', th') := Next(g, delta, sh, th, p);
    assert LabelAt(g, s, sh.dist, th.pc.u);
    if sh.dist[v] == th.pc.prev {
      LowerLabel(g, s, sh.dist, v, th.pc.cand);
    }
    OthersKnow(g, delta, s, sh, sh', th);
    assert forall i: nat, x: nat :: InBin(th', i, x) ==> InBin(th, i, x);
  }

  lemma PushKnows(g: WGraph, delta: nat, s: nat, sh: Shared, th: Thread, p: nat)
    requires WellWeighted(g) && Labels(g, s, sh.dist) && Knows(g, delta, s, sh, th) && th.pc.Push?
    ensures Knows(g, delta, s, sh, Next(g, delta, sh, th, p).1)
  {
    var v, d := g.outs[th.pc.u][th.pc.j].v, th.pc.cand;
    var th' := Next(g, delta, sh, th, p).1;
    BinRange(delta, d);
    forall i: nat, x: nat | InBin(th', i, x)
      ensures InBin(th, i, x) || (x == v && i == BinOf(delta, d))
    {
    }
  }

  lemma VoteKnows(g: WGraph, delta: nat, s: nat, sh: Shared, th: Thread, p: nat)
    requires WellWeighted(g) && Knows(g, delta, s, sh, th) && th.pc.Vote?
    ensures Eases(delta, sh, Next(g, delta, sh, th, p).0)
    ensures Knows(g, delta, s, Next(g, delta, sh, th, p).0, Next(g, delta, sh, th, p).1)
  {
    var (sh', th') := Next(g, delta, sh, th, p);
    forall i: nat, v: nat | InBin(th', i, v)
      ensures InBin(th, i, v) && NextBin(sh') <= i
    {
      assert InBin(th, i, v);
      EmptyBins(th.bins, CurrBin(sh), i);
    }
  }

  lemma EmptyBins(bins: seq<seq<nat>>, from: nat, i: nat)
    requires from <= i < |bins| && bins[i] != [] && i < kMaxBin
    ensures FirstBin(bins, from) <= i
    decreases |bins| - from
  {
    if bins[from] == [] {
      EmptyBins(bins, from + 1, i);
    }
  }

  lemma CheckKnows(g: WGraph, delta: nat, s: nat, sh: Shared, th: Thread, p: nat)
    requires WellWeighted(g) && Labels(g, s, sh.dist) && Knows(g, delta, s, sh, th) && th.pc.Check?
    ensures Knows(g, delta, s, sh, Next(g, delta, sh, th, p).1)
  {
    BinBound(delta, sh.dist[th.pc.u], CurrBin(sh));
    var th' := Next(g, delta, sh, th, p).1;
    assert forall i: nat, x: nat :: InBin(th', i, x) ==> InBin(th, i, x);
  }

  lemma GrabKnows(g: WGraph, delta: nat, s: nat, sh: Shared, th: Thread, p: nat)
    requires WellWeighted(g) && Knows(g, delta, s, sh, th) && th.pc.Grab?
    requires Feeding(g, sh) && (sh.todo == {} || p in sh.todo)
    ensures Eases(delta, sh, Next(g, delta, sh, th, p).0)
    ensures Knows(g, delta, s, Next(g, delta, sh, th, p).0, Next(g, delta, sh, th, p).1)
  {
    var th' := Next(g, delta, sh, th, p).1;
    if sh.todo != {} {
      assert TodoOk(g, sh, p);
    }
    assert forall i: nat, x: nat :: InBin(th', i, x) ==> InBin(th, i, x);
  }

  lemma ScanKnows(g: WGraph, delta: nat, s: nat, sh: Shared, th: Thread, p: nat)
    requires WellWeighted(g) && Labels(g, s, sh.dist) && Knows(g, delta, s, sh, th) && (th.pc.Scan? || th.pc.Reload?)
    ensures Knows(g, delta, s, sh, Next(g, delta, sh, th, p).1)
  {
    var th' := Next(g, delta, sh, th, p).1;
    var u, j := th.pc.u, th.pc.j;
    if j < |g.outs[u]| {
      assert HasEdge(g, u, j);
      assert LabelAt(g, s, sh.dist, g.outs[u][j].v);
    }
    assert forall i: nat, x: nat :: InBin(th', i, x) ==> InBin(th, i, x);
  }

  /** A step of a relaxing thread: what it leaves for the others, and that it still knows what it must. */
  lemma StepKnows(g: WGraph, delta: nat, s: nat, sh: Shared, th: Thread, p: nat)
    requires WellWeighted(g) && Labels(g, s, sh.dist) && Knows(g, delta, s, sh, th) && CurrBin(sh) < kMaxBin
    requires th.pc.Grab? ==> Feeding(g, sh) && (sh.todo == {} || p in sh.todo)
    ensures Eases(delta, sh, Next(g, delta, sh, th, p).0) && Labels(g, s, Next(g, delta, sh, th, p).0.dist)
    ensures Knows(g, delta, s, Next(g, delta, sh, th, p).0, Next(g, delta, sh, th, p).1)
  {
    if th.pc.Grab? {
      GrabKnows(g, delta, s, sh, th, p);
    } else if th.pc.Check? {
      CheckKnows(g, delta, s, sh, th, p);
    } else if th.pc.Scan? || th.pc.Reload? {
      ScanKnows(g, delta, s, sh, th, p);
    } else if th.pc.LoadSource? {
      LoadSourceKnows(g, delta, s, sh, th, p);
    } else if th.pc.Cas? {
      CasKnows(g, delta, s, sh, th, p);
    } else if th.pc.Push? {
      PushKnows(g, delta, s, sh, th, p);
    } else if th.pc.Vote? {
      VoteKnows(g, delta, s, sh, th, p);
    } else {
      var th' := Next(g, delta, sh, th, p).1;
      assert forall i: nat, x: nat :: InBin(th', i, x) ==> InBin(th, i, x);
    }
  }

  /** A thread keeps what it holds. */
  lemma HoldsKept(g: WGraph, delta: nat, s: nat, sh: Shared, th: Thread, p: nat, v: nat, i: int)
    requires Knows(g, delta, s, sh, th) && Holds(g, delta, th, v, i)
    ensures Holds(g, delta, Next(g, delta, sh, th, p).1, v, i)
  {
    var th' := Next(g, delta, sh, th, p).1;
    if i >= 0 && InBin(th, i, v) {
      assert InBin(th', i, v);
    } else {
      BinRange(delta, th.pc.cand);
      assert th'.bins[i][|th'.bins[i]| - 1] == v;
      assert InBin(th', i, v);
    }
  }

  /** The thread that has edge j of u before it keeps it, settles it or lowers u's label itself. */
  lemma WorksKept(g: WGraph, delta: nat, s: nat, sh: Shared, th: Thread, p: nat, u: nat, j: nat)
    requires WellWeighted(g) && Labels(g, s, sh.dist) && Knows(g, delta, s, sh, th)
    requires HasEdge(g, u, j) && High(g, delta, sh.dist, CurrBin(sh), u) && Works(g, sh.dist, th, u, j)
    requires Next(g, delta, sh, th, p).0.dist[u] == sh.dist[u]
    ensures Settled(g, Next(g, delta, sh, th, p).0.dist, u, j)
      || Works(g, Next(g, delta, sh, th, p).0.dist, Next(g, delta, sh, th, p).1, u, j)
  {
    BinBound(delta, sh.dist[u], CurrBin(sh));
  }

  lemma CoveredKept(g: WGraph, delta: nat, s: nat, sh: Shared, threads: seq<Thread>, t: nat, p: nat, u: nat, j: nat)
    requires WellWeighted(g) && Labels(g, s, sh.dist) && t < |threads| && Knows(g, delta, s, sh, threads[t])
    requires Eases(delta, sh, Next(g, delta, sh, threads[t], p).0)
    requires HasEdge(g, u, j) && Covered(g, delta, sh, threads, u, j)
    requires Next(g, delta, sh, threads[t], p).0.dist[u] == sh.dist[u]
    ensures Covered(g, delta, Next(g, delta, sh, threads[t], p).0, threads[t := Next(g, delta, sh, threads[t], p).1], u, j)
  {
    var (sh', th') := Next(g, delta, sh, threads[t], p);
    var threads' := threads[t := th'];
    if Settled(g, sh.dist, u, j) {
      assert Settled(g, sh'.dist, u, j);
    } else if Awaits(g, delta, sh.dist, threads, u) {
      var x: nat :| x < |threads| && Holds(g, delta, threads[x], u, BinOf(delta, sh.dist[u]));
      if x == t {
        HoldsKept(g, delta, s, sh, threads[t], p, u, BinOf(delta, sh.dist[u]));
      }
      assert Holds(g, delta, threads'[x], u, BinOf(delta, sh'.dist[u]));
    } else if Waiting(sh, u) {
      var q :| q in sh.todo && q in sh.frontier && sh.frontier[q] == u;
      if q !in sh'.todo {
        assert Works(g, sh'.dist, threads'[t], u, j);
      }
    } else {
      var x: nat :| x < |threads| && Works(g, sh.dist, threads[x], u, j);
      if x == t {
        WorksKept(g, delta, s, sh, threads[t], p, u, j);
      }
      assert Settled(g, sh'.dist, u, j) || Works(g, sh'.dist, threads'[x], u, j);
    }
  }

  lemma StepCovers(g: WGraph, delta: nat, s: nat, sh: Shared, threads: seq<Thread>, t: nat, p: nat)
    requires WellWeighted(g) && Labels(g, s, sh.dist) && t < |threads| && Knows(g, delta, s, sh, threads[t])
    requires Eases(delta, sh, Next(g, delta, sh, threads[t], p).0)
    requires Covering(g, delta, sh, threads)
    ensures Covering(g, delta, Next(g, delta, sh, threads[t], p).0, threads[t := Next(g, delta, sh, threads[t], p).1])
  {
    var (sh', th') := Next(g, delta, sh, threads[t], p);
    var threads' := threads[t := th'];
    forall u: nat, j: nat | HasEdge(g, u, j)
      ensures Covered(g, delta, sh', threads', u, j)
    {
      assert Covered(g, delta, sh, threads, u, j);
      if sh'.dist[u] == sh.dist[u] {
        CoveredKept(g, delta, s, sh, threads, t, p, u, j);
      } else {
        assert Holds(g, delta, threads'[t], u, BinOf(delta, sh'.dist[u]));
      }
    }
  }

  lemma StepVotes(g: WGraph, delta: nat, s: nat, sh: Shared, threads: seq<Thread>, t: nat, p: nat)
    requires delta > 0 && t < |threads| && Knows(g, delta, s, sh, threads[t]) && VoteOk(sh, threads)
    ensures VoteOk(Next(g, delta, sh, threads[t], p).0, threads[t := Next(g, delta, sh, threads[t], p).1])
  {
    var (sh', th') := Next(g, delta, sh, threads[t], p);
    var threads' := threads[t := th'];
    if NextBin(sh') != kMaxBin {
      if NextBin(sh') == NextBin(sh) {
        var x: nat :| x < |threads| && threads[x].pc.Voted? && NextBin(sh) < |threads[x].bins| && threads[x].bins[NextBin(sh)] != [];
        assert threads'[x] == threads[x];
      } else {
        assert threads'[t].pc.Voted?;
      }
    }
  }

  /** Every step of every thread between the barriers keeps the relaxing invariant. */
  lemma RelaxStep(g: WGraph, delta: nat, s: nat, sh: Shared, threads: seq<Thread>, t: nat, p: nat)
    requires RelaxInv(g, delta, s, sh, threads) && t < |threads| && Indexed(g, sh, threads[t])
    requires threads[t].pc.Grab? ==> sh.todo == {} || p in sh.todo
    ensures RelaxInv(g, delta, s, Next(g, delta, sh, threads[t], p).0, threads[t := Next(g, delta, sh, threads[t], p).1])
  {
    var (sh', th') := Next(g, delta, sh, threads[t], p);
    var threads' := threads[t := th'];
    assert ThreadKnows(g, delta, s, sh, threads, t);
    StepKnows(g, delta, s, sh, threads[t], p);
    StepCovers(g, delta, s, sh, threads, t, p);
    StepVotes(g, delta, s, sh, threads, t, p);
    forall x: nat | x < |threads'|
      ensures ThreadKnows(g, delta, s, sh', threads', x)
    {
      assert ThreadKnows(g, delta, s, sh, threads, x);
      if x != t {
        OthersKnow(g, delta, s, sh, sh', threads[x]);
      }
    }
    forall q: nat | q in sh'.todo
      ensures TodoOk(g, sh', q)
    {
      assert TodoOk(g, sh, q);
    }
  }
}
