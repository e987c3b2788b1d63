/**
  The second half of an iteration of DeltaStep (trident-workloads/gapbs/src/sssp.cc): the
  threads reserve room in the shared frontier and copy their chosen bin into it, while one
  of them clears the current half of the double buffers.
*/
module DeltaCopy {
  import opened WeightedGraphs
  import opened Frontier
  import opened DeltaStep

  /** Positions the thread has reserved in the frontier and not yet written. */
  ghost predicate Ahead(th: Thread, nb: nat, p: nat) {
    th.pc.Copy? && nb < |th.bins| && th.pc.start + th.pc.k <= p < th.pc.start + |th.bins[nb]|
  }

  /** Reserved ranges do not meet. */
  ghost predicate Apart(th: Thread, th': Thread, nb: nat) {
    th.pc.Copy? && th'.pc.Copy? && nb < |th.bins| && nb < |th'.bins| ==>
      th.pc.start + |th.bins[nb]| <= th'.pc.start || th'.pc.start + |th'.bins[nb]| <= th.pc.start
  }

  ghost predicate AllApart(threads: seq<Thread>, nb: nat) {
    forall x: nat, y: nat {:trigger Apart(threads[x], threads[y], nb)} ::
      x < |threads| && y < |threads| && x != y ==> Apart(threads[x], threads[y], nb)
  }

  ghost predicate CopiedAt(frontier: map<nat, nat>, start: nat, bin: seq<nat>, i: nat) {
    i < |bin| && start + i in frontier && frontier[start + i] == bin[i]
  }

  ghost predicate CopyKnows(g: WGraph, delta: nat, sh: Shared, th: Thread) {
    && Indexed(g, sh, th) && BinsOk(g, delta, sh.dist, th, NextBin(sh))
    && match th.pc
       case Single => true
       case ResetTail => sh.single
       case Reserve => sh.single
       case Copy(start, k) =>
         var bin := th.bins[NextBin(sh)];
         && sh.single && start + |bin| <= NextTail(sh)
         && forall i: nat {:trigger CopiedAt(sh.frontier, start, bin, i)} :: i < k ==> CopiedAt(sh.frontier, start, bin, i)
       case Copied => sh.single && (NextBin(sh) < |th.bins| ==> th.bins[NextBin(sh)] == [])
       case _ => false
  }

  ghost predicate Unclaimed(sh: Shared, threads: seq<Thread>, p: nat) {
    Sized(sh) && forall t: nat {:trigger threads[t]} :: t < |threads| ==> !Ahead(threads[t], NextBin(sh), p)
  }

  /** u has reached the next frontier. */
  ghost predicate Written(sh: Shared, threads: seq<Thread>, u: nat) {
    Sized(sh) && exists p: nat :: p < NextTail(sh) && p in sh.frontier && sh.frontier[p] == u && Unclaimed(sh, threads, p)
  }

  ghost predicate Kept(g: WGraph, delta: nat, sh: Shared, threads: seq<Thread>, u: nat, j: nat) {
    || Settled(g, sh.dist, u, j)
    || Awaits(g, delta, sh.dist, threads, u)
    || (Sized(sh) && High(g, delta, sh.dist, NextBin(sh), u) && Written(sh, threads, u))
  }

  /** A position of the next frontier is still to be written, or holds a labelled vertex. */
  ghost predicate PosOk(g: WGraph, sh: Shared, threads: seq<Thread>, p: nat) {
    && Sized(sh) && |sh.dist| == g.n
    && ((exists t: nat :: t < |threads| && Ahead(threads[t], NextBin(sh), p))
        || (p in sh.frontier && sh.frontier[p] < g.n && sh.dist[sh.frontier[p]] < kDistInf))
  }

  ghost predicate SingleOk(sh: Shared, threads: seq<Thread>) {
    && Sized(sh)
    && (if sh.single then
          CurrBin(sh) == kMaxBin && (CurrTail(sh) == 0 || exists t: nat :: t < |threads| && threads[t].pc.ResetTail?)
        else CurrBin(sh) <= NextBin(sh))
    && Sorted(sh.printed, if sh.single then NextBin(sh) else CurrBin(sh))
  }

  ghost predicate HasMore(th: Thread, nb: nat) {
    (th.pc.Single? || th.pc.ResetTail? || th.pc.Reserve?) && nb < |th.bins| && th.bins[nb] != []
  }

  /** The chosen bin was not empty. */
  ghost predicate SomeWork(sh: Shared, threads: seq<Thread>) {
    Sized(sh) && (NextBin(sh) != kMaxBin ==> NextTail(sh) > 0 || exists t: nat :: t < |threads| && HasMore(threads[t], NextBin(sh)))
  }

  ghost predicate ThreadCopies(g: WGraph, delta: nat, sh: Shared, threads: seq<Thread>, t: nat) {
    t < |threads| && CopyKnows(g, delta, sh, threads[t])
  }

  ghost predicate Copying(g: WGraph, delta: nat, sh: Shared, threads: seq<Thread>) {
    forall t: nat {:trigger ThreadCopies(g, delta, sh, threads, t)} :: t < |threads| ==> ThreadCopies(g, delta, sh, threads, t)
  }

  ghost predicate Keeping(g: WGraph, delta: nat, sh: Shared, threads: seq<Thread>) {
    forall u: nat, j: nat {:trigger Kept(g, delta, sh, threads, u, j)} :: HasEdge(g, u, j) ==> Kept(g, delta, sh, threads, u, j)
  }

  ghost predicate Filling(g: WGraph, sh: Shared, threads: seq<Thread>) {
    Sized(sh) && forall p: nat {:trigger PosOk(g, sh, threads, p)} :: p < NextTail(sh) ==> PosOk(g, sh, threads, p)
  }

  ghost predicate CopyInv(g: WGraph, delta: nat, s: nat, sh: Shared, threads: seq<Thread>) {
    && delta > 0 && WellWeighted(g) && Sized(sh) && |threads| > 0 && (NextBin(sh) == kMaxBin || BinFits(delta, NextBin(sh)))
    && Labels(g, s, sh.dist) && Copying(g, delta, sh, threads) && AllApart(threads, NextBin(sh))
    && Keeping(g, delta, sh, threads) && Filling(g, sh, threads)
    && SingleOk(sh, threads) && SomeWork(sh, threads)
  }

  // --------------------------------------------------------- one step of a thread

  /** What a copying step may do to what the others see; only positions claimed by th are written. */
  ghost predicate Spares(sh: Shared, th: Thread, sh': Shared) {
    && Sized(sh) && Sized(sh') && sh'.dist == sh.dist && sh'.cur == sh.cur
    && NextBin(sh') == NextBin(sh) && NextTail(sh) <= NextTail(sh') && (sh.single ==> sh'.single)
    && sh.frontier.Keys <= sh'.frontier.Keys
    && forall p :: p in sh.frontier && !Ahead(th, NextBin(sh), p) ==> sh'.frontier[p] == sh.frontier[p]
  }

  lemma StepSpares(g: WGraph, delta: nat, sh: Shared, th: Thread, p: nat)
    requires delta > 0 && CopyKnows(g, delta, sh, th)
    ensures Spares(sh, th, Next(g, delta, sh, th, p).0)
    ensures CopyKnows(g, delta, Next(g, delta, sh, th, p).0, Next(g, delta, sh, th, p).1)
  {
    var (sh', th') := Next(g, delta, sh, th, p);
    assert forall i: nat, x: nat :: InBin(th', i, x) ==> InBin(th, i, x);
    if th.pc.Copy? && th'.pc.Copy? {
      var bin, start := th.bins[NextBin(sh)], th.pc.start;
      forall i: nat | i < th'.pc.k
        ensures CopiedAt(sh'.frontier, start, bin, i)
      {
        assert i < th.pc.k ==> CopiedAt(sh.frontier, start, bin, i);
      }
    }
  }

  lemma OthersCopy(g: WGraph, delta: nat, sh: Shared, th: Thread, sh': Shared, other: Thread)
    requires CopyKnows(g, delta, sh, th) && CopyKnows(g, delta, sh, other) && Apart(th, other, NextBin(sh)) && Spares(sh, th, sh')
    ensures CopyKnows(g, delta, sh', other)
  {
    if other.pc.Copy? {
      var bin, start := other.bins[NextBin(sh)], other.pc.start;
      forall i: nat | i < other.pc.k
        ensures CopiedAt(sh'.frontier, start, bin, i)
      {
        assert CopiedAt(sh.frontier, start, bin, i);
        assert !Ahead(th, NextBin(sh), start + i);
      }
    }
  }

  lemma StepApart(g: WGraph, delta: nat, sh: Shared, threads: seq<Thread>, t: nat, p: nat)
    requires delta > 0 && t < |threads| && Copying(g, delta, sh, threads) && CopyKnows(g, delta, sh, threads[t])
    requires AllApart(threads, NextBin(sh))
    ensures AllApart(threads[t := Next(g, delta, sh, threads[t], p).1], NextBin(sh))
  {
    var threads' := threads[t := Next(g, delta, sh, threads[t], p).1];
    forall x: nat, y: nat | x < |threads| && y < |threads| && x != y
      ensures Apart(threads'[x], threads'[y], NextBin(sh))
    {
      assert Apart(threads[x], threads[y], NextBin(sh));
      assert ThreadCopies(g, delta, sh, threads, x) && ThreadCopies(g, delta, sh, threads, y);
    }
  }

  /** A thread that is done copying has written everything its bin held. */
  lemma BinWritten(g: WGraph, delta: nat, sh: Shared, threads: seq<Thread>, t: nat, p: nat, u: nat)
    requires delta > 0 && t < |threads| && Copying(g, delta, sh, threads) && CopyKnows(g, delta, sh, threads[t])
    requires AllApart(threads, NextBin(sh)) && InBin(threads[t], NextBin(sh), u)
    requires Next(g, delta, sh, threads[t], p).1.bins != threads[t].bins
    ensures Written(Next(g, delta, sh, threads[t], p).0, threads[t := Next(g, delta, sh, threads[t], p).1], u)
  {
    var (sh', th') := Next(g, delta, sh, threads[t], p);
    var threads', nb := threads[t := th'], NextBin(sh);
    var bin, start := threads[t].bins[nb], threads[t].pc.start;
    var i :| 0 <= i < |bin| && bin[i] == u;
    assert CopiedAt(sh.frontier, start, bin, i);
    forall x: nat | x < |threads|
      ensures !Ahead(threads'[x], nb, start + i)
    {
      if x != t {
        assert Apart(threads[x], threads[t], nb);
      }
    }
    assert Unclaimed(sh', threads', start + i);
  }

  lemma StepKeepsEdge(g: WGraph, delta: nat, sh: Shared, threads: seq<Thread>, t: nat, p: nat, u: nat, j: nat)
    requires delta > 0 && t < |threads| && Copying(g, delta, sh, threads) && CopyKnows(g, delta, sh, threads[t])
    requires AllApart(threads, NextBin(sh)) && HasEdge(g, u, j) && Kept(g, delta, sh, threads, u, j)
    requires forall x: nat {:trigger InBin(threads[t], x, u)} :: InBin(threads[t], x, u) ==> sh.dist[u] < kDistInf
    ensures Kept(g, delta, Next(g, delta, sh, threads[t], p).0, threads[t := Next(g, delta, sh, threads[t], p).1], u, j)
  {
    var th := threads[t];
    var (sh', th') := Next(g, delta, sh, th, p);
    var threads', nb := threads[t := th'], NextBin(sh);
    StepSpares(g, delta, sh, th, p);
    if Settled(g, sh.dist, u, j) {
    } else if Awaits(g, delta, sh.dist, threads, u) {
      var b := BinOf(delta, sh.dist[u]);
      var x: nat :| x < |threads| && Holds(g, delta, threads[x], u, b);
      assert ThreadCopies(g, delta, sh, threads, x);
      assert InBin(threads[x], b, u);
      if x == t && th'.bins != th.bins && b == nb {
        BinWritten(g, delta, sh, threads, t, p, u);
      } else {
        assert InBin(threads'[x], b, u);
        assert Holds(g, delta, threads'[x], u, b);
      }
    } else {
      var q: nat :| q < NextTail(sh) && q in sh.frontier && sh.frontier[q] == u && Unclaimed(sh, threads, q);
      assert !Ahead(th, nb, q);
      forall x: nat | x < |threads'|
        ensures !Ahead(threads'[x], nb, q)
      {
        assert !Ahead(threads[x], nb, q);
      }
      assert Unclaimed(sh', threads', q);
    }
  }

  lemma StepFills(g: WGraph, delta: nat, sh: Shared, threads: seq<Thread>, t: nat, p: nat, q: nat)
    requires delta > 0 && t < |threads| && CopyKnows(g, delta, sh, threads[t]) && Filling(g, sh, threads)
    requires Sized(Next(g, delta, sh, threads[t], p).0) && q < NextTail(Next(g, delta, sh, threads[t], p).0)
    ensures PosOk(g, Next(g, delta, sh, threads[t], p).0, threads[t := Next(g, delta, sh, threads[t], p).1], q)
  {
    var th := threads[t];
    var (sh', th') := Next(g, delta, sh, th, p);
    var threads', nb := threads[t := th'], NextBin(sh);
    StepSpares(g, delta, sh, th, p);
    if q >= NextTail(sh) {
      assert Ahead(threads'[t], nb, q);
    } else {
      assert PosOk(g, sh, threads, q);
      if x: nat :| x < |threads| && Ahead(threads[x], nb, q) {
        if x != t {
          assert Ahead(threads'[x], nb, q);
        } else if q == th.pc.start + th.pc.k {
          assert InBin(th, nb, th.bins[nb][th.pc.k]);
        } else {
          assert Ahead(threads'[t], nb, q);
        }
      } else if Ahead(th, nb, q) {
      } else {
        assert sh'.frontier[q] == sh.frontier[q];
      }
    }
  }

  lemma StepSingle(g: WGraph, delta: nat, sh: Shared, threads: seq<Thread>, t: nat, p: nat)
    requires delta > 0 && t < |threads| && CopyKnows(g, delta, sh, threads[t]) && NextBin(sh) <= kMaxBin
    requires SingleOk(sh, threads) && SomeWork(sh, threads)
    ensures SingleOk(Next(g, delta, sh, threads[t], p).0, threads[t := Next(g, delta, sh, threads[t], p).1])
    ensures SomeWork(Next(g, delta, sh, threads[t], p).0, threads[t := Next(g, delta, sh, threads[t], p).1])
  {
    var th := threads[t];
    var (sh', th') := Next(g, delta, sh, th, p);
    var threads', nb := threads[t := th'], NextBin(sh);
    StepSpares(g, delta, sh, th, p);
    if sh.single && CurrTail(sh') != 0 {
      var x: nat :| x < |threads| && threads[x].pc.ResetTail?;
      assert threads'[x].pc.ResetTail?;
    } else if sh'.single && !sh.single {
      assert threads'[t].pc.ResetTail?;
    }
    if nb != kMaxBin && NextTail(sh') == 0 {
      var x: nat :| x < |threads| && HasMore(threads[x], nb);
      assert HasMore(threads'[x], nb);
    }
  }

  /** Every step of every thread between the second pair of barriers keeps the copying invariant. */
  lemma CopyStep(g: WGraph, delta: nat, s: nat, sh: Shared, threads: seq<Thread>, t: nat, p: nat)
    requires CopyInv(g, delta, s, sh, threads) && t < |threads| && Indexed(g, sh, threads[t])
    ensures CopyInv(g, delta, s, Next(g, delta, sh, threads[t], p).0, threads[t := Next(g, delta, sh, threads[t], p).1])
  {
    var th := threads[t];
    var (sh', th') := Next(g, delta, sh, th, p);
    var threads', nb := threads[t := th'], NextBin(sh);
    assert ThreadCopies(g, delta, sh, threads, t);
    StepSpares(g, delta, sh, th, p);
    StepApart(g, delta, sh, threads, t, p);
    StepSingle(g, delta, sh, threads, t, p);
    forall x: nat | x < |threads'|
      ensures ThreadCopies(g, delta, sh', threads', x)
    {
      assert ThreadCopies(g, delta, sh, threads, x);
      if x != t {
        assert Apart(th, threads[x], nb);
        OthersCopy(g, delta, sh, th, sh', threads[x]);
      }
    }
    forall u: nat, j: nat | HasEdge(g, u, j)
      ensures Kept(g, delta, sh', threads', u, j)
    {
      assert Kept(g, delta, sh, threads, u, j);
      StepKeepsEdge(g, delta, sh, threads, t, p, u, j);
    }
    forall q: nat | q < NextTail(sh')
      ensures PosOk(g, sh', threads', q)
    {
      StepFills(g, delta, sh, threads, t, p, q);
    }
  }

  // ----------------------------------------------------------------- the barriers

  ghost predicate All(threads: seq<Thread>, pc: Pc) {
    forall t :: 0 <= t < |threads| ==> threads[t].pc == pc
  }

  ghost function Released(threads: seq<Thread>, pc: Pc): seq<Thread> {
    seq(|threads|, t requires 0 <= t < |threads| => At(threads[t], pc))
  }

  ghost function StartCopying(sh: Shared): Shared {
    sh.(single := false)
  }

  /** The first barrier: everything left to do is in the bins. */
  lemma VotesIn(g: WGraph, delta: nat, s: nat, sh: Shared, threads: seq<Thread>)
    requires RelaxInv(g, delta, s, sh, threads) && All(threads, Voted)
    ensures CopyInv(g, delta, s, StartCopying(sh), Released(threads, Single))
  {
    var sh', threads' := StartCopying(sh), Released(threads, Single);
    assert ThreadKnows(g, delta, s, sh, threads, 0);
    if NextBin(sh) != kMaxBin {
      var t: nat :| t < |threads| && threads[t].pc.Voted? && NextBin(sh) < |threads[t].bins| && threads[t].bins[NextBin(sh)] != [];
      assert ThreadKnows(g, delta, s, sh, threads, t);
      assert InBin(threads[t], NextBin(sh), threads[t].bins[NextBin(sh)][0]);
      assert HasMore(threads'[t], NextBin(sh'));
    }
    forall t: nat | t < |threads'|
      ensures ThreadCopies(g, delta, sh', threads', t)
    {
      assert ThreadKnows(g, delta, s, sh, threads, t);
      assert forall i: nat, v: nat :: InBin(threads'[t], i, v) ==> InBin(threads[t], i, v);
    }
    forall u: nat, j: nat | HasEdge(g, u, j)
      ensures Kept(g, delta, sh', threads', u, j)
    {
      assert Covered(g, delta, sh, threads, u, j);
      if !Settled(g, sh.dist, u, j) {
        var b := BinOf(delta, sh.dist[u]);
        assert !AtWork(g, sh, threads, u, j);
        var t: nat :| t < |threads| && Holds(g, delta, threads[t], u, b);
        assert InBin(threads'[t], b, u);
        assert Holds(g, delta, threads'[t], u, b);
      }
    }
  }

  ghost function NextRound(sh: Shared): Shared
    requires Sized(sh)
  {
    sh.(cur := 1 - sh.cur, todo := Below(NextTail(sh)))
  }

  /** When no bin is left, the labels cannot improve. */
  ghost predicate FinalInv(g: WGraph, delta: nat, s: nat, sh: Shared, threads: seq<Thread>) {
    && delta > 0 && WellWeighted(g) && Sized(sh) && CurrBin(sh) == kMaxBin && |sh.dist| == g.n
    && Labels(g, s, sh.dist) && AllSettled(g, sh.dist) && Sorted(sh.printed, kMaxBin)
    && forall t :: 0 <= t < |threads| ==> threads[t].pc.Head? || threads[t].pc.Done?
  }

  lemma CopiedEdge(g: WGraph, delta: nat, s: nat, sh: Shared, threads: seq<Thread>, u: nat, j: nat)
    requires CopyInv(g, delta, s, sh, threads) && All(threads, Copied) && HasEdge(g, u, j)
    ensures Covered(g, delta, NextRound(sh), Released(threads, Head), u, j)
    ensures NextBin(sh) == kMaxBin ==> Settled(g, sh.dist, u, j)
  {
    var sh', threads' := NextRound(sh), Released(threads, Head);
    assert Kept(g, delta, sh, threads, u, j);
    if Settled(g, sh.dist, u, j) {
    } else if Awaits(g, delta, sh.dist, threads, u) {
      var b := BinOf(delta, sh.dist[u]);
      var t: nat :| t < |threads| && Holds(g, delta, threads[t], u, b);
      assert ThreadCopies(g, delta, sh, threads, t);
      assert InBin(threads[t], b, u) && InBin(threads'[t], b, u);
      assert Holds(g, delta, threads'[t], u, b);
    } else {
      BinRange(delta, sh.dist[u]);
      var p: nat :| p < NextTail(sh) && p in sh.frontier && sh.frontier[p] == u && Unclaimed(sh, threads, p);
      assert p in sh'.todo;
    }
  }

  /** The second barrier: the next frontier is in place, or the distances are final. */
  lemma CopiesIn(g: WGraph, delta: nat, s: nat, sh: Shared, threads: seq<Thread>)
    requires CopyInv(g, delta, s, sh, threads) && All(threads, Copied)
    ensures var sh', threads' := NextRound(sh), Released(threads, Head);
      if NextBin(sh) == kMaxBin then FinalInv(g, delta, s, sh', threads') else RelaxInv(g, delta, s, sh', threads')
  {
    var sh', threads' := NextRound(sh), Released(threads, Head);
    assert ThreadCopies(g, delta, sh, threads, 0);
    forall u: nat, j: nat | HasEdge(g, u, j)
      ensures Covered(g, delta, sh', threads', u, j) && (NextBin(sh) == kMaxBin ==> Settled(g, sh.dist, u, j))
    {
      CopiedEdge(g, delta, s, sh, threads, u, j);
    }
    forall t: nat | t < |threads'|
      ensures ThreadKnows(g, delta, s, sh', threads', t)
    {
      assert ThreadCopies(g, delta, sh, threads, t);
      assert forall i: nat, v: nat :: InBin(threads'[t], i, v) ==> InBin(threads[t], i, v);
    }
    forall p: nat | p in sh'.todo
      ensures TodoOk(g, sh', p)
    {
      assert PosOk(g, sh, threads, p);
    }
  }
}
