/**
  Compress, the path-shortening loop both connected-components kernels share
  (trident-workloads/gapbs/src/cc.cc and cc_sv.cc): one thread per vertex, any interleaving.
*/
module Compression {
  import opened Graphs
  import opened Components

  /** x and y hang in one tree. */
  ghost predicate Same(comp: seq<nat>, x: nat, y: nat) {
    Forest(comp) && x < |comp| && y < |comp| && Root(comp, x) == Root(comp, y)
  }

  /** One thread of Compress, for vertex n: the two tests and the write of its while loop. */
  datatype PressPc = Start | Compare(a: nat) | Reload(a: nat) | Write(b: nat) | Over

  datatype Pressing = Pressing(comp: seq<nat>, pcs: seq<PressPc>)

  predicate PressIndexed(s: Pressing) {
    && |s.pcs| == |s.comp|
    && (forall n :: 0 <= n < |s.comp| ==> s.comp[n] < |s.comp|)
    && forall n :: 0 <= n < |s.pcs| ==>
         match s.pcs[n]
         case Compare(a) => a < |s.comp|
         case Reload(a) => a < |s.comp|
         case Write(b) => b < |s.comp|
         case _ => true
  }

  function PressStep(s: Pressing, n: nat): Pressing
    requires PressIndexed(s) && n < |s.comp|
  {
    match s.pcs[n]
    case Start => Pressing(s.comp, s.pcs[n := Compare(s.comp[n])])
    case Compare(a) => Pressing(s.comp, s.pcs[n := if s.comp[a] == a then Over else Reload(a)])
    case Reload(a) => Pressing(s.comp, s.pcs[n := Write(s.comp[a])])
    case Write(b) => Pressing(s.comp[n := b], s.pcs[n := Start])
    case Over => s
  }

  /** What thread n knows; only thread n writes comp[n], and roots stay roots. */
  ghost predicate PressAt(s: Pressing, n: nat) {
    && n < |s.pcs| == |s.comp| && Forest(s.comp)
    && match s.pcs[n]
       case Start => true
       case Compare(a) => s.comp[n] == a
       case Reload(a) => s.comp[n] == a && s.comp[a] < a
       case Write(b) => b < s.comp[n] < n && Root(s.comp, b) == Root(s.comp, n)
       case Over => s.comp[n] == Root(s.comp, n)
  }

  ghost predicate PressInv(s: Pressing) {
    && PressIndexed(s) && Forest(s.comp)
    && forall n: nat {:trigger PressAt(s, n)} :: n < |s.comp| ==> PressAt(s, n)
  }

  /** Compress moves no root and makes no vertex a root. */
  ghost predicate SameRoots(comp: seq<nat>, comp': seq<nat>) {
    && Forest(comp) && Forest(comp') && |comp| == |comp'|
    && (forall x: nat :: x < |comp| ==> Root(comp', x) == Root(comp, x))
    && (forall x :: 0 <= x < |comp| ==> (comp'[x] < x <==> comp[x] < x))
  }

  lemma PressStepInv(s: Pressing, n: nat)
    requires PressInv(s) && n < |s.comp|
    ensures PressInv(PressStep(s, n)) && SameRoots(s.comp, PressStep(s, n).comp)
  {
    var s' := PressStep(s, n);
    assert PressAt(s, n);
    if s.pcs[n].Write? {
      forall x: nat | x < |s.comp|
        ensures Root(s'.comp, x) == Root(s.comp, x)
      {
        ShortcutRoot(s.comp, n, s.pcs[n].b, x);
      }
    }
    forall m: nat | m < |s'.comp|
      ensures PressAt(s', m)
    {
      assert PressAt(s, m);
    }
  }

  ghost function RunPress(s: Pressing, sched: seq<nat>): Pressing
    decreases |sched|
  {
    if sched == [] || !PressIndexed(s) || sched[0] >= |s.comp| then s
    else RunPress(PressStep(s, sched[0]), sched[1..])
  }

  ghost function StartPress(comp: seq<nat>): Pressing {
    Pressing(comp, seq(|comp|, _ => Start))
  }

  lemma {:induction false} RunPressInv(s: Pressing, sched: seq<nat>)
    requires PressInv(s)
    ensures PressInv(RunPress(s, sched)) && SameRoots(s.comp, RunPress(s, sched).comp)
    decreases |sched|
  {
    if sched != [] && sched[0] < |s.comp| {
      PressStepInv(s, sched[0]);
      RunPressInv(PressStep(s, sched[0]), sched[1..]);
    }
  }

  ghost function PressRank(s: Pressing, n: nat): nat
    requires n < |s.pcs| == |s.comp|
  {
    match s.pcs[n]
    case Start => 4 * s.comp[n] + 3
    case Compare(_) => 4 * s.comp[n] + 2
    case Reload(_) => 4 * s.comp[n] + 1
    case Write(_) => 4 * s.comp[n]
    case Over => 0
  }

  ghost function TotalPress(s: Pressing, k: nat): nat
    requires k <= |s.pcs| == |s.comp|
  {
    if k == 0 then 0 else TotalPress(s, k - 1) + PressRank(s, k - 1)
  }

  lemma {:induction false} PressDrops(s: Pressing, n: nat, k: nat)
    requires PressInv(s) && n < |s.comp| && k <= |s.comp| && !s.pcs[n].Over?
    ensures var s' := PressStep(s, n);
            |s'.pcs| == |s'.comp| == |s.comp| && TotalPress(s', k) + (if n < k then 1 else 0) <= TotalPress(s, k)
    decreases k
  {
    assert PressAt(s, n);
    if k > 0 {
      PressDrops(s, n, k - 1);
    }
  }

  ghost predicate PressBusy(s: Pressing, sched: seq<nat>)
    decreases |sched|
  {
    sched == [] ||
    (PressIndexed(s) && sched[0] < |s.comp| && !s.pcs[sched[0]].Over? && PressBusy(PressStep(s, sched[0]), sched[1..]))
  }

  /** Compress ends whatever the interleaving. */
  lemma {:induction false} CompressTerminates(s: Pressing, sched: seq<nat>)
    requires PressInv(s) && PressBusy(s, sched)
    ensures |sched| <= TotalPress(s, |s.comp|)
    decreases |sched|
  {
    if sched != [] {
      PressDrops(s, sched[0], |s.comp|);
      PressStepInv(s, sched[0]);
      CompressTerminates(PressStep(s, sched[0]), sched[1..]);
    }
  }

  /** Under every interleaving Compress ends with every vertex pointing at the root of its tree. */
  lemma CompressFlattens(comp: seq<nat>, sched: seq<nat>)
    requires Forest(comp)
    requires forall n :: 0 <= n < |RunPress(StartPress(comp), sched).pcs| ==> RunPress(StartPress(comp), sched).pcs[n].Over?
    ensures var comp' := RunPress(StartPress(comp), sched).comp;
            |comp'| == |comp| && Forest(comp') && forall x: nat :: x < |comp| ==> comp'[x] == Root(comp, x)
  {
    var s := StartPress(comp);
    forall n: nat | n < |comp|
      ensures PressAt(s, n)
    {
    }
    RunPressInv(s, sched);
    var s' := RunPress(s, sched);
    forall x: nat | x < |comp|
      ensures s'.comp[x] == Root(comp, x)
    {
      assert PressAt(s', x);
    }
  }

  ghost predicate AllOver(s: Pressing) {
    forall n :: 0 <= n < |s.pcs| ==> s.pcs[n].Over?
  }

  ghost predicate CompressPhase(comp: seq<nat>, comp': seq<nat>) {
    exists sched :: AllOver(RunPress(StartPress(comp), sched)) && RunPress(StartPress(comp), sched).comp == comp'
  }

  /** From every reachable state some schedule ends the loop. */
  lemma {:induction false} PressEnds(s: Pressing) returns (sched: seq<nat>)
    requires PressInv(s)
    ensures AllOver(RunPress(s, sched))
    decreases TotalPress(s, |s.comp|)
  {
    sched := [];
    if n: nat :| n < |s.comp| && !s.pcs[n].Over? {
      PressDrops(s, n, |s.comp|);
      PressStepInv(s, n);
      var rest := PressEnds(PressStep(s, n));
      sched := [n] + rest;
    }
  }

  lemma CompressHappens(comp: seq<nat>) returns (comp': seq<nat>)
    requires Forest(comp)
    ensures CompressPhase(comp, comp')
  {
    var s := StartPress(comp);
    forall n: nat | n < |comp|
      ensures PressAt(s, n)
    {
    }
    var sched := PressEnds(s);
    comp' := RunPress(s, sched).comp;
  }

  lemma CompressKeeps(g: Graph, comp: seq<nat>, comp': seq<nat>)
    requires Forest(comp) && Inside(g, comp) && CompressPhase(comp, comp')
    ensures Forest(comp') && Inside(g, comp')
    ensures forall x: nat :: x < |comp| ==> comp'[x] == Root(comp, x)
    ensures forall x: nat, y: nat :: Same(comp, x, y) ==> Same(comp', x, y)
  {
    var sched :| AllOver(RunPress(StartPress(comp), sched)) && RunPress(StartPress(comp), sched).comp == comp';
    CompressFlattens(comp, sched);
    forall x: nat | x < |comp'|
      ensures Connected(g, x, comp'[x])
    {
      RootConnected(g, comp, x);
    }
    forall x: nat, y: nat | Same(comp, x, y)
      ensures Same(comp', x, y)
    {
      assert comp'[x] == comp'[y];
      FlatRoot(comp', x);
      FlatRoot(comp', y);
    }
  }

  lemma FlatRoot(comp: seq<nat>, x: nat)
    requires Forest(comp) && x < |comp| && comp[comp[x]] == comp[x]
    ensures Root(comp, x) == comp[x]
  {
  }
}
