/**
  The operations of threads::AtomicPtr (trident-workloads/canneal/AtomicPtr.h) as a step
  machine: any number of threads, any interleaving, one atomic load, compare-and-set or store
  at a time.  A cell that is checked out holds ATOMIC_NULL.
*/
module AtomicPtr {

  /** (T *)((int)NULL + 1): the value that marks a checked-out cell. */
  const ATOMIC_NULL: int := 1

  /**
    What a call does: Swap two cells, Get the value of one, Set it to x, or check it out, work
    on it and check it in again (Section), with the same value or with another one.
  */
  datatype Kind = Swap | Get | Set(x: int) | Section(back: Back)

  datatype Back = Same | Other(y: int)

  /**
    Where a thread stands.  Checkout, Set and PrivateSet are load / compare-and-set loops; Inside
    is the time between Checkout and Checkin; Checkin(out, ok) is the final store of a swap.
    Done(ok, got) has returned, with the value got if the operation returns one.
  */
  datatype Pc =
    | LoadFirst
    | CasFirst(seen: int)
    | Inside(held: int)
    | LoadLast(held: int)
    | CasLast(held: int, seen: int)
    | Checkin(out: int, ok: bool)
    | Done(ok: bool, got: int)

  /**
    One call, of the Try kind when trial is true.  first is the cell, for a swap the one with
    the lower address, and last the other one.
  */
  datatype Thread = Thread(kind: Kind, first: nat, last: nat, trial: bool, pc: Pc)

  datatype State = State(cells: seq<int>, threads: seq<Thread>)

  predicate InBounds(cells: seq<int>, th: Thread) {
    th.first <= th.last < |cells|
  }

  /** What a section checks in. */
  function Returned(th: Thread, held: int): int {
    if th.kind.Section? && th.kind.back.Other? then th.kind.back.y else held
  }

  /** After the compare-and-set of the first cell has succeeded. */
  function Acquired(cells: seq<int>, th: Thread, seen: int): (seq<int>, Thread)
    requires InBounds(cells, th)
  {
    match th.kind
    case Swap => (cells[th.first := ATOMIC_NULL], th.(pc := LoadLast(seen)))
    case Section(_) => (cells[th.first := ATOMIC_NULL], th.(pc := Inside(seen)))
    case Set(x) => (cells[th.first := x], th.(pc := Done(true, seen)))
    case Get => (cells, th)
  }

  /** The next atomic step of one thread. */
  function Next(cells: seq<int>, th: Thread): (r: (seq<int>, Thread))
    requires InBounds(cells, th)
  {
    match th.pc
    case LoadFirst =>
      if cells[th.first] == ATOMIC_NULL then (cells, if th.trial then th.(pc := Done(false, 0)) else th)
      else if th.kind.Get? then (cells, th.(pc := Done(true, cells[th.first])))
      else (cells, th.(pc := CasFirst(cells[th.first])))
    case CasFirst(seen) =>
      if cells[th.first] == seen then Acquired(cells, th, seen)
      else (cells, th.(pc := if th.trial then Done(false, 0) else LoadFirst))
    case Inside(held) =>
      (cells[th.first := Returned(th, held)], th.(pc := Done(true, held)))
    case LoadLast(held) =>
      if cells[th.last] != ATOMIC_NULL then (cells, th.(pc := CasLast(held, cells[th.last])))
      else (cells, if th.trial then th.(pc := Checkin(held, false)) else th)
    case CasLast(held, seen) =>
      if cells[th.last] == seen then (cells[th.last := held], th.(pc := Checkin(seen, true)))
      else (cells, th.(pc := if th.trial then Checkin(held, false) else LoadLast(held)))
    case Checkin(out, ok) =>
      (cells[th.first := out], th.(pc := Done(ok, 0)))
    case Done(_, _) =>
      (cells, th)
  }

  ghost predicate Step(s: State, t: nat, s': State) {
    && t < |s.threads| && InBounds(s.cells, s.threads[t])
    && s' == State(Next(s.cells, s.threads[t]).0, s.threads[t := Next(s.cells, s.threads[t]).1])
  }

  /** Callers do not store ATOMIC_NULL. */
  predicate Proper(th: Thread) {
    (th.kind.Set? ==> th.kind.x != ATOMIC_NULL) && (th.kind.Section? && th.kind.back.Other? ==> th.kind.back.y != ATOMIC_NULL)
  }

  ghost predicate Init(s: State) {
    && (forall c :: 0 <= c < |s.cells| ==> s.cells[c] != ATOMIC_NULL)
    && (forall t :: 0 <= t < |s.threads| ==> InBounds(s.cells, s.threads[t]) && Proper(s.threads[t]) && s.threads[t].pc == LoadFirst)
  }

  // ------------------------------------------------------------- invariant

  /** The thread has checked out its first cell. */
  predicate Holding(th: Thread) {
    th.pc.Inside? || th.pc.LoadLast? || th.pc.CasLast? || th.pc.Checkin?
  }

  /** The value that belongs, logically, in the checked-out cell. */
  function HeldValue(th: Thread): int
    requires Holding(th)
  {
    match th.pc
    case Inside(held) => held
    case LoadLast(held) => held
    case CasLast(held, _) => held
    case Checkin(out, _) => out
  }

  /** The thread is where its kind of call can be; only a Try call can fail. */
  predicate InOrder(th: Thread) {
    && (th.pc.CasFirst? ==> !th.kind.Get?) && (th.pc.Inside? ==> th.kind.Section?)
    && (th.pc.LoadLast? || th.pc.CasLast? || th.pc.Checkin? ==> th.kind.Swap?)
    && (!th.trial && (th.pc.Checkin? || th.pc.Done?) ==> th.pc.ok)
  }

  ghost predicate ThreadOk(s: State, t: nat) {
    && t < |s.threads| && InBounds(s.cells, s.threads[t]) && Proper(s.threads[t]) && InOrder(s.threads[t])
    && (s.threads[t].pc.CasFirst? ==> s.threads[t].pc.seen != ATOMIC_NULL)
    && (s.threads[t].pc.CasLast? ==> s.threads[t].pc.seen != ATOMIC_NULL)
    && (Holding(s.threads[t]) ==> HeldValue(s.threads[t]) != ATOMIC_NULL && s.cells[s.threads[t].first] == ATOMIC_NULL)
  }

  ghost predicate HeldBy(s: State, c: nat, t: nat) {
    t < |s.threads| && Holding(s.threads[t]) && s.threads[t].first == c
  }

  /** A cell is checked out exactly when one thread holds it. */
  ghost predicate CellOk(s: State, c: nat) {
    && c < |s.cells|
    && (s.cells[c] == ATOMIC_NULL ==> exists t :: HeldBy(s, c, t))
    && (forall t, u :: HeldBy(s, c, t) && HeldBy(s, c, u) ==> t == u)
  }

  ghost predicate Inv(s: State) {
    && (forall t: nat {:trigger ThreadOk(s, t)} :: t < |s.threads| ==> ThreadOk(s, t))
    && (forall c: nat {:trigger CellOk(s, c)} :: c < |s.cells| ==> CellOk(s, c))
  }

  lemma InitInv(s: State)
    requires Init(s)
    ensures Inv(s)
  {
  }

  lemma StepThreads(s: State, t: nat, s': State)
    requires Inv(s) && Step(s, t, s')
    ensures forall u: nat :: u < |s'.threads| ==> ThreadOk(s', u)
  {
    assert ThreadOk(s, t);
    forall u: nat | u < |s'.threads|
      ensures ThreadOk(s', u)
    {
      assert ThreadOk(s, u);
      assert CellOk(s, s.threads[u].first);
      assert Holding(s.threads[u]) ==> HeldBy(s, s.threads[u].first, u);
      assert Holding(s.threads[t]) ==> HeldBy(s, s.threads[t].first, t);
    }
  }

  lemma StepCellsOk(s: State, t: nat, s': State)
    requires Inv(s) && Step(s, t, s')
    ensures forall c: nat :: c < |s'.cells| ==> CellOk(s', c)
  {
    assert ThreadOk(s, t);
    forall c: nat | c < |s'.cells|
      ensures CellOk(s', c)
    {
      assert CellOk(s, c);
      var th, th' := s.threads[t], s'.threads[t];
      forall u: nat | u != t
        ensures HeldBy(s', c, u) <==> HeldBy(s, c, u)
      {
      }
      if c == th.first && Holding(th') {
        assert HeldBy(s', c, t);
        assert th.pc.CasFirst? ==> s.cells[c] != ATOMIC_NULL;
        forall u | HeldBy(s', c, u)
          ensures u == t
        {
          assert Holding(th) ==> HeldBy(s, c, t);
          assert u != t ==> HeldBy(s, c, u) && ThreadOk(s, u);
        }
      } else if s'.cells[c] == ATOMIC_NULL {
        assert s.cells[c] == ATOMIC_NULL;
        var u :| HeldBy(s, c, u);
        assert HeldBy(s', c, u);
      }
    }
  }

  /** Mutual exclusion: every step of every thread keeps the invariant. */
  lemma StepInv(s: State, t: nat, s': State)
    requires Inv(s) && Step(s, t, s')
    ensures Inv(s')
  {
    StepThreads(s, t, s');
    StepCellsOk(s, t, s');
  }

  // --------------------------------------------------------- linearization

  /** abs is the memory an observer of whole operations would see: checked-out cells show the held value. */
  ghost predicate Represents(s: State, abs: seq<int>) {
    && |abs| == |s.cells|
    && (forall c :: 0 <= c < |abs| && s.cells[c] != ATOMIC_NULL ==> abs[c] == s.cells[c])
    && (forall t :: 0 <= t < |s.threads| && Holding(s.threads[t]) && s.threads[t].first < |abs| ==>
          abs[s.threads[t].first] == HeldValue(s.threads[t]))
  }

  /** The step at which the call takes effect. */
  predicate Linearizes(s: State, t: nat) {
    && t < |s.threads| && InBounds(s.cells, s.threads[t])
    && var th := s.threads[t];
       match th.kind
       case Swap => th.pc.CasLast? && s.cells[th.last] == th.pc.seen
       case Get => th.pc.LoadFirst? && s.cells[th.first] != ATOMIC_NULL
       case Set(_) => th.pc.CasFirst? && s.cells[th.first] == th.pc.seen
       case Section(_) => th.pc.Inside?
  }

  function Swapped(abs: seq<int>, i: nat, j: nat): (r: seq<int>)
    ensures |r| == |abs|
    ensures multiset(r) == multiset(abs)
    ensures i < |abs| && j < |abs| ==> r[i] == abs[j] && r[j] == abs[i] && forall k :: 0 <= k < |abs| && k != i && k != j ==> r[k] == abs[k]
  {
    if i < |abs| && j < |abs| then abs[i := abs[j]][j := abs[i]] else abs
  }

  /** The whole operation, on the memory of an observer. */
  function Performed(th: Thread, abs: seq<int>): (r: seq<int>)
    ensures |r| == |abs|
  {
    if th.first >= |abs| then abs
    else
      match th.kind
      case Swap => Swapped(abs, th.first, th.last)
      case Get => abs
      case Set(x) => abs[th.first := x]
      case Section(Same) => abs
      case Section(Other(y)) => abs[th.first := y]
  }

  /** What one step does to the observer's memory: a whole operation, or nothing. */
  function Observed(s: State, t: nat, abs: seq<int>): (r: seq<int>)
    ensures |r| == |abs|
  {
    if Linearizes(s, t) then Performed(s.threads[t], abs) else abs
  }

  /** The observer's memory is determined by the state. */
  lemma RepresentsUnique(s: State, a: seq<int>, b: seq<int>)
    requires Inv(s) && Represents(s, a) && Represents(s, b)
    ensures a == b
  {
    forall c: nat | c < |a|
      ensures a[c] == b[c]
    {
      assert CellOk(s, c);
      if s.cells[c] == ATOMIC_NULL {
        var t: nat :| HeldBy(s, c, t);
        assert ThreadOk(s, t);
        assert a[s.threads[t].first] == HeldValue(s.threads[t]) == b[s.threads[t].first];
      }
    }
  }

  /** Every step of the machine is one whole operation on the observer's memory, or invisible. */
  lemma StepSimulates(s: State, t: nat, s': State, abs: seq<int>)
    requires Inv(s) && Step(s, t, s') && Represents(s, abs)
    ensures Represents(s', Observed(s, t, abs))
  {
    assert ThreadOk(s, t);
    var th := s.threads[t];
    assert Holding(th) ==> HeldBy(s, th.first, t) && CellOk(s, th.first);
    var abs' := Observed(s, t, abs);
    forall u: nat | u < |s'.threads| && Holding(s'.threads[u]) && s'.threads[u].first < |abs'|
      ensures abs'[s'.threads[u].first] == HeldValue(s'.threads[u])
    {
      assert ThreadOk(s, u);
      if u != t {
        assert HeldBy(s, s.threads[u].first, u);
      }
    }
  }

  /** A call other than a swap returns the value the observer's memory has when it takes effect. */
  lemma ReturnsObserved(s: State, t: nat, s': State, abs: seq<int>)
    requires Inv(s) && Step(s, t, s') && Represents(s, abs) && Linearizes(s, t) && !s.threads[t].kind.Swap?
    ensures s'.threads[t].pc == Done(true, abs[s.threads[t].first])
  {
    assert ThreadOk(s, t);
  }

  /** No two threads are inside a section, or in a swap, of one cell. */
  lemma Exclusive(s: State, t: nat, u: nat)
    requires Inv(s) && t < |s.threads| && u < |s.threads| && Holding(s.threads[t]) && Holding(s.threads[u])
    requires s.threads[t].first == s.threads[u].first
    ensures t == u
  {
    assert ThreadOk(s, t);
    var c := s.threads[t].first;
    assert CellOk(s, c) && HeldBy(s, c, t) && HeldBy(s, c, u);
  }

  ghost predicate StepAt(states: seq<State>, sched: seq<nat>, i: nat) {
    i < |sched| && i + 1 < |states| && Step(states[i], sched[i], states[i + 1])
  }

  /** A run: states[i + 1] comes from states[i] by a step of thread sched[i]. */
  ghost predicate Run(states: seq<State>, sched: seq<nat>) {
    && |states| == |sched| + 1
    && Init(states[0])
    && forall i: nat {:trigger StepAt(states, sched, i)} :: i < |sched| ==> StepAt(states, sched, i)
  }

  /** The observer's memory after the first n steps of a run, as a fold of whole operations. */
  ghost function History(states: seq<State>, sched: seq<nat>, n: nat): (abs: seq<int>)
    requires |states| == |sched| + 1 && n <= |sched|
  {
    if n == 0 then states[0].cells
    else Observed(states[n - 1], sched[n - 1], History(states, sched, n - 1))
  }

  /** Linearizability: in every run, memory is at all times what a sequence of whole operations would give. */
  lemma {:induction false} Linearizable(states: seq<State>, sched: seq<nat>, n: nat)
    requires Run(states, sched) && n <= |sched|
    ensures Inv(states[n])
    ensures Represents(states[n], History(states, sched, n))
    decreases n
  {
    if n == 0 {
      InitInv(states[0]);
    } else {
      Linearizable(states, sched, n - 1);
      assert StepAt(states, sched, n - 1);
      var t := sched[n - 1];
      StepInv(states[n - 1], t, states[n]);
      StepSimulates(states[n - 1], t, states[n], History(states, sched, n - 1));
    }
  }

  /** And every call that returns a value returns the one it would have got in that sequence. */
  lemma LinearizableResults(states: seq<State>, sched: seq<nat>, n: nat)
    requires Run(states, sched) && n < |sched| && Linearizes(states[n], sched[n]) && !states[n].threads[sched[n]].kind.Swap?
    ensures |History(states, sched, n)| == |states[n].cells| && |states[n + 1].threads| == |states[n].threads|
    ensures states[n + 1].threads[sched[n]].pc == Done(true, History(states, sched, n)[states[n].threads[sched[n]].first])
  {
    Linearizable(states, sched, n);
    assert StepAt(states, sched, n);
    ReturnsObserved(states[n], sched[n], states[n + 1], History(states, sched, n));
  }

  /** When every call has returned, the cells themselves hold the result of the whole operations. */
  lemma QuiescentCells(states: seq<State>, sched: seq<nat>)
    requires Run(states, sched)
    requires forall t :: 0 <= t < |states[|sched|].threads| ==> states[|sched|].threads[t].pc.Done?
    ensures states[|sched|].cells == History(states, sched, |sched|)
  {
    Linearizable(states, sched, |sched|);
    var s, abs := states[|sched|], History(states, sched, |sched|);
    forall c: nat | c < |s.cells|
      ensures s.cells[c] == abs[c]
    {
      assert CellOk(s, c);
    }
  }

  /** The number of times thread t has taken effect in the first n steps. */
  ghost function Effects(states: seq<State>, sched: seq<nat>, t: nat, n: nat): nat
    requires |states| == |sched| + 1 && n <= |sched|
  {
    if n == 0 then 0
    else Effects(states, sched, t, n - 1) + if sched[n - 1] == t && Linearizes(states[n - 1], t) then 1 else 0
  }

  /**
    A call that is not of the Try kind has taken effect exactly once when it returns.  A Try call
    that returns true has too; one that returned false, or has not come that far, never did.
  */
  lemma {:induction false} OneEffectPerCall(states: seq<State>, sched: seq<nat>, t: nat, n: nat)
    requires Run(states, sched) && n <= |sched| && t < |states[0].threads|
    ensures |states[n].threads| == |states[0].threads|
    ensures var pc := states[n].threads[t].pc;
            Effects(states, sched, t, n) == if (pc.Checkin? || pc.Done?) && pc.ok then 1 else 0
    ensures !states[0].threads[t].trial && states[n].threads[t].pc.Done? ==> Effects(states, sched, t, n) == 1
    ensures states[n].threads[t].trial == states[0].threads[t].trial
    decreases n
  {
    Linearizable(states, sched, n);
    if n > 0 {
      OneEffectPerCall(states, sched, t, n - 1);
      assert StepAt(states, sched, n - 1);
      Linearizable(states, sched, n - 1);
      assert ThreadOk(states[n - 1], t);
      assert ThreadOk(states[n], t);
    }
  }

  // ---------------------------------------------------------- conservation

  ghost function InHand(th: Thread, v: int): nat {
    if Holding(th) && HeldValue(th) == v then 1 else 0
  }

  /** How many threads have v in their hands. */
  ghost function HeldCount(threads: seq<Thread>, v: int): nat {
    if threads == [] then 0
    else HeldCount(threads[..|threads| - 1], v) + InHand(threads[|threads| - 1], v)
  }

  lemma {:induction false} HeldUpdate(threads: seq<Thread>, t: nat, th: Thread, v: int)
    requires t < |threads|
    ensures HeldCount(threads[t := th], v) == HeldCount(threads, v) - InHand(threads[t], v) + InHand(th, v)
  {
    var m := |threads| - 1;
    if t == m {
      assert threads[t := th][..m] == threads[..m];
    } else {
      HeldUpdate(threads[..m], t, th, v);
      assert threads[t := th][..m] == threads[..m][t := th];
    }
  }

  ghost function Count(cells: seq<int>, v: int): nat {
    if cells == [] then 0
    else Count(cells[..|cells| - 1], v) + if cells[|cells| - 1] == v then 1 else 0
  }

  lemma {:induction false} CountIsMultiplicity(cells: seq<int>, v: int)
    ensures Count(cells, v) == multiset(cells)[v]
  {
    if cells != [] {
      CountIsMultiplicity(cells[..|cells| - 1], v);
      assert cells == cells[..|cells| - 1] + [cells[|cells| - 1]];
    }
  }

  lemma {:induction false} CountUpdate(cells: seq<int>, c: nat, x: int, v: int)
    requires c < |cells|
    ensures Count(cells[c := x], v) == Count(cells, v) - (if cells[c] == v then 1 else 0) + (if x == v then 1 else 0)
  {
    var m := |cells| - 1;
    if c == m {
      assert cells[c := x][..m] == cells[..m];
    } else {
      CountUpdate(cells[..m], c, x, v);
      assert cells[c := x][..m] == cells[..m][c := x];
    }
  }

  /** How often v occurs in checked-in cells and in threads' hands together. */
  ghost function Total(s: State, v: int): nat {
    Count(s.cells, v) + HeldCount(s.threads, v)
  }

  function IsValue(x: int, v: int): nat {
    if x == v then 1 else 0
  }

  /** No step creates, loses or duplicates a value, except that Set and a section put another one in its place. */
  lemma Conserved(s: State, t: nat, s': State, abs: seq<int>, v: int)
    requires Inv(s) && Step(s, t, s') && Represents(s, abs) && v != ATOMIC_NULL
    ensures Total(s', v) - Total(s, v) == Count(Observed(s, t, abs), v) - Count(abs, v)
  {
    assert ThreadOk(s, t);
    HeldUpdate(s.threads, t, s'.threads[t], v);
    ObservedCount(s, t, abs, v);
    if s.threads[t].kind.Swap? {
      SwapCount(s, t, s', v);
    } else {
      OtherCount(s, t, s', v);
    }
  }

  /** What the cells lose in a step of a swap the hand gains. */
  lemma SwapCount(s: State, t: nat, s': State, v: int)
    requires Inv(s) && Step(s, t, s') && v != ATOMIC_NULL && s.threads[t].kind.Swap?
    ensures Count(s'.cells, v) + InHand(s'.threads[t], v) == Count(s.cells, v) + InHand(s.threads[t], v)
  {
    assert ThreadOk(s, t);
    var th := s.threads[t];
    match th.pc
    case CasFirst(_) => CountUpdate(s.cells, th.first, s'.cells[th.first], v);
    case CasLast(held, _) => CountUpdate(s.cells, th.last, held, v);
    case Checkin(out, _) => CountUpdate(s.cells, th.first, out, v);
    case _ =>
  }

  /** In a step of another call they do too, except where it puts a new value in its place. */
  lemma OtherCount(s: State, t: nat, s': State, v: int)
    requires Inv(s) && Step(s, t, s') && v != ATOMIC_NULL && !s.threads[t].kind.Swap?
    ensures var th := s.threads[t];
      Count(s'.cells, v) + InHand(s'.threads[t], v) - Count(s.cells, v) - InHand(th, v) ==
        if !Linearizes(s, t) then 0
        else if th.kind.Set? then IsValue(th.kind.x, v) - IsValue(s.cells[th.first], v)
        else if th.kind.Section? && th.kind.back.Other? then IsValue(th.kind.back.y, v) - IsValue(HeldValue(th), v)
        else 0
  {
    assert ThreadOk(s, t);
    var th := s.threads[t];
    match th.pc
    case CasFirst(_) => CountUpdate(s.cells, th.first, s'.cells[th.first], v);
    case Inside(_) => CountUpdate(s.cells, th.first, s'.cells[th.first], v);
    case _ =>
  }

  /** What an operation changes in the observer's memory. */
  lemma ObservedCount(s: State, t: nat, abs: seq<int>, v: int)
    requires t < |s.threads| && InBounds(s.cells, s.threads[t]) && |abs| == |s.cells|
    ensures var th := s.threads[t];
      Count(Observed(s, t, abs), v) == Count(abs, v) +
        if !Linearizes(s, t) then 0
        else if th.kind.Set? then IsValue(th.kind.x, v) - IsValue(abs[th.first], v)
        else if th.kind.Section? && th.kind.back.Other? then IsValue(th.kind.back.y, v) - IsValue(abs[th.first], v)
        else 0
  {
    var th := s.threads[t];
    match th.kind
    case Swap =>
      CountIsMultiplicity(abs, v);
      CountIsMultiplicity(Swapped(abs, th.first, th.last), v);
    case Get =>
    case Set(x) => CountUpdate(abs, th.first, x, v);
    case Section(Same) =>
    case Section(Other(y)) => CountUpdate(abs, th.first, y, v);
  }

  /** At every point of every run the values in cells and in hands are those of the observer's memory. */
  lemma {:induction false} ConservedRun(states: seq<State>, sched: seq<nat>, n: nat, v: int)
    requires Run(states, sched) && n <= |sched| && v != ATOMIC_NULL
    ensures Count(states[n].cells, v) + HeldCount(states[n].threads, v) == multiset(History(states, sched, n))[v]
    decreases n
  {
    CountIsMultiplicity(History(states, sched, n), v);
    if n == 0 {
      NobodyHolds(states[0].threads, v);
    } else {
      ConservedRun(states, sched, n - 1, v);
      CountIsMultiplicity(History(states, sched, n - 1), v);
      Linearizable(states, sched, n - 1);
      assert StepAt(states, sched, n - 1);
      Conserved(states[n - 1], sched[n - 1], states[n], History(states, sched, n - 1), v);
    }
  }

  /** A call that brings in no new value. */
  predicate Keeps(th: Thread) {
    th.kind.Swap? || th.kind.Get? || (th.kind.Section? && th.kind.back.Same?)
  }

  /** Swaps, reads and sections that return what they took only move the initial values about. */
  lemma {:induction false} ValuesKept(states: seq<State>, sched: seq<nat>, n: nat)
    requires Run(states, sched) && n <= |sched| && forall t :: 0 <= t < |states[0].threads| ==> Keeps(states[0].threads[t])
    ensures multiset(History(states, sched, n)) == multiset(states[0].cells)
    decreases n
  {
    if n > 0 {
      ValuesKept(states, sched, n - 1);
      assert StepAt(states, sched, n - 1);
      SameThreads(states, sched, n - 1);
      RunKeepsCalls(states, sched, n - 1, sched[n - 1]);
      var abs := History(states, sched, n - 1);
      assert Keeps(states[n - 1].threads[sched[n - 1]]);
      KeptMemory(states[n - 1].threads[sched[n - 1]], abs);
    }
  }

  lemma KeptMemory(th: Thread, abs: seq<int>)
    requires Keeps(th)
    ensures multiset(Performed(th, abs)) == multiset(abs)
  {
  }

  lemma {:induction false} NobodyHolds(threads: seq<Thread>, v: int)
    requires forall t :: 0 <= t < |threads| ==> !Holding(threads[t])
    ensures HeldCount(threads, v) == 0
  {
    if threads != [] {
      NobodyHolds(threads[..|threads| - 1], v);
    }
  }

  // ------------------------------------------------- waiting and completion

  /** A call spins on a checked-out cell; a Try call never waits. */
  predicate Waiting(s: State, t: nat) {
    && t < |s.threads| && InBounds(s.cells, s.threads[t]) && !s.threads[t].trial
    && ((s.threads[t].pc.LoadFirst? && s.cells[s.threads[t].first] == ATOMIC_NULL)
        || (s.threads[t].pc.LoadLast? && s.cells[s.threads[t].last] == ATOMIC_NULL))
  }

  function Target(th: Thread): nat {
    if th.pc.LoadFirst? then th.first else th.last
  }

  /** t spins on a cell that u has checked out. */
  ghost predicate WaitsFor(s: State, t: nat, u: nat) {
    Waiting(s, t) && HeldBy(s, Target(s.threads[t]), u)
  }

  ghost predicate WaitAt(s: State, ts: seq<nat>, i: nat) {
    i + 1 < |ts| && WaitsFor(s, ts[i], ts[i + 1])
  }

  ghost predicate WaitChain(s: State, ts: seq<nat>) {
    forall i: nat {:trigger WaitAt(s, ts, i)} :: i + 1 < |ts| ==> WaitAt(s, ts, i)
  }

  /** A call that can return: it is not a swap, or names two cells, or gives up when it finds one taken. */
  predicate Returns(th: Thread) {
    !th.kind.Swap? || th.first < th.last || th.trial
  }

  ghost predicate AllReturn(s: State) {
    forall t :: 0 <= t < |s.threads| ==> Returns(s.threads[t])
  }

  /** Along a chain of waiting threads the addresses waited for strictly rise. */
  lemma {:induction false} WaitsRise(s: State, ts: seq<nat>, n: nat)
    requires Inv(s) && AllReturn(s) && WaitChain(s, ts) && 0 < n && n + 1 < |ts|
    ensures ts[0] < |s.threads| && ts[n] < |s.threads|
    ensures Target(s.threads[ts[0]]) < Target(s.threads[ts[n]])
    decreases n
  {
    assert WaitAt(s, ts, n) && WaitAt(s, ts, n - 1);
    assert ThreadOk(s, ts[n]);
    if n > 1 {
      WaitsRise(s, ts, n - 1);
    }
  }

  /** The address order rules out every cycle of waiting threads. */
  lemma NoWaitCycle(s: State, ts: seq<nat>)
    requires Inv(s) && AllReturn(s) && WaitChain(s, ts) && |ts| >= 2
    ensures ts[|ts| - 1] != ts[0]
  {
    if ts[|ts| - 1] == ts[0] {
      var long := ts + [ts[1]];
      forall i: nat | i + 1 < |long|
        ensures WaitAt(s, long, i)
      {
        assert i + 1 < |ts| ==> WaitAt(s, ts, i);
        assert WaitAt(s, ts, 0);
      }
      WaitsRise(s, long, |ts| - 1);
    }
  }

  /** A run that continues from any state. */
  ghost predicate Continues(s: State, sched: seq<nat>, s': State)
    decreases |sched|
  {
    if sched == [] then s == s'
    else exists m :: Step(s, sched[0], m) && Continues(m, sched[1..], s')
  }

  /** One step of thread t, as a function. */
  function After(s: State, t: nat): State
    requires t < |s.threads| && InBounds(s.cells, s.threads[t])
  {
    State(Next(s.cells, s.threads[t]).0, s.threads[t := Next(s.cells, s.threads[t]).1])
  }

  ghost function Left(threads: seq<Thread>): nat {
    if threads == [] then 0
    else Left(threads[..|threads| - 1]) + if threads[|threads| - 1].pc.Done? then 0 else 1
  }

  lemma {:induction false} LeftUpdate(threads: seq<Thread>, t: nat, th: Thread)
    requires t < |threads|
    ensures Left(threads[t := th]) == Left(threads) - (if threads[t].pc.Done? then 0 else 1) + (if th.pc.Done? then 0 else 1)
  {
    var m := |threads| - 1;
    if t == m {
      assert threads[t := th][..m] == threads[..m];
    } else {
      LeftUpdate(threads[..m], t, th);
      assert threads[t := th][..m] == threads[..m][t := th];
    }
  }

  lemma {:induction false} NoneLeft(threads: seq<Thread>)
    ensures Left(threads) == 0 <==> forall t :: 0 <= t < |threads| ==> threads[t].pc.Done?
  {
    if threads != [] {
      var m := |threads| - 1;
      NoneLeft(threads[..m]);
      assert forall t :: 0 <= t < m ==> threads[..m][t] == threads[t];
    }
  }

  lemma Prepend(s: State, t: nat, m: State, sched: seq<nat>, s': State)
    requires Step(s, t, m) && Continues(m, sched, s')
    ensures Continues(s, [t] + sched, s')
  {
    assert ([t] + sched)[1..] == sched;
  }

  lemma {:induction false} Append(s: State, a: seq<nat>, m: State, b: seq<nat>, s': State)
    requires Continues(s, a, m) && Continues(m, b, s')
    ensures Continues(s, a + b, s')
    decreases |a|
  {
    if a == [] {
      assert a + b == b;
    } else {
      var x :| Step(s, a[0], x) && Continues(x, a[1..], m);
      Append(x, a[1..], m, b, s');
      Prepend(s, a[0], x, a[1..] + b, s');
      assert [a[0]] + (a[1..] + b) == a + b;
    }
  }

  /** How many steps of its own thread t still needs if nobody interferes. */
  function Rank(s: State, t: nat): nat
    requires t < |s.threads| && InBounds(s.cells, s.threads[t])
  {
    var th := s.threads[t];
    match th.pc
    case LoadFirst => 5
    case Inside(_) => 1
    case CasFirst(seen) => if s.cells[th.first] == seen then 4 else 6
    case LoadLast(_) => 3
    case CasLast(_, seen) => if s.cells[th.last] == seen then 2 else 4
    case Checkin(_, _) => 1
    case Done(_, _) => 0
  }

  /** Nothing that t still has to check out is checked out by another thread. */
  predicate Unobstructed(s: State, t: nat) {
    && t < |s.threads| && InBounds(s.cells, s.threads[t])
    && Returns(s.threads[t])
    && (s.threads[t].trial || !s.threads[t].kind.Swap? || s.threads[t].pc.Checkin? || s.threads[t].pc.Done? || s.cells[s.threads[t].last] != ATOMIC_NULL)
    && (!s.threads[t].trial && (s.threads[t].pc.LoadFirst? || s.threads[t].pc.CasFirst?) ==> s.cells[s.threads[t].first] != ATOMIC_NULL)
  }

  /** Run alone, an unobstructed thread returns, and no other thread notices. */
  lemma {:induction false} RunsAlone(s: State, t: nat) returns (sched: seq<nat>, s': State)
    requires Inv(s) && Unobstructed(s, t)
    ensures Continues(s, sched, s') && Inv(s')
    ensures |s'.threads| == |s.threads| && |s'.cells| == |s.cells|
    ensures s'.threads[t].pc.Done? && s'.threads == s.threads[t := s'.threads[t]]
    ensures s'.threads[t].(pc := s.threads[t].pc) == s.threads[t]
    decreases Rank(s, t)
  {
    if s.threads[t].pc.Done? {
      sched, s' := [], s;
      assert s.threads == s.threads[t := s.threads[t]];
    } else {
      assert ThreadOk(s, t);
      var m := After(s, t);
      StepInv(s, t, m);
      var rest;
      rest, s' := RunsAlone(m, t);
      Prepend(s, t, m, rest, s');
      sched := [t] + rest;
    }
  }

  /** Whatever the call still has to find in its cells is there: they are checked in and hold what it has seen. */
  predicate Undisturbed(s: State, t: nat) {
    && t < |s.threads| && InBounds(s.cells, s.threads[t])
    && var th := s.threads[t];
       var lastFree := th.kind.Swap? ==> th.first < th.last && s.cells[th.last] != ATOMIC_NULL;
       match th.pc
       case LoadFirst => s.cells[th.first] != ATOMIC_NULL && lastFree
       case CasFirst(seen) => s.cells[th.first] == seen && lastFree
       case Inside(_) => true
       case LoadLast(_) => s.cells[th.last] != ATOMIC_NULL
       case CasLast(_, seen) => s.cells[th.last] == seen
       case Checkin(_, ok) => ok
       case Done(ok, _) => ok
  }

  /** Left alone with its cells checked in, every call succeeds, of the Try kind or not, and has done its operation. */
  lemma {:induction false} SucceedsAlone(s: State, t: nat, abs: seq<int>) returns (sched: seq<nat>, s': State)
    requires Inv(s) && Undisturbed(s, t) && Represents(s, abs)
    ensures Continues(s, sched, s') && Inv(s') && t < |s'.threads|
    ensures s'.threads[t].pc.Done? && s'.threads[t].pc.ok && s'.threads == s.threads[t := s'.threads[t]]
    ensures Represents(s', if s.threads[t].pc.Checkin? || s.threads[t].pc.Done? then abs else Performed(s.threads[t], abs))
    decreases Rank(s, t)
  {
    if s.threads[t].pc.Done? {
      sched, s' := [], s;
      assert s.threads == s.threads[t := s.threads[t]];
    } else {
      assert ThreadOk(s, t);
      var m := After(s, t);
      StepInv(s, t, m);
      StepSimulates(s, t, m, abs);
      assert m.threads[t].(pc := s.threads[t].pc) == s.threads[t];
      var rest;
      rest, s' := SucceedsAlone(m, t, Observed(s, t, abs));
      Prepend(s, t, m, rest, s');
      sched := [t] + rest;
    }
  }

  /** How often thread t has been scheduled in the first n steps. */
  function Turns(sched: seq<nat>, t: nat, n: nat): nat
    requires n <= |sched|
  {
    if n == 0 then 0 else Turns(sched, t, n - 1) + if sched[n - 1] == t then 1 else 0
  }

  function StepsLeft(pc: Pc): nat {
    match pc
    case LoadFirst => 5
    case CasFirst(_) => 4
    case LoadLast(_) => 3
    case CasLast(_, _) => 2
    case Inside(_) => 1
    case Checkin(_, _) => 1
    case Done(_, _) => 0
  }

  /** A Try call never waits: whatever the others do, it has returned after five steps of its own. */
  lemma {:induction false} TryNeverWaits(states: seq<State>, sched: seq<nat>, t: nat, n: nat)
    requires Run(states, sched) && n <= |sched| && t < |states[0].threads| && states[0].threads[t].trial
    ensures |states[n].threads| == |states[0].threads| && states[n].threads[t].trial
    ensures Turns(sched, t, n) + StepsLeft(states[n].threads[t].pc) <= 5 || states[n].threads[t].pc.Done?
    ensures Turns(sched, t, n) >= 5 ==> states[n].threads[t].pc.Done?
    decreases n
  {
    if n > 0 {
      TryNeverWaits(states, sched, t, n - 1);
      assert StepAt(states, sched, n - 1);
      Linearizable(states, sched, n - 1);
      assert ThreadOk(states[n - 1], t);
    }
  }

  /** The highest checked-out cell below n, if there is one. */
  lemma {:induction false} HighestOut(s: State, n: nat) returns (c: int)
    requires n <= |s.cells|
    ensures -1 <= c < n
    ensures c >= 0 ==> s.cells[c] == ATOMIC_NULL
    ensures forall d :: c < d < n ==> s.cells[d] != ATOMIC_NULL
    decreases n
  {
    if n == 0 {
      c := -1;
    } else if s.cells[n - 1] == ATOMIC_NULL {
      c := n - 1;
    } else {
      c := HighestOut(s, n - 1);
    }
  }

  /** While a call is unfinished, some unfinished call is unobstructed. */
  lemma SomeoneRuns(s: State) returns (t: nat)
    requires Inv(s) && AllReturn(s)
    requires exists u :: 0 <= u < |s.threads| && !s.threads[u].pc.Done?
    ensures t < |s.threads| && !s.threads[t].pc.Done? && Unobstructed(s, t)
  {
    var c := HighestOut(s, |s.cells|);
    if c >= 0 {
      assert CellOk(s, c);
      t :| HeldBy(s, c, t);
    } else {
      t :| 0 <= t < |s.threads| && !s.threads[t].pc.Done?;
    }
    assert ThreadOk(s, t);
  }

  /** Deadlock freedom: as long as every call is one that can return, all of them still can. */
  lemma {:induction false} AllCanComplete(s: State) returns (sched: seq<nat>, s': State)
    requires Inv(s) && AllReturn(s)
    ensures Continues(s, sched, s') && |s'.threads| == |s.threads|
    ensures forall t :: 0 <= t < |s'.threads| ==> s'.threads[t].pc.Done?
    decreases Left(s.threads)
  {
    NoneLeft(s.threads);
    if Left(s.threads) == 0 {
      sched, s' := [], s;
    } else {
      var t := SomeoneRuns(s);
      var a, m := RunsAlone(s, t);
      LeftUpdate(s.threads, t, m.threads[t]);
      var b;
      b, s' := AllCanComplete(m);
      Append(s, a, m, b, s');
      sched := a + b;
    }
  }

  /** A Swap of a cell with itself that has not checked in: it never gets past the wait for its second cell. */
  predicate SelfWaiting(th: Thread) {
    th.kind.Swap? && th.first == th.last && !th.trial && (th.pc.LoadFirst? || th.pc.CasFirst? || th.pc.LoadLast?)
  }

  /** Whatever the schedule, a Swap of a cell with itself never returns. */
  lemma {:induction false} SelfSwapHangs(s: State, t: nat, sched: seq<nat>, s': State)
    requires Inv(s) && t < |s.threads| && Continues(s, sched, s') && SelfWaiting(s.threads[t])
    ensures t < |s'.threads| && SelfWaiting(s'.threads[t])
    decreases |sched|
  {
    if sched != [] {
      var m :| Step(s, sched[0], m) && Continues(m, sched[1..], s');
      assert ThreadOk(s, t);
      StepInv(s, sched[0], m);
      SelfSwapHangs(m, t, sched[1..], s');
    }
  }

  ghost predicate Finishes(s: State, sched: seq<nat>, s': State) {
    Continues(s, sched, s') && forall t :: 0 <= t < |s'.threads| ==> s'.threads[t].pc.Done?
  }

  /** Some schedule lets every call return. */
  ghost predicate CanFinish(s: State) {
    exists sched: seq<nat>, s': State :: Finishes(s, sched, s')
  }

  /** A run changes neither what a call names nor its kind, and leaves a self-swap waiting. */
  lemma {:induction false} RunKeepsCalls(states: seq<State>, sched: seq<nat>, n: nat, t: nat)
    requires Run(states, sched) && n <= |sched| && t < |states[0].threads|
    ensures |states[n].threads| == |states[0].threads|
    ensures states[n].threads[t].(pc := LoadFirst) == states[0].threads[t]
    ensures !Returns(states[0].threads[t]) ==> SelfWaiting(states[n].threads[t])
    decreases n
  {
    if n > 0 {
      RunKeepsCalls(states, sched, n - 1, t);
      assert StepAt(states, sched, n - 1);
      Linearizable(states, sched, n - 1);
      assert ThreadOk(states[n - 1], t);
    }
  }

  /**
    At every point of every run: all calls can still return if and only if every Swap was given
    two different cells.  TrySwap may be given the same cell twice.
  */
  lemma CompletionExactly(states: seq<State>, sched: seq<nat>, n: nat)
    requires Run(states, sched) && n <= |sched|
    ensures CanFinish(states[n]) <==>
      forall t :: 0 <= t < |states[0].threads| && states[0].threads[t].kind.Swap? ==>
        states[0].threads[t].trial || states[0].threads[t].first != states[0].threads[t].last
  {
    var s := states[n];
    Linearizable(states, sched, n);
    forall t: nat | t < |states[0].threads|
      ensures |s.threads| == |states[0].threads| && s.threads[t].(pc := LoadFirst) == states[0].threads[t]
      ensures !Returns(states[0].threads[t]) ==> SelfWaiting(s.threads[t])
    {
      RunKeepsCalls(states, sched, n, t);
    }
    SameThreads(states, sched, n);
    if AllReturn(states[0]) {
      var rest, s' := AllCanComplete(s);
      assert Finishes(s, rest, s');
    } else {
      var t: nat :| t < |states[0].threads| && !Returns(states[0].threads[t]);
      forall rest: seq<nat>, s': State | Continues(s, rest, s')
        ensures !Finishes(s, rest, s')
      {
        SelfSwapHangs(s, t, rest, s');
      }
    }
  }

  lemma {:induction false} SameThreads(states: seq<State>, sched: seq<nat>, n: nat)
    requires Run(states, sched) && n <= |sched|
    ensures |states[n].threads| == |states[0].threads|
    decreases n
  {
    if n > 0 {
      SameThreads(states, sched, n - 1);
      assert StepAt(states, sched, n - 1);
    }
  }

  /** The smallest case: one cell, one Swap of it with itself, from the start. */
  lemma OneSelfSwap(v: int)
    requires v != ATOMIC_NULL
    ensures !CanFinish(State([v], [Thread(Swap, 0, 0, false, LoadFirst)]))
    ensures CanFinish(State([v], [Thread(Swap, 0, 0, true, LoadFirst)]))
  {
    var swap, trial := State([v], [Thread(Swap, 0, 0, false, LoadFirst)]), State([v], [Thread(Swap, 0, 0, true, LoadFirst)]);
    assert Run([swap], []) && Run([trial], []);
    CompletionExactly([swap], [], 0);
    assert swap.threads[0].first == swap.threads[0].last;
    CompletionExactly([trial], [], 0);
  }
}
