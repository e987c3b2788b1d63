/** compute_levels of trident-workloads/graph500/verify.c: the depth of every vertex in a parent array. */
module TreeLevels {
  import opened Frontier

  /** Parents as the checker is given them: -1 or a vertex. */
  ghost predicate Parents(tree: seq<int>) {
    forall k :: 0 <= k < |tree| ==> -1 <= tree[k] < |tree|
  }

  ghost predicate LevelAt(tree: seq<int>, root: nat, level: seq<int>, k: nat) {
    && k < |tree| && |level| == |tree|
    && if k == root then level[k] == 0
       else if tree[k] < 0 then level[k] == -1
       else tree[k] < |tree| && tree[tree[k]] >= 0 && level[tree[k]] >= 0 && level[k] == level[tree[k]] + 1
  }

  /** level is the number of hops to the root; every vertex of the tree gets there. */
  ghost predicate Levels(tree: seq<int>, root: nat, level: seq<int>) {
    && root < |tree| && |level| == |tree|
    && forall k: nat {:trigger LevelAt(tree, root, level, k)} :: k < |tree| ==> LevelAt(tree, root, level, k)
  }

  // ------------------------------------------------------ levels are small and unique

  /** The vertices from k up to the root. */
  lemma {:induction false} PathSize(tree: seq<int>, root: nat, level: seq<int>, k: nat) returns (path: set<nat>)
    requires Parents(tree) && Levels(tree, root, level) && k < |tree| && level[k] >= 0
    ensures |path| == level[k] + 1 && path <= Below(|tree|)
    ensures forall x :: x in path ==> x < |tree| && 0 <= level[x] <= level[k]
    decreases level[k]
  {
    assert LevelAt(tree, root, level, k);
    if k == root {
      path := {k};
    } else {
      var rest := PathSize(tree, root, level, tree[k]);
      path := rest + {k};
    }
  }

  lemma LevelBound(tree: seq<int>, root: nat, level: seq<int>, k: nat)
    requires Parents(tree) && Levels(tree, root, level) && k < |tree|
    ensures level[k] < |tree|
  {
    if level[k] >= 0 {
      var path := PathSize(tree, root, level, k);
      SubsetSize(path, Below(|tree|));
    }
  }

  // ------------------------------------------------------------- levels so far

  ghost predicate PartAt(tree: seq<int>, root: nat, level: seq<int>, k: nat) {
    && k < |tree| && |level| == |tree| && level[k] >= -1
    && (k == root ==> level[k] == 0)
    && (k != root && level[k] >= 0 ==>
          0 <= tree[k] < |tree| && tree[tree[k]] >= 0 && level[tree[k]] >= 0 && level[k] == level[tree[k]] + 1)
  }

  /** Some vertices have their levels, and with each also its parent. */
  ghost predicate Part(tree: seq<int>, root: nat, level: seq<int>) {
    && root < |tree| && |level| == |tree| && tree[root] == root
    && forall k: nat {:trigger PartAt(tree, root, level, k)} :: k < |tree| ==> PartAt(tree, root, level, k)
  }

  /** Climbing from chain[0] by parents, over vertices without level, to the last, which has one. */
  ghost predicate LinkAt(tree: seq<int>, chain: seq<nat>, i: nat) {
    i + 1 < |chain| && chain[i] < |tree| && tree[chain[i]] == chain[i + 1]
  }

  ghost predicate Climb(tree: seq<int>, level: seq<int>, chain: seq<nat>) {
    && |chain| > 0 && (forall i :: 0 <= i < |chain| ==> chain[i] < |tree|) && |level| == |tree|
    && (forall i: nat {:trigger LinkAt(tree, chain, i)} :: i + 1 < |chain| ==> LinkAt(tree, chain, i))
    && (forall i :: 0 <= i < |chain| - 1 ==> level[chain[i]] < 0)
  }

  /** A climb that ends at a levelled vertex repeats none. */
  lemma {:induction false} ClimbDistinct(tree: seq<int>, level: seq<int>, chain: seq<nat>, i: nat, j: nat)
    requires Climb(tree, level, chain) && level[chain[|chain| - 1]] >= 0 && i < j < |chain|
    ensures chain[i] != chain[j]
    decreases |chain| - j
  {
    if j + 1 < |chain| {
      ClimbDistinct(tree, level, chain, i + 1, j + 1);
      assert LinkAt(tree, chain, i) && LinkAt(tree, chain, j);
    }
  }

  /** If levels exist at all, every climb stays in the tree and goes down one level a hop. */
  lemma {:induction false} ClimbLevels(tree: seq<int>, root: nat, level: seq<int>, chain: seq<nat>, full: seq<int>, i: nat)
    requires Parents(tree) && Part(tree, root, level) && Levels(tree, root, full) && Climb(tree, level, chain) && i < |chain|
    requires tree[chain[0]] >= 0
    ensures tree[chain[i]] >= 0 && full[chain[i]] == full[chain[0]] - i && full[chain[i]] >= 0
  {
    if i == 0 {
      assert LevelAt(tree, root, full, chain[0]);
    } else {
      ClimbLevels(tree, root, level, chain, full, i - 1);
      assert LinkAt(tree, chain, i - 1);
      assert LevelAt(tree, root, full, chain[i - 1]);
      assert PartAt(tree, root, level, root);
    }
  }

  ghost predicate NoLevels(tree: seq<int>, root: nat) {
    forall full :: !Levels(tree, root, full)
  }

  /** The outcome of the first while loop: why it gives up. */
  datatype Outcome = Found | Cycle | OffTheEnd | SelfParent

  /**
    What the climb over chain shows to be wrong: it leaves the tree, comes to a vertex other than
    the root that is its own parent, or goes round without coming to the root.
  */
  ghost predicate Fault(tree: seq<int>, root: nat, chain: seq<nat>, outcome: Outcome) {
    && |chain| > 0 && (forall i :: 0 <= i < |chain| ==> chain[i] < |tree|) && tree[chain[0]] >= 0
    && (forall i: nat {:trigger LinkAt(tree, chain, i)} :: i + 1 < |chain| ==> LinkAt(tree, chain, i))
    && var last := chain[|chain| - 1];
       match outcome
       case Found => false
       case Cycle => |chain| > |tree| && root !in chain[..|tree|]
       case OffTheEnd => root !in chain && tree[last] < 0
       case SelfParent => root !in chain && tree[last] == last
  }

  ghost predicate Faulty(tree: seq<int>, root: nat, outcome: Outcome) {
    exists chain :: Fault(tree, root, chain, outcome)
  }

  lemma NotTheRoot(tree: seq<int>, root: nat, level: seq<int>, chain: seq<nat>)
    requires Part(tree, root, level) && Climb(tree, level, chain)
    ensures root !in chain[..|chain| - 1]
    ensures level[chain[|chain| - 1]] < 0 ==> root !in chain
  {
    assert PartAt(tree, root, level, root);
  }

  /** The first loop of compute_levels: runs up the tree from k until it meets a levelled vertex. */
  method RunUp(tree: seq<int>, ghost root: nat, level: array<int>, k: nat)
    returns (outcome: Outcome, parent: int, nhop: nat, ghost chain: seq<nat>)
    requires Parents(tree) && Part(tree, root, level[..]) && k < |tree| && tree[k] >= 0 && level[k] < 0
    ensures outcome == Found ==>
      Climb(tree, level[..], chain) && chain[0] == k && nhop + 1 == |chain| && chain[nhop] == parent && level[parent] >= 0
    ensures outcome != Found ==> NoLevels(tree, root) && Fault(tree, root, chain, outcome)
  {
    parent, nhop, chain := k, 0, [k];
    while parent >= 0 && level[parent] < 0 && nhop < |tree|
      invariant nhop + 1 == |chain| && Climb(tree, level[..], chain) && chain[0] == k && chain[nhop] == parent && parent >= 0
      invariant nhop <= |tree|
      decreases |tree| - nhop
    {
      NotTheRoot(tree, root, level[..], chain);
      if parent == tree[parent] {
        SelfParentFails(tree, root, level[..], chain, parent);
        return SelfParent, parent, nhop, chain;
      }
      if tree[parent] < 0 {
        OffTheEndFails(tree, root, level[..], chain, parent);
        return OffTheEnd, tree[parent], nhop + 1, chain;
      }
      chain := Extend(tree, level[..], chain, tree[parent]);
      parent := tree[parent];
      nhop := nhop + 1;
    }
    if nhop >= |tree| {
      NotTheRoot(tree, root, level[..], chain);
      CycleFails(tree, root, level[..], chain);
      outcome := Cycle;
    } else {
      outcome := Found;
    }
  }

  ghost function Extend(tree: seq<int>, level: seq<int>, chain: seq<nat>, next: int): (r: seq<nat>)
    requires Climb(tree, level, chain) && tree[chain[|chain| - 1]] == next && 0 <= next < |tree| && level[chain[|chain| - 1]] < 0
    ensures Climb(tree, level, r) && |r| == |chain| + 1 && r[|chain|] == next && r[0] == chain[0]
  {
    var r := chain + [next];
    assert forall i: nat :: i + 1 < |chain| ==> (LinkAt(tree, r, i) <==> LinkAt(tree, chain, i));
    r
  }

  lemma SelfParentFails(tree: seq<int>, root: nat, level: seq<int>, chain: seq<nat>, parent: int)
    requires Parents(tree) && Part(tree, root, level) && Climb(tree, level, chain) && tree[chain[0]] >= 0
    requires chain[|chain| - 1] == parent && level[parent] < 0 && tree[parent] == parent
    ensures NoLevels(tree, root)
  {
    assert PartAt(tree, root, level, root);
    var p: nat := parent;
    forall full
      ensures !Levels(tree, root, full)
    {
      assert !LevelAt(tree, root, full, p);
    }
  }

  lemma OffTheEndFails(tree: seq<int>, root: nat, level: seq<int>, chain: seq<nat>, parent: int)
    requires Parents(tree) && Part(tree, root, level) && Climb(tree, level, chain) && tree[chain[0]] >= 0
    requires chain[|chain| - 1] == parent && tree[parent] < 0
    ensures NoLevels(tree, root)
  {
    forall full
      ensures !Levels(tree, root, full)
    {
      if Levels(tree, root, full) {
        ClimbLevels(tree, root, level, chain, full, |chain| - 1);
        assert false;
      }
    }
  }

  lemma CycleFails(tree: seq<int>, root: nat, level: seq<int>, chain: seq<nat>)
    requires Parents(tree) && Part(tree, root, level) && Climb(tree, level, chain) && tree[chain[0]] >= 0
    requires |chain| > |tree|
    ensures NoLevels(tree, root)
  {
    forall full
      ensures !Levels(tree, root, full)
    {
      if Levels(tree, root, full) {
        ClimbLevels(tree, root, level, chain, full, |chain| - 1);
        LevelBound(tree, root, full, chain[0]);
        assert false;
      }
    }
  }

  // ---------------------------------------------------------- assigning the levels

  /** Entry j of the chain has been given its level. */
  ghost function Assigned(before: seq<int>, chain: seq<nat>, top: int, i: nat): (r: seq<int>)
    requires i <= |chain| && forall j :: 0 <= j < |chain| ==> chain[j] < |before|
    ensures |r| == |before|
  {
    if i == 0 then before else Assigned(before, chain, top, i - 1)[chain[i - 1] := top - (i - 1)]
  }

  lemma {:induction false} AssignedAt(before: seq<int>, chain: seq<nat>, top: int, i: nat, x: nat)
    requires i <= |chain| && (forall j :: 0 <= j < |chain| ==> chain[j] < |before|) && x < |before|
    requires forall j, j' :: 0 <= j < j' < |chain| ==> chain[j] != chain[j']
    ensures x !in chain[..i] ==> Assigned(before, chain, top, i)[x] == before[x]
    ensures forall j :: 0 <= j < i && chain[j] == x ==> Assigned(before, chain, top, i)[x] == top - j
  {
    if i > 0 {
      AssignedAt(before, chain, top, i - 1, x);
      assert chain[..i] == chain[..i - 1] + [chain[i - 1]];
    }
  }

  /** The second loop of compute_levels: counts down from k to the levelled vertex. */
  method AssignUp(tree: seq<int>, ghost root: nat, level: array<int>, k: nat, parent0: nat, nhop0: nat, ghost chain: seq<nat>)
    requires Parents(tree) && Part(tree, root, level[..]) && Climb(tree, level[..], chain) && k < |tree| && tree[k] >= 0
    requires chain[0] == k && nhop0 + 1 == |chain| && chain[nhop0] == parent0 && level[parent0] >= 0 && level[k] < 0
    modifies level
    ensures Part(tree, root, level[..]) && level[k] >= 0
    ensures forall x :: 0 <= x < level.Length && old(level[x]) >= 0 ==> level[x] >= 0
  {
    ghost var before := level[..];
    var nhop := nhop0 + level[parent0];
    ghost var top := nhop;
    var parent: int := k;
    ghost var i: nat := 0;
    assert forall j, j' :: 0 <= j < j' < |chain| ==> chain[j] != chain[j'] by {
      forall j: nat, j': nat | j < j' < |chain|
        ensures chain[j] != chain[j']
      {
        ClimbDistinct(tree, before, chain, j, j');
      }
    }
    while level[parent] < 0
      invariant i <= nhop0 && parent == chain[i] && nhop == top - i
      invariant level[..] == Assigned(before, chain, top, i)
      decreases nhop0 - i
    {
      AssignedAt(before, chain, top, i, chain[i]);
      assert chain[i] !in chain[..i];
      assert i < nhop0;
      assert LinkAt(tree, chain, i);
      assert nhop > 0;
      level[parent] := nhop;
      nhop := nhop - 1;
      parent := tree[parent];
      i := i + 1;
    }
    AssignedAt(before, chain, top, i, chain[i]);
    assert chain[i] !in chain[..i];
    assert i == nhop0;
    assert nhop == level[parent];
    AssignedPart(tree, root, before, chain, top, level[..]);
    AssignedAt(before, chain, top, nhop0, k);
    forall x | 0 <= x < level.Length && before[x] >= 0
      ensures level[x] >= 0
    {
      AssignedAt(before, chain, top, nhop0, x);
    }
  }

  lemma AssignedPart(tree: seq<int>, root: nat, before: seq<int>, chain: seq<nat>, top: int, after: seq<int>)
    requires Parents(tree) && Part(tree, root, before) && Climb(tree, before, chain) && tree[chain[0]] >= 0
    requires before[chain[|chain| - 1]] >= 0 && top == |chain| - 1 + before[chain[|chain| - 1]]
    requires forall j, j' :: 0 <= j < j' < |chain| ==> chain[j] != chain[j']
    requires after == Assigned(before, chain, top, |chain| - 1)
    ensures Part(tree, root, after)
  {
    var h := |chain| - 1;
    AssignedAt(before, chain, top, h, root);
    assert PartAt(tree, root, before, root);
    forall x: nat | x < |tree|
      ensures PartAt(tree, root, after, x)
    {
      assert PartAt(tree, root, before, x);
      AssignedAt(before, chain, top, h, x);
      if x in chain[..h] {
        var j :| 0 <= j < h && chain[j] == x;
        assert LinkAt(tree, chain, j);
        AssignedAt(before, chain, top, h, chain[j + 1]);
        assert PartAt(tree, root, before, chain[j + 1]);
        if j + 1 < h {
          assert LinkAt(tree, chain, j + 1);
        } else {
          assert chain[h] !in chain[..h];
        }
      } else if x != root && before[x] >= 0 {
        AssignedAt(before, chain, top, h, tree[x]);
        forall j | 0 <= j < h
          ensures chain[j] != tree[x]
        {
        }
      }
    }
  }

  // ------------------------------------------------------------------ the whole loop

  ghost predicate DoneBelow(tree: seq<int>, level: seq<int>, k: nat) {
    |level| == |tree| && forall x :: 0 <= x < k && x < |tree| && tree[x] >= 0 ==> level[x] >= 0
  }

  /** compute_levels: the levels, if there are any; an error or a failed assertion otherwise. */
  method ComputeLevels(tree: seq<int>, root: nat) returns (level: array<int>, outcome: Outcome)
    requires Parents(tree) && root < |tree| && tree[root] == root
    ensures fresh(level) && level.Length == |tree|
    ensures outcome == Found ==> Levels(tree, root, level[..])
    ensures outcome != Found ==> NoLevels(tree, root) && Faulty(tree, root, outcome)
  {
    level := new int[|tree|](k => if k == root then 0 else -1);
    forall k: nat | k < |tree|
      ensures PartAt(tree, root, level[..], k)
    {
    }
    for k := 0 to |tree|
      invariant Part(tree, root, level[..]) && DoneBelow(tree, level[..], k)
    {
      if level[k] < 0 && tree[k] >= 0 {
        var parent, nhop;
        ghost var chain;
        outcome, parent, nhop, chain := RunUp(tree, root, level, k);
        if outcome != Found {
          return;
        }
        AssignUp(tree, root, level, k, parent, nhop, chain);
      }
    }
    outcome := Found;
    forall k: nat | k < |tree|
      ensures LevelAt(tree, root, level[..], k)
    {
      assert PartAt(tree, root, level[..], k);
    }
  }
}
