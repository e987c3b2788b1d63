/**
  Direction-optimizing breadth-first search (trident-workloads/gapbs/src/bfs.cc).
  The claims of a top-down step are atomic and may happen in any order; TDStep below
  takes them in an arbitrary one.
*/
module DirectionBFS {
  import opened Graphs
  import opened Frontier

  /** v has been claimed by a vertex one level closer; nothing is deeper than k. */
  ghost predicate ClaimedAt(g: Graph, s: nat, depth: map<nat, nat>, parent: seq<int>, k: nat, v: nat) {
    DepthAt(g, s, depth, parent, v) && depth[v] <= k
  }

  ghost predicate UnseenAt(depth: map<nat, nat>, parent: seq<int>, v: nat) {
    v < |parent| && (parent[v] >= 0 <==> v in depth)
  }

  /** The search has reached depth k: exactly the vertices with a depth have a parent, one level closer. */
  ghost predicate Reached(g: Graph, s: nat, depth: map<nat, nat>, parent: seq<int>, k: nat) {
    && |parent| == g.n && s < g.n && s in depth
    && depth.Keys <= Below(g.n)
    && (forall v: nat {:trigger UnseenAt(depth, parent, v)} :: v < g.n ==> UnseenAt(depth, parent, v))
    && (forall v {:trigger ClaimedAt(g, s, depth, parent, k, v)} :: v in depth ==> ClaimedAt(g, s, depth, parent, k, v))
  }

  /** All edges out of vertices above depth k have been looked at. */
  ghost predicate EdgesDone(g: Graph, depth: map<nat, nat>, k: nat) {
    forall u {:trigger ClosedAt(g, depth, u)} :: u in depth && depth[u] < k ==> ClosedAt(g, depth, u)
  }

  ghost function Level(depth: map<nat, nat>, k: nat): set<nat> {
    set v | v in depth && depth[v] == k
  }

  lemma ClaimReached(g: Graph, s: nat, depth: map<nat, nat>, parent: seq<int>, k: nat, u: nat, v: nat)
    requires WellFormed(g) && Reached(g, s, depth, parent, k + 1)
    requires u in depth && depth[u] == k && Listed(g, u, v) && v !in depth
    ensures v < g.n && Reached(g, s, depth[v := k + 1], parent[v := u], k + 1)
  {
    var depth', parent' := depth[v := k + 1], parent[v := u];
    assert UnseenAt(depth, parent, v) && ClaimedAt(g, s, depth, parent, k + 1, u);
    assert depth'.Keys == depth.Keys + {v};
    forall x: nat | x < g.n
      ensures UnseenAt(depth', parent', x)
    {
      assert UnseenAt(depth, parent, x);
    }
    forall x | x in depth'
      ensures ClaimedAt(g, s, depth', parent', k + 1, x)
    {
      assert x == v || ClaimedAt(g, s, depth, parent, k + 1, x);
    }
  }

  /** A claim of unseen v by u of level k. */
  lemma Claim(g: Graph, s: nat, depth: map<nat, nat>, parent: seq<int>, k: nat, u: nat, v: nat)
    requires WellFormed(g) && Reached(g, s, depth, parent, k + 1) && EdgesDone(g, depth, k)
    requires u in depth && depth[u] == k && Listed(g, u, v) && v !in depth
    ensures v < g.n && Reached(g, s, depth[v := k + 1], parent[v := u], k + 1)
    ensures EdgesDone(g, depth[v := k + 1], k)
    ensures Level(depth[v := k + 1], k) == Level(depth, k)
    ensures Level(depth[v := k + 1], k + 1) == Level(depth, k + 1) + {v}
  {
    ClaimReached(g, s, depth, parent, k, u, v);
    var depth' := depth[v := k + 1];
    forall x | x in depth' && depth'[x] < k
      ensures ClosedAt(g, depth', x)
    {
      assert ClosedAt(g, depth, x);
    }
  }

  lemma ReachedFurther(g: Graph, s: nat, depth: map<nat, nat>, parent: seq<int>, k: nat)
    requires Reached(g, s, depth, parent, k)
    ensures Reached(g, s, depth, parent, k + 1) && Level(depth, k + 1) == {}
  {
    forall v | v in depth
      ensures ClaimedAt(g, s, depth, parent, k + 1, v) && depth[v] <= k
    {
      assert ClaimedAt(g, s, depth, parent, k, v);
    }
  }

  /** When every edge out of level k has been looked at, the level is done. */
  lemma LevelDone(g: Graph, s: nat, depth: map<nat, nat>, parent: seq<int>, k: nat)
    requires Reached(g, s, depth, parent, k + 1) && EdgesDone(g, depth, k)
    requires forall u: nat, v: nat :: u in Level(depth, k) && Listed(g, u, v) ==> v in depth
    ensures EdgesDone(g, depth, k + 1)
  {
    forall u | u in depth && depth[u] < k + 1
      ensures ClosedAt(g, depth, u)
    {
      if depth[u] < k {
        assert ClosedAt(g, depth, u);
      } else {
        assert u in Level(depth, k);
        forall v: nat | Listed(g, u, v)
          ensures v in depth && depth[v] <= depth[u] + 1
        {
          assert ClaimedAt(g, s, depth, parent, k + 1, v);
        }
      }
    }
  }

  /** parent[x] = -out_degree(x), or -1 for a vertex without out-edges. */
  method InitParent(g: Graph) returns (parent: array<int>)
    requires WellFormed(g)
    ensures fresh(parent) && parent.Length == g.n
    ensures forall v :: 0 <= v < g.n ==> parent[v] == (if |g.outs[v]| != 0 then -|g.outs[v]| else -1)
  {
    parent := new int[g.n];
    for n := 0 to g.n
      invariant forall v :: 0 <= v < n ==> parent[v] == (if |g.outs[v]| != 0 then -|g.outs[v]| else -1)
    {
      parent[n] := if |g.outs[n]| != 0 then -|g.outs[n]| else -1;
    }
  }

  /** Everything the queue ever held is distinct and already has a parent. */
  ghost predicate QueueOk(pushed: seq<nat>, capacity: nat, n: nat, seen: set<nat>) {
    capacity == n && Distinct(pushed) && Elements(pushed) <= seen && seen <= Below(n)
  }

  /** Edge j of u has been looked at. */
  ghost predicate LookedAt(g: Graph, depth: map<nat, nat>, u: nat, j: nat) {
    u < |g.outs| && j < |g.outs[u]| && g.outs[u][j] in depth
  }

  ghost predicate Pending(g: Graph, depth: map<nat, nat>, k: nat, pending: set<(nat, nat)>) {
    && (forall e :: e in pending ==> e.0 in depth && depth[e.0] == k && e.0 < |g.outs| && e.1 < |g.outs[e.0]|)
    && (forall u: nat, j: nat {:trigger LookedAt(g, depth, u, j)} ::
          u in depth && depth[u] == k && u < |g.outs| && j < |g.outs[u]| && (u, j) !in pending ==> LookedAt(g, depth, u, j))
  }

  lemma NonePending(g: Graph, depth: map<nat, nat>, k: nat)
    requires WellFormed(g) && Pending(g, depth, k, {})
    ensures forall u: nat, v: nat :: u in Level(depth, k) && Listed(g, u, v) ==> v in depth
  {
    forall u: nat, v: nat | u in Level(depth, k) && Listed(g, u, v)
      ensures v in depth
    {
      var j :| 0 <= j < |g.outs[u]| && g.outs[u][j] == v;
      assert LookedAt(g, depth, u, j);
    }
  }

  lemma FewerPending(g: Graph, depth: map<nat, nat>, depth': map<nat, nat>, k: nat, pending: set<(nat, nat)>, u: nat, j: nat)
    requires Pending(g, depth, k, pending) && (u, j) in pending && LookedAt(g, depth', u, j)
    requires depth.Keys <= depth'.Keys && forall x :: x in depth ==> depth'[x] == depth[x]
    requires forall x :: x in depth' && depth'[x] == k ==> x in depth
    ensures Pending(g, depth', k, pending - {(u, j)})
  {
    forall a: nat, b: nat | a in depth' && depth'[a] == k && a < |g.outs| && b < |g.outs[a]| && (a, b) !in pending - {(u, j)}
      ensures LookedAt(g, depth', a, b)
    {
      if (a, b) != (u, j) {
        assert LookedAt(g, depth, a, b);
      }
    }
  }

  /** The state of a top-down step with the edges of pending still to be looked at. */
  ghost predicate TDInv(g: Graph, s: nat, k: nat, depth: map<nat, nat>, depth': map<nat, nat>, parent: seq<int>,
                        pending: set<(nat, nat)>, found: set<nat>) {
    && Pending(g, depth', k, pending) && depth.Keys <= depth'.Keys && depth.Keys !! found
    && Reached(g, s, depth', parent, k + 1) && EdgesDone(g, depth', k)
    && found == Level(depth', k + 1)
  }

  lemma TDStart(g: Graph, s: nat, k: nat, depth: map<nat, nat>, parent: seq<int>, frontier: seq<nat>, pending: set<(nat, nat)>)
    requires Reached(g, s, depth, parent, k) && EdgesDone(g, depth, k) && Elements(frontier) == Level(depth, k)
    requires pending == set u, j | u in frontier && u < |g.outs| && 0 <= j < |g.outs[u]| :: (u, j)
    ensures TDInv(g, s, k, depth, depth, parent, pending, {})
  {
    StartPending(g, depth, k, frontier, pending);
    ReachedFurther(g, s, depth, parent, k);
  }

  lemma TDClaim(g: Graph, s: nat, k: nat, depth: map<nat, nat>, depth': map<nat, nat>, parent: seq<int>,
                pending: set<(nat, nat)>, found: set<nat>, u: nat, j: nat)
    requires WellFormed(g) && TDInv(g, s, k, depth, depth', parent, pending, found) && (u, j) in pending
    requires g.outs[u][j] !in depth'
    ensures var v := g.outs[u][j];
            v < g.n && TDInv(g, s, k, depth, depth'[v := k + 1], parent[v := u], pending - {(u, j)}, found + {v})
  {
    var v := g.outs[u][j];
    assert Listed(g, u, v);
    Claim(g, s, depth', parent, k, u, v);
    assert LookedAt(g, depth'[v := k + 1], u, j);
    FewerPending(g, depth', depth'[v := k + 1], k, pending, u, j);
  }

  lemma TDPass(g: Graph, s: nat, k: nat, depth: map<nat, nat>, depth': map<nat, nat>, parent: seq<int>,
               pending: set<(nat, nat)>, found: set<nat>, u: nat, j: nat)
    requires TDInv(g, s, k, depth, depth', parent, pending, found) && (u, j) in pending && g.outs[u][j] in depth'
    ensures TDInv(g, s, k, depth, depth', parent, pending - {(u, j)}, found)
  {
    assert LookedAt(g, depth', u, j);
    FewerPending(g, depth', depth', k, pending, u, j);
  }

  lemma TDEnd(g: Graph, s: nat, k: nat, depth: map<nat, nat>, depth': map<nat, nat>, parent: seq<int>, found: set<nat>)
    requires WellFormed(g) && TDInv(g, s, k, depth, depth', parent, {}, found)
    ensures Reached(g, s, depth', parent, k + 1) && EdgesDone(g, depth', k + 1)
  {
    NonePending(g, depth', k);
    LevelDone(g, s, depth', parent, k);
  }

  /** What the claims of these vertices add to scout_count: minus the entries they replaced. */
  ghost function Scouted(parent: seq<int>, claimed: seq<nat>): int {
    if claimed == [] then 0
    else
      var v := claimed[|claimed| - 1];
      Scouted(parent, claimed[..|claimed| - 1]) + if v < |parent| then -parent[v] else 0
  }

  /** Every claim replaced the entry its vertex had at the start of the step. */
  ghost predicate Unclaimed(parent: seq<int>, start: seq<int>) {
    |parent| == |start| && forall v :: 0 <= v < |parent| && parent[v] < 0 ==> parent[v] == start[v]
  }

  lemma ScoutedNext(parent: seq<int>, claimed: seq<nat>, v: nat)
    requires v < |parent|
    ensures Scouted(parent, claimed + [v]) == Scouted(parent, claimed) - parent[v]
  {
    assert (claimed + [v])[..|claimed|] == claimed;
  }

  /** Top-down step: every edge out of the frontier may claim its target, in any order. */
  method TDStep(g: Graph, ghost s: nat, ghost k: nat, ghost depth: map<nat, nat>, parent: array<int>, queue: SlidingQueue)
    returns (scoutCount: int, ghost depth': map<nat, nat>)
    requires WellFormed(g) && queue.Valid() && queue.outEnd == queue.sharedIn
    requires Reached(g, s, depth, parent[..], k) && EdgesDone(g, depth, k)
    requires Elements(queue.Window()) == Level(depth, k)
    requires QueueOk(queue.Pushed(), queue.shared.Length, g.n, depth.Keys)
    modifies parent, queue`sharedIn, queue.shared
    ensures queue.Valid() && queue.outEnd == old(queue.outEnd)
    ensures Reached(g, s, depth', parent[..], k + 1) && EdgesDone(g, depth', k + 1)
    ensures QueueOk(queue.Pushed(), queue.shared.Length, g.n, depth'.Keys)
    ensures Elements(queue.Pushed()[queue.outEnd..]) == Level(depth', k + 1)
    ensures depth.Keys <= depth'.Keys && depth.Keys !! Level(depth', k + 1)
    ensures scoutCount == Scouted(old(parent[..]), queue.Pushed()[queue.outEnd..])
  {
    scoutCount, depth' := 0, depth;
    var frontier := queue.shared[queue.outStart..queue.outEnd];
    var pending := set u, j | u in frontier && u < |g.outs| && 0 <= j < |g.outs[u]| :: (u, j);
    TDStart(g, s, k, depth, parent[..], frontier, pending);
    ghost var found: set<nat> := {};
    while pending != {}
      invariant queue.Valid() && queue.outEnd == old(queue.outEnd)
      invariant TDInv(g, s, k, depth, depth', parent[..], pending, found)
      invariant QueueOk(queue.Pushed(), queue.shared.Length, g.n, depth'.Keys)
      invariant Elements(queue.Pushed()[queue.outEnd..]) == found
      invariant Unclaimed(parent[..], old(parent[..]))
      invariant scoutCount == Scouted(old(parent[..]), queue.Pushed()[queue.outEnd..])
      decreases pending
    {
      var e :| e in pending;
      var added;
      added, depth', found := ClaimEdge(g, e.0, e.1, parent, queue, s, k, depth, depth', pending, found, old(parent[..]));
      scoutCount := scoutCount + added;
      pending := pending - {e};
    }
    TDEnd(g, s, k, depth, depth', parent[..], found);
  }

  /** One edge of a top-down step: a compare-and-swap on parent[v], and a push if it succeeds. */
  method ClaimEdge(g: Graph, u: nat, j: nat, parent: array<int>, queue: SlidingQueue, ghost s: nat, ghost k: nat,
                   ghost depth: map<nat, nat>, ghost depth': map<nat, nat>, ghost pending: set<(nat, nat)>, ghost found: set<nat>,
                   ghost start: seq<int>)
    returns (added: int, ghost depth'': map<nat, nat>, ghost found': set<nat>)
    requires WellFormed(g) && queue.Valid() && (u, j) in pending
    requires TDInv(g, s, k, depth, depth', parent[..], pending, found)
    requires QueueOk(queue.Pushed(), queue.shared.Length, g.n, depth'.Keys)
    requires Elements(queue.Pushed()[queue.outEnd..]) == found && Unclaimed(parent[..], start)
    modifies parent, queue`sharedIn, queue.shared
    ensures queue.Valid()
    ensures TDInv(g, s, k, depth, depth'', parent[..], pending - {(u, j)}, found')
    ensures QueueOk(queue.Pushed(), queue.shared.Length, g.n, depth''.Keys)
    ensures Elements(queue.Pushed()[queue.outEnd..]) == found' && Unclaimed(parent[..], start)
    ensures added == Scouted(start, queue.Pushed()[queue.outEnd..]) - Scouted(start, old(queue.Pushed()[queue.outEnd..]))
  {
    var v := g.outs[u][j];
    added, depth'', found' := 0, depth', found;
    assert Listed(g, u, v);
    assert UnseenAt(depth', parent[..], v);
    var currVal := parent[v];
    if currVal < 0 {
      TDClaim(g, s, k, depth, depth', parent[..], pending, found, u, j);
      ghost var was := parent[..];
      parent[v] := u;
      assert parent[..] == was[v := u];
      ScoutedNext(start, queue.Pushed()[queue.outEnd..], v);
      PushNew(queue, g.n, depth'.Keys, v);
      added, depth'', found' := -currVal, depth'[v := k + 1], found + {v};
      assert depth''.Keys == depth'.Keys + {v};
    } else {
      TDPass(g, s, k, depth, depth', parent[..], pending, found, u, j);
    }
  }

  lemma StartPending(g: Graph, depth: map<nat, nat>, k: nat, frontier: seq<nat>, pending: set<(nat, nat)>)
    requires Elements(frontier) == Level(depth, k)
    requires pending == set u, j | u in frontier && u < |g.outs| && 0 <= j < |g.outs[u]| :: (u, j)
    ensures Pending(g, depth, k, pending)
  {
    forall e | e in pending
      ensures e.0 in depth && depth[e.0] == k
    {
      assert e.0 in Elements(frontier);
    }
    forall u | u in depth && depth[u] == k
      ensures u in frontier
    {
      assert u in Level(depth, k);
      assert u in Elements(frontier);
    }
  }

  /** Push a vertex that has just been claimed: it was never in the queue, so there is room. */
  method PushNew(queue: SlidingQueue, ghost n: nat, ghost seen: set<nat>, v: nat)
    requires queue.Valid() && QueueOk(queue.Pushed(), queue.shared.Length, n, seen) && v < n && v !in seen
    modifies queue`sharedIn, queue.shared
    ensures queue.Valid() && queue.Pushed() == old(queue.Pushed()) + [v]
    ensures queue.Pushed()[queue.outEnd..] == old(queue.Pushed()[queue.outEnd..]) + [v]
    ensures QueueOk(queue.Pushed(), queue.shared.Length, n, seen + {v})
    ensures Elements(queue.Pushed()[queue.outEnd..]) == old(Elements(queue.Pushed()[queue.outEnd..])) + {v}
  {
    ghost var pushed := queue.Pushed();
    assert v !in pushed by {
      assert v in pushed ==> v in Elements(pushed);
    }
    RoomForOneMore(pushed, n, v);
    DistinctAppend(pushed, v);
    queue.PushBack(v);
    assert queue.Pushed()[queue.outEnd..] == pushed[queue.outEnd..] + [v];
    assert Elements(pushed + [v]) == Elements(pushed) + {v};
  }

  /** The bitmap front holds all of level k, perhaps with stale vertices of earlier levels. */
  ghost predicate FrontOk(depth: map<nat, nat>, k: nat, front: set<nat>) {
    Level(depth, k) <= front <= depth.Keys
  }

  /** An unseen vertex has an edge from the front exactly when it has one from level k: stale bits do no harm. */
  lemma FrontEdge(g: Graph, s: nat, depth: map<nat, nat>, parent: seq<int>, k: nat, u: nat, v: nat)
    requires WellFormed(g) && Reached(g, s, depth, parent, k + 1) && EdgesDone(g, depth, k)
    requires v in depth && depth[v] <= k && Listed(g, v, u) && u !in depth
    ensures depth[v] == k
  {
    assert depth[v] == k || ClosedAt(g, depth, v);
  }

  /** The inner loop of BUStep: the first in-neighbour of u whose bit is set. */
  method FirstInFront(vs: seq<nat>, front: Bitmap) returns (found: bool, v: nat)
    requires front.Valid() && forall i :: 0 <= i < |vs| ==> vs[i] < front.size
    ensures found ==> v in vs && v in front.members
    ensures !found ==> forall x :: x in vs ==> x !in front.members
  {
    found, v := false, 0;
    for i := 0 to |vs|
      invariant !found && forall j :: 0 <= j < i ==> vs[j] !in front.members
    {
      var bit := front.GetBit(vs[i]);
      if bit {
        found, v := true, vs[i];
        break;
      }
    }
  }

  /** u has a depth, or no edge from the front. */
  ghost predicate ScannedAt(g: Graph, depth: map<nat, nat>, front: set<nat>, u: nat) {
    u in depth || (u < |g.ins| && forall v :: v in g.ins[u] ==> v !in front)
  }

  ghost predicate Extends(depth: map<nat, nat>, depth': map<nat, nat>) {
    depth.Keys <= depth'.Keys && forall x :: x in depth ==> depth'[x] == depth[x]
  }

  lemma AllScanned(g: Graph, depth: map<nat, nat>, depth': map<nat, nat>, k: nat, front: set<nat>)
    requires WellFormed(g) && FrontOk(depth, k, front) && Level(depth', k) == Level(depth, k)
    requires depth'.Keys <= Below(g.n)
    requires forall u: nat {:trigger ScannedAt(g, depth', front, u)} :: u < g.n ==> ScannedAt(g, depth', front, u)
    ensures forall u: nat, v: nat :: u in Level(depth', k) && Listed(g, u, v) ==> v in depth'
  {
    forall u: nat, v: nat | u in Level(depth', k) && Listed(g, u, v)
      ensures v in depth'
    {
      assert ScannedAt(g, depth', front, v);
      assert u in g.ins[v] && u in front;
    }
  }

  /** The state of a bottom-up step that has treated the vertices below u. */
  ghost predicate BUInv(g: Graph, s: nat, k: nat, depth: map<nat, nat>, front: set<nat>,
                        depth': map<nat, nat>, parent: seq<int>, next: set<nat>, awake: int, u: nat) {
    && Reached(g, s, depth', parent, k + 1) && EdgesDone(g, depth', k)
    && Extends(depth, depth') && Level(depth', k) == Level(depth, k)
    && depth'.Keys == depth.Keys + next && depth.Keys !! next
    && next == Level(depth', k + 1) && awake == |next|
    && FrontOk(depth, k, front) && (forall v :: v in depth ==> depth[v] <= k)
    && forall x: nat {:trigger ScannedAt(g, depth', front, x)} :: x < u ==> ScannedAt(g, depth', front, x)
  }

  lemma BUStart(g: Graph, s: nat, k: nat, depth: map<nat, nat>, front: set<nat>, parent: seq<int>)
    requires Reached(g, s, depth, parent, k) && EdgesDone(g, depth, k) && FrontOk(depth, k, front)
    ensures BUInv(g, s, k, depth, front, depth, parent, {}, 0, 0)
  {
    ReachedFurther(g, s, depth, parent, k);
    forall v | v in depth
      ensures depth[v] <= k
    {
      assert ClaimedAt(g, s, depth, parent, k, v);
    }
  }

  lemma BUClaim(g: Graph, s: nat, k: nat, depth: map<nat, nat>, front: set<nat>,
                depth': map<nat, nat>, parent: seq<int>, next: set<nat>, awake: int, u: nat, v: nat)
    requires WellFormed(g) && BUInv(g, s, k, depth, front, depth', parent, next, awake, u)
    requires u < g.n && u !in depth' && v in g.ins[u] && v in front
    ensures BUInv(g, s, k, depth, front, depth'[u := k + 1], parent[u := v], next + {u}, awake + 1, u + 1)
  {
    FrontClaim(g, s, depth, depth', parent, k, u, v);
    var depth'' := depth'[u := k + 1];
    forall x: nat | x < u + 1
      ensures ScannedAt(g, depth'', front, x)
    {
      assert x < u ==> ScannedAt(g, depth', front, x);
    }
  }

  lemma BUPass(g: Graph, s: nat, k: nat, depth: map<nat, nat>, front: set<nat>,
               depth': map<nat, nat>, parent: seq<int>, next: set<nat>, awake: int, u: nat)
    requires BUInv(g, s, k, depth, front, depth', parent, next, awake, u) && ScannedAt(g, depth', front, u)
    ensures BUInv(g, s, k, depth, front, depth', parent, next, awake, u + 1)
  {
  }

  lemma InListBounds(g: Graph, u: nat)
    requires WellFormed(g) && u < g.n
    ensures forall i :: 0 <= i < |g.ins[u]| ==> g.ins[u][i] < g.n
  {
    forall i | 0 <= i < |g.ins[u]|
      ensures g.ins[u][i] < g.n
    {
      assert g.ins[u][i] in g.ins[u];
    }
  }

  /** One iteration of BUStep. */
  method WakeUp(g: Graph, u: nat, parent: array<int>, front: Bitmap, next: Bitmap,
                ghost s: nat, ghost k: nat, ghost depth: map<nat, nat>, ghost depth': map<nat, nat>, awakeCount: int)
    returns (awake: int, ghost depth'': map<nat, nat>)
    requires WellFormed(g) && u < g.n && front.Valid() && next.Valid() && front.size == g.n == next.size
    requires front.words != next.words && front != next
    requires BUInv(g, s, k, depth, front.members, depth', parent[..], next.members, awakeCount, u)
    modifies parent, next.words, next`members
    ensures front.Valid() && next.Valid() && front.members == old(front.members)
    ensures BUInv(g, s, k, depth, front.members, depth'', parent[..], next.members, awake, u + 1)
  {
    awake, depth'' := awakeCount, depth';
    assert UnseenAt(depth', parent[..], u);
    if parent[u] < 0 {
      InListBounds(g, u);
      var found, v := FirstInFront(g.ins[u], front);
      if found {
        BUClaim(g, s, k, depth, front.members, depth', parent[..], next.members, awakeCount, u, v);
        ghost var was := parent[..];
        parent[u] := v;
        assert parent[..] == was[u := v];
        awake := awake + 1;
        next.SetBit(u);
        depth'' := depth'[u := k + 1];
        return;
      }
    }
    BUPass(g, s, k, depth, front.members, depth', parent[..], next.members, awakeCount, u);
  }

  /** Bottom-up step: every unseen vertex looks for a parent in the front. */
  method BUStep(g: Graph, ghost s: nat, ghost k: nat, ghost depth: map<nat, nat>, parent: array<int>, front: Bitmap, next: Bitmap)
    returns (awakeCount: int, ghost depth': map<nat, nat>)
    requires WellFormed(g) && front.Valid() && next.Valid() && front.size == g.n == next.size
    requires front.words != next.words && front != next
    requires Reached(g, s, depth, parent[..], k) && EdgesDone(g, depth, k) && FrontOk(depth, k, front.members)
    modifies parent, next.words, next`members
    ensures front.Valid() && next.Valid() && front.members == old(front.members)
    ensures Reached(g, s, depth', parent[..], k + 1) && EdgesDone(g, depth', k + 1)
    ensures next.members == Level(depth', k + 1) && depth'.Keys == depth.Keys + next.members
    ensures awakeCount == |next.members| && depth.Keys !! next.members
  {
    BUStart(g, s, k, depth, front.members, parent[..]);
    awakeCount, depth' := 0, depth;
    next.Reset();
    for u := 0 to g.n
      invariant front.Valid() && next.Valid() && front.members == old(front.members)
      invariant BUInv(g, s, k, depth, front.members, depth', parent[..], next.members, awakeCount, u)
    {
      awakeCount, depth' := WakeUp(g, u, parent, front, next, s, k, depth, depth', awakeCount);
    }
    AllScanned(g, depth, depth', k, front.members);
    LevelDone(g, s, depth', parent[..], k);
  }

  lemma FrontClaim(g: Graph, s: nat, depth: map<nat, nat>, depth': map<nat, nat>, parent: seq<int>, k: nat, u: nat, v: nat)
    requires WellFormed(g) && Reached(g, s, depth', parent, k + 1) && EdgesDone(g, depth', k)
    requires Extends(depth, depth') && v in depth && depth[v] <= k && u < g.n && v in g.ins[u] && u !in depth'
    ensures Reached(g, s, depth'[u := k + 1], parent[u := v], k + 1) && EdgesDone(g, depth'[u := k + 1], k)
    ensures Level(depth'[u := k + 1], k) == Level(depth', k)
    ensures Level(depth'[u := k + 1], k + 1) == Level(depth', k + 1) + {u} && u !in Level(depth', k + 1)
  {
    assert v < g.n && Listed(g, v, u);
    FrontEdge(g, s, depth', parent, k, u, v);
    Claim(g, s, depth', parent, k, v, u);
  }

  /** QueueToBitmap: adds the frontier to the bitmap without clearing it first. */
  method QueueToBitmap(queue: SlidingQueue, bm: Bitmap)
    requires queue.Valid() && bm.Valid() && Elements(queue.Window()) <= Below(bm.size)
    modifies bm.words, bm`members
    ensures bm.Valid() && bm.members == old(bm.members) + Elements(queue.Window())
  {
    var frontier := queue.shared[queue.outStart..queue.outEnd];
    for i := 0 to |frontier|
      invariant bm.Valid() && bm.members == old(bm.members) + Elements(frontier[..i])
    {
      assert frontier[i] in Elements(frontier);
      bm.SetBit(frontier[i]);
      assert frontier[..i + 1] == frontier[..i] + [frontier[i]];
    }
    assert frontier[..|frontier|] == frontier;
  }

  /** BitmapToQueue: the members of the bitmap, none of which was in the queue before, become the window. */
  method BitmapToQueue(n: nat, bm: Bitmap, queue: SlidingQueue, ghost seen: set<nat>)
    requires queue.Valid() && bm.Valid() && bm.size == n && queue.outEnd == queue.sharedIn
    requires QueueOk(queue.Pushed(), queue.shared.Length, n, seen) && seen !! bm.members
    modifies queue, queue.shared
    ensures queue.Valid() && queue.outEnd == queue.sharedIn
    ensures QueueOk(queue.Pushed(), queue.shared.Length, n, seen + bm.members)
    ensures Elements(queue.Window()) == bm.members
  {
    ghost var done: set<nat> := {};
    ghost var all: set<nat> := seen;
    for u := 0 to n
      invariant queue.Valid() && queue.outEnd == old(queue.sharedIn)
      invariant UpTo(done, bm.members, seen, all, u)
      invariant QueueOk(queue.Pushed(), queue.shared.Length, n, all)
      invariant Elements(queue.Pushed()[queue.outEnd..]) == done
    {
      NextUpTo(done, bm.members, seen, all, u);
      var bit := bm.GetBit(u);
      if bit {
        PushNew(queue, n, all, u);
        done, all := done + {u}, all + {u};
      }
    }
    AllUpTo(done, bm.members, seen, all, n);
    queue.SlideWindow();
  }

  /** done holds the members below u, and all adds them to seen. */
  ghost predicate UpTo(done: set<nat>, members: set<nat>, seen: set<nat>, all: set<nat>, u: nat) {
    && all == seen + done && seen !! members
    && done == set x | x in members && x < u
  }

  lemma NextUpTo(done: set<nat>, members: set<nat>, seen: set<nat>, all: set<nat>, u: nat)
    requires UpTo(done, members, seen, all, u)
    ensures u in members ==> u !in all && UpTo(done + {u}, members, seen, all + {u}, u + 1)
    ensures u !in members ==> UpTo(done, members, seen, all, u + 1)
  {
  }

  lemma AllUpTo(done: set<nat>, members: set<nat>, seen: set<nat>, all: set<nat>, n: nat)
    requires UpTo(done, members, seen, all, n) && members <= Below(n)
    ensures done == members && all == seen + members
  {
  }

  /** C++ division truncates towards zero. */
  function TruncDiv(a: int, b: int): (r: int)
    requires b > 0
    ensures a >= 0 ==> r >= 0
  {
    if a >= 0 then a / b else -((-a) / b)
  }

  /** The bitmaps of the search: the two are separate objects with separate words. */
  ghost predicate Maps(front: Bitmap, curr: Bitmap, n: nat)
    reads front, curr, front.words, curr.words
  {
    front.Valid() && curr.Valid() && front.size == n == curr.size && front != curr && front.words != curr.words
  }

  lemma NewKeys(g: Graph, s: nat, depth: map<nat, nat>, parent: seq<int>, k: nat)
    requires Reached(g, s, depth, parent, k)
    ensures |depth| <= g.n && forall v :: v in depth ==> depth[v] <= k
  {
    SubsetSize(depth.Keys, Below(g.n));
    forall v | v in depth
      ensures depth[v] <= k
    {
      assert ClaimedAt(g, s, depth, parent, k, v);
    }
  }

  /** One bottom-up step and the swap of the two bitmaps. */
  method BottomUpOnce(g: Graph, ghost s: nat, ghost k: nat, ghost depth: map<nat, nat>, parent: array<int>, front: Bitmap, curr: Bitmap)
    returns (awakeCount: int, ghost depth': map<nat, nat>)
    requires WellFormed(g) && Maps(front, curr, g.n)
    requires Reached(g, s, depth, parent[..], k) && EdgesDone(g, depth, k) && FrontOk(depth, k, front.members)
    modifies parent, front, curr, curr.words
    ensures Maps(front, curr, g.n) && front.words == old(curr.words) && curr.words == old(front.words)
    ensures Reached(g, s, depth', parent[..], k + 1) && EdgesDone(g, depth', k + 1)
    ensures front.members == Level(depth', k + 1) && depth.Keys <= depth'.Keys && depth.Keys !! front.members
    ensures |depth'| == |depth| + awakeCount && 0 <= awakeCount && |depth'| <= g.n
  {
    awakeCount, depth' := BUStep(g, s, k, depth, parent, front, curr);
    NewKeys(g, s, depth', parent[..], k + 1);
    assert |depth'.Keys| == |depth.Keys| + |curr.members|;
    front.Swap(curr);
  }

  /** The do-while loop of bottom-up steps; at its end front is exactly the level reached. */
  method BottomUp(g: Graph, beta: int, frontier: int, ghost s: nat, ghost k: nat, ghost depth: map<nat, nat>,
                  parent: array<int>, front: Bitmap, curr: Bitmap)
    returns (ghost k': nat, ghost depth': map<nat, nat>)
    requires WellFormed(g) && beta > 0 && frontier > 0 && Maps(front, curr, g.n)
    requires Reached(g, s, depth, parent[..], k) && EdgesDone(g, depth, k) && FrontOk(depth, k, front.members)
    modifies parent, front, curr, front.words, curr.words
    ensures Maps(front, curr, g.n) && {front.words, curr.words} == old({front.words, curr.words})
    ensures Reached(g, s, depth', parent[..], k') && EdgesDone(g, depth', k')
    ensures front.members == Level(depth', k') && depth.Keys <= depth'.Keys && depth.Keys !! front.members
  {
    var oldAwake, threshold := frontier, TruncDiv(g.n, beta);
    var awakeCount;
    awakeCount, depth' := BottomUpOnce(g, s, k, depth, parent, front, curr);
    k' := k + 1;
    while awakeCount >= oldAwake || awakeCount > threshold
      invariant Maps(front, curr, g.n) && {front.words, curr.words} == old({front.words, curr.words})
      invariant Reached(g, s, depth', parent[..], k') && EdgesDone(g, depth', k') && front.members == Level(depth', k')
      invariant depth.Keys <= depth'.Keys && depth.Keys !! front.members
      invariant oldAwake > 0 && awakeCount >= 0 && |depth'| <= g.n
      decreases g.n - |depth'|, if awakeCount > 0 then 1 else 0
    {
      LevelSeen(depth', k');
      oldAwake := awakeCount;
      awakeCount, depth' := BottomUpOnce(g, s, k', depth', parent, front, curr);
      k' := k' + 1;
    }
  }

  lemma LevelSeen(depth: map<nat, nat>, k: nat)
    ensures FrontOk(depth, k, Level(depth, k))
  {
  }

  lemma SearchStart(g: Graph, s: nat, parent: seq<int>)
    requires WellFormed(g) && s < g.n && |parent| == g.n && parent[s] == s
    requires forall v :: 0 <= v < g.n && v != s ==> parent[v] < 0
    ensures Reached(g, s, map[s := 0], parent, 0) && EdgesDone(g, map[s := 0], 0) && Level(map[s := 0], 0) == {s}
  {
    var depth := map[s := 0];
    forall v: nat | v < g.n
      ensures UnseenAt(depth, parent, v)
    {
    }
    assert ClaimedAt(g, s, depth, parent, 0, s);
  }

  /** The state at the head of the main loop. */
  ghost predicate LoopInv(g: Graph, s: nat, depth: map<nat, nat>, parent: seq<int>, k: nat,
                          pushed: seq<nat>, window: seq<nat>, capacity: nat, front: set<nat>) {
    && Reached(g, s, depth, parent, k) && EdgesDone(g, depth, k)
    && Elements(window) == Level(depth, k)
    && QueueOk(pushed, capacity, g.n, depth.Keys)
    && front <= depth.Keys
  }

  /** An iteration that searches bottom-up. */
  method BottomUpRound(g: Graph, beta: int, ghost s: nat, ghost k: nat, ghost depth: map<nat, nat>,
                       parent: array<int>, queue: SlidingQueue, front: Bitmap, curr: Bitmap)
    returns (ghost k': nat, ghost depth': map<nat, nat>)
    requires WellFormed(g) && beta > 0 && queue.Valid() && queue.outEnd == queue.sharedIn && queue.outStart < queue.outEnd
    requires Maps(front, curr, g.n)
    requires LoopInv(g, s, depth, parent[..], k, queue.Pushed(), queue.Window(), queue.shared.Length, front.members)
    modifies parent, queue, queue.shared, front, curr, front.words, curr.words
    ensures queue.Valid() && queue.outEnd == queue.sharedIn
    ensures Maps(front, curr, g.n) && {front.words, curr.words} == old({front.words, curr.words})
    ensures LoopInv(g, s, depth', parent[..], k', queue.Pushed(), queue.Window(), queue.shared.Length, front.members)
    ensures depth.Keys <= depth'.Keys && depth.Keys !! Level(depth', k')
  {
    QueueToBitmap(queue, front);
    var awakeCount := queue.outEnd - queue.outStart;
    queue.SlideWindow();
    k', depth' := BottomUp(g, beta, awakeCount, s, k, depth, parent, front, curr);
    BitmapToQueue(g.n, front, queue, depth.Keys);
    MoreSeen(queue.Pushed(), queue.shared.Length, g.n, depth.Keys + front.members, depth'.Keys);
  }

  lemma MoreSeen(pushed: seq<nat>, capacity: nat, n: nat, seen: set<nat>, more: set<nat>)
    requires QueueOk(pushed, capacity, n, seen) && seen <= more <= Below(n)
    ensures QueueOk(pushed, capacity, n, more)
  {
  }

  /** An iteration that searches top-down. */
  method TopDownRound(g: Graph, ghost s: nat, ghost k: nat, ghost depth: map<nat, nat>,
                      parent: array<int>, queue: SlidingQueue, ghost front: set<nat>)
    returns (scoutCount: int, ghost depth': map<nat, nat>)
    requires WellFormed(g) && queue.Valid() && queue.outEnd == queue.sharedIn
    requires LoopInv(g, s, depth, parent[..], k, queue.Pushed(), queue.Window(), queue.shared.Length, front)
    modifies parent, queue, queue.shared
    ensures queue.Valid() && queue.outEnd == queue.sharedIn
    ensures LoopInv(g, s, depth', parent[..], k + 1, queue.Pushed(), queue.Window(), queue.shared.Length, front)
    ensures depth.Keys <= depth'.Keys && depth.Keys !! Level(depth', k + 1)
  {
    scoutCount, depth' := TDStep(g, s, k, depth, parent, queue);
    queue.SlideWindow();
  }

  /** The last loop: unvisited vertices end with parent -1. */
  method Tidy(parent: array<int>)
    modifies parent
    ensures forall v :: 0 <= v < parent.Length ==> parent[v] == if old(parent[v]) < -1 then -1 else old(parent[v])
  {
    for n := 0 to parent.Length
      invariant forall v :: 0 <= v < n ==> parent[v] == if old(parent[v]) < -1 then -1 else old(parent[v])
      invariant forall v :: n <= v < parent.Length ==> parent[v] == old(parent[v])
    {
      if parent[n] < -1 {
        parent[n] := -1;
      }
    }
  }

  /** The main loop: directions alternate as alpha and beta say until the frontier is empty. */
  method Search(g: Graph, source: nat, alpha: int, beta: int, numEdgesDirected: int, parent: array<int>, queue: SlidingQueue,
                front: Bitmap, curr: Bitmap)
    returns (ghost k: nat, ghost depth: map<nat, nat>)
    requires WellFormed(g) && source < g.n && alpha > 0 && beta > 0 && Maps(front, curr, g.n)
    requires queue.Valid() && queue.outEnd == queue.sharedIn
    requires LoopInv(g, source, map[source := 0], parent[..], 0, queue.Pushed(), queue.Window(), queue.shared.Length, front.members)
    modifies parent, queue, queue.shared, front, curr, front.words, curr.words
    ensures Reached(g, source, depth, parent[..], k) && EdgesDone(g, depth, k) && Level(depth, k) == {}
  {
    k, depth := 0, map[source := 0];
    var edgesToCheck := numEdgesDirected;
    var scoutCount: int := |g.outs[source]|;
    NewKeys(g, source, depth, parent[..], k);
    while queue.outStart != queue.outEnd
      invariant queue.Valid() && queue.outEnd == queue.sharedIn
      invariant Maps(front, curr, g.n) && {front.words, curr.words} == old({front.words, curr.words})
      invariant LoopInv(g, source, depth, parent[..], k, queue.Pushed(), queue.Window(), queue.shared.Length, front.members)
      invariant |depth| <= g.n
      decreases g.n - |depth|, if queue.outStart == queue.outEnd then 0 else 1
    {
      ghost var before := depth.Keys;
      var share := TruncDiv(edgesToCheck, alpha);
      if scoutCount > share {
        k, depth := BottomUpRound(g, beta, source, k, depth, parent, queue, front, curr);
        scoutCount := 1;
      } else {
        edgesToCheck := edgesToCheck - scoutCount;
        scoutCount, depth := TopDownRound(g, source, k, depth, parent, queue, front.members);
        k := k + 1;
      }
      NewKeys(g, source, depth, parent[..], k);
      Progress(before, depth, k, queue.Window());
    }
    assert queue.Window() == [];
  }

  lemma OneVertexQueue(pushed: seq<nat>, n: nat, source: nat)
    requires source < n && pushed == [source]
    ensures QueueOk(pushed, n, n, (map[source := 0]).Keys) && Elements(pushed) == {source}
  {
  }

  method StartQueue(n: nat, source: nat) returns (queue: SlidingQueue)
    requires source < n
    ensures fresh(queue) && fresh(queue.shared) && queue.Valid() && queue.outEnd == queue.sharedIn
    ensures Elements(queue.Window()) == {source}
    ensures QueueOk(queue.Pushed(), queue.shared.Length, n, (map[source := 0]).Keys)
  {
    queue := new SlidingQueue(n);
    queue.PushBack(source);
    queue.SlideWindow();
    OneVertexQueue(queue.Pushed(), n, source);
    assert queue.Window() == queue.Pushed();
  }

  /** DOBFS: for every alpha and beta, a breadth-first tree of everything reachable from source. */
  method DOBFS(g: Graph, source: nat, alpha: int, beta: int, numEdgesDirected: int) returns (parent: array<int>)
    requires WellFormed(g) && source < g.n && alpha > 0 && beta > 0
    ensures BfsTree(g, source, parent[..])
  {
    parent := InitParent(g);
    parent[source] := source;
    var queue := StartQueue(g.n, source);
    var curr := new Bitmap(g.n);
    var front := new Bitmap(g.n);
    SearchStart(g, source, parent[..]);
    ghost var k, depth := Search(g, source, alpha, beta, numEdgesDirected, parent, queue, front, curr);
    ghost var tree := parent[..];
    Tidy(parent);
    FinalTree(g, source, depth, tree, k, parent[..]);
  }

  lemma FinalTree(g: Graph, s: nat, depth: map<nat, nat>, tree: seq<int>, k: nat, tidy: seq<int>)
    requires Reached(g, s, depth, tree, k) && EdgesDone(g, depth, k) && Level(depth, k) == {}
    requires |tidy| == g.n && forall v :: 0 <= v < g.n ==> tidy[v] == if tree[v] < -1 then -1 else tree[v]
    ensures BfsTree(g, s, tidy)
  {
    forall x | x in depth
      ensures ClosedAt(g, depth, x) && DepthAt(g, s, depth, tidy, x) && x < g.n
    {
      assert ClaimedAt(g, s, depth, tree, k, x);
      assert depth[x] == k ==> x in Level(depth, k);
      assert DepthAt(g, s, depth, tree, x);
    }
    forall v: nat | v < g.n && v !in depth
      ensures tidy[v] == -1
    {
      assert UnseenAt(depth, tree, v);
    }
    DepthTreeIsBfsTree(g, s, depth, tidy);
  }

  /** An iteration gives some vertex a depth or empties the queue. */
  lemma Progress(before: set<nat>, depth: map<nat, nat>, k: nat, window: seq<nat>)
    requires before <= depth.Keys && Elements(window) == Level(depth, k)
    requires before !! Level(depth, k)
    ensures |depth| >= |before|
    ensures |depth| > |before| || window == []
  {
    SubsetSize(before, depth.Keys);
    if window != [] {
      assert window[0] in Elements(window);
      assert window[0] in Level(depth, k);
    }
  }
}
