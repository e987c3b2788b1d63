# Trident workloads: verified models

A Dafny model of the data structures and algorithms inside the workloads of this benchmark
suite, with proofs about them. `dafny verify dfyconfig.toml` checks the whole project.

The B+ tree (`BTree*.dfy`) is an arena of nodes with fixed-length key and pointer buffers,
parent pointers, a leaf chain and free lists. Next to the nodes the class keeps a ghost span
of keys and a level for every node, so that the invariant is a flat list of local conditions:
subtree i of an inner node lies between the separators around it, whether or not these are
still keys of the tree. An insertion that splits and a deletion that underflows are described
by the tree in which one node has a key too many or too few; the recursion upwards repairs it.

The concurrent kernels are step machines: any number of threads, one shared access a step, in
any order. `AtomicPtr.dfy` is the atomic pointer of canneal; `Afforest.dfy`, `Compression.dfy`
and `ShiloachVishkin.dfy` label connected components; `DeltaStep.dfy`, `DeltaCopy.dfy` and
`DeltaRuns.dfy` are delta-stepping shortest paths with its bins, votes, barriers and shared
frontier.

The other graph kernels are imperative: `Frontier.dfy` and `DirectionBFS.dfy` (direction-
optimizing search), `SerialBFS.dfy`, `TreeLevels.dfy` and `BfsCheck.dfy` (the two checkers of
breadth-first trees, proved against the same notion of such a tree as the kernel), `Dijkstra.dfy`
(the shortest-path oracle), `TriangleSets.dfy` and `TriangleCount.dfy`, `CsrBuilder.dfy` and
`CsrGraph.dfy` (the graph builder, whose result meets what the kernels ask of their input).

Jump-ahead and permutation arithmetic: `ModArith.dfy`, `MrgAlgebra.dfy` and `SplittableMrg.dfy`
(the splittable generator), `ShiftRegister.dfy`, `Period.dfy` and `RandomAccess.dfy`
(HPCC_starts, over 64-bit vectors, and that PERIOD is a period),
`BitStrings.dfy`, `BitReversal.dfy` and `Scramble.dfy` (the vertex scramble).

The dual solvers of liblinear, over the reals, share `Reals.dfy`, `SparseVectors.dfy` and
`Permutations.dfy`. For two classes `DualSVC.dfy` has the coordinate step, `DualSweep.dfy` the
sweep and `DualRuns.dfy` the run. For several classes `CrammerSinger.dfy` has the subproblem of
one example, `CrammerOrder.dfy` and `CrammerRow.dfy` its variables and one visit,
`CrammerWeights.dfy` the table of weights, `CrammerDual.dfy` the dual problem and
`CrammerRuns.dfy` the run. A run is stated as a chain: a ghost record of its
sweeps or passes in which each begins in the state where the one before ended, so that the
record determines every state of the run, from zero to the result.

Multiplication and reduction in `ModArith` and `Reals` are defined by characteristic properties
instead of by `*` and `%`, with lemmas that say they are the same; the proofs about sums of
products then use the ring laws only.

Where the code does not do what one might expect, the model follows the code:

- find_range returns nothing when the leaf that find_leaf locates for the start of the range has
  no key from there on, even if later leaves have (`BTree.RangeQueryCanMiss`); its contract
  says exactly when the answer is complete.
- A Swap of an AtomicPtr with itself never returns (`AtomicPtr.SelfSwapHangs`), a TrySwap of
  it with itself does; all calls of a run can return exactly if every Swap was given two
  different cells (`AtomicPtr.CompletionExactly`).
- Checkin is a plain store: the macro that would make it atomic is misspelt in the header
  (ENABLE_TRHEADS), which does no harm while the cell is checked out.
- DOBFS does not clear the bitmap `front` before it re-enters the bottom-up phase; the stale bits
  are harmless (`DirectionBFS.FrontEdge`).
- DeltaStep and its oracle both report a distance of kDistInf or more as kDistInf; the distances
  are stated with that cap.
- In the Crammer-Singer solver alpha changes even when the step is below 1e-12, while w then
  does not. `CrammerDual.CoupledExactly` says when w stays the sum of alpha x,
  `CrammerDual.TinyBoundParts` gives an input where it does not, and the contract of
  `CrammerRuns.Solve` bounds the difference over a run. The dual solver for two classes changes
  both or neither.
- In the dual solver for two classes QD is zero for an example without features under the L1
  loss; G/QD is then minus infinity and alpha goes to its bound (`DualSVC.FlatCoordinate`).

## Model

| member | source | states |
|---|---|---|
| `BTreeRuns.Run` | trident-workloads/btree/btree1.c:1039-1459 | for every order from 3 up and every sequence of insertions and deletions from the empty tree, the tree satisfies the whole B+ tree invariant and stands for exactly the map the operations describe |
| `BTreeRuns.LastWriteWins` | trident-workloads/btree/btree1.c:1039-1459 | that map, without folding: a key is bound if and only if some insertion of it is followed by no deletion and no other insertion, and to the value of that insertion |
| `BTree.BPlusTree.Insert` | trident-workloads/btree/btree1.c:1039-1092 | keeps the invariant and gives the old map with key bound to value, in all four cases: update in place, room in the leaf, leaf split, new tree |
| `BTree.BPlusTree.Delete` | trident-workloads/btree/btree1.c:1445-1459 | keeps the invariant and gives the old map without key, whether or not the key was there |
| `BTree.BPlusTree.Find` | trident-workloads/btree/btree1.c:597-625 | returns a record exactly for the keys of the map, the record with the stored value, and the leaf whose range contains the key |
| `BTree.BPlusTree.FindLeaf` | trident-workloads/btree/btree1.c:560-591 | the descent ends at the leaf whose span of keys contains the key, or at no leaf in the empty tree |
| `BTree.BPlusTree.FindRange` | trident-workloads/btree/btree1.c:534-552 | returns exactly the entries in [start, end] in key order if the leaf found for start has a key that is not below start, and nothing otherwise; the answer is the full one if and only if that condition holds or the range is empty |
| `BTree.BPlusTree.ScanLeaf` | trident-workloads/btree/btree1.c:543-547 | the inner loop over one leaf extends a complete answer up to the leaf to a complete answer up to the end of its span |
| `BTree.RangeQueryCanMiss` | trident-workloads/btree/btree1.c:534-552 | a valid tree and a range that contains a stored key for which find_range returns nothing |
| `BTree.Scanned` | trident-workloads/btree/btree1.c:542-550 | collecting the entries of a leaf between two positions is complete for the part of the range in its span |
| `BTree.BPlusTree.InsertIntoLeaf` | trident-workloads/btree/btree1.c:765-781 | an entry put into a leaf with room: same tree, index extended by the entry |
| `BTree.BPlusTree.InsertIntoLeafAfterSplitting` | trident-workloads/btree/btree1.c:789-853 | a full leaf is dealt to two leaves and the parent informed; the tree invariant holds again and the index gains the entry |
| `BTree.BPlusTree.InsertIntoParent` | trident-workloads/btree/btree1.c:961-995 | given a tree in which one node has a key too many and has been cut in two, ends in a valid tree with the same entries; the upward recursion terminates on the distance to the root |
| `BTree.BPlusTree.InsertIntoNode` | trident-workloads/btree/btree1.c:860-872 | the parent with room takes the separator and the right half |
| `BTree.BPlusTree.InsertIntoNodeAfterSplitting` | trident-workloads/btree/btree1.c:879-954 | a full parent is dealt to two nodes, its children adopted, and the separator passed on upwards |
| `BTree.BPlusTree.InsertIntoNewRoot` | trident-workloads/btree/btree1.c:1002-1013 | the tree grows by one level and keeps all entries |
| `BTree.BPlusTree.StartNewTree` | trident-workloads/btree/btree1.c:1020-1029 | the first entry makes a valid tree of one leaf |
| `BTree.BPlusTree.DeleteEntry` | trident-workloads/btree/btree1.c:1374-1439 | given the tree without the entry, in which one node may be a key short, ends in a valid tree with the same entries; the recursion through coalescing terminates |
| `BTree.BPlusTree.Rebalance` | trident-workloads/btree/btree1.c:1422-1438 | a node one key short is merged with a neighbour or takes an entry from it; afterwards every node has its minimum |
| `BTree.BPlusTree.AdjustRoot` | trident-workloads/btree/btree1.c:1163-1198 | an empty root gives way to its only child or to the empty tree |
| `BTree.BPlusTree.CoalesceNodes` | trident-workloads/btree/btree1.c:1207-1288 | the right node is emptied into the left one, the separator comes down, the leaf chain is relinked, and the parent loses an entry |
| `BTree.BPlusTree.RedistributeNodes` | trident-workloads/btree/btree1.c:1297-1366 | one entry moves between neighbours, over the separator in inner nodes; both stay within their sizes and all entries are kept |
| `BTree.BPlusTree.NeighborIndex` | trident-workloads/btree/btree1.c:1105-1123 | the position left of the node in its parent, or -1 for the leftmost |
| `BTree.BPlusTree.LeftIndex` | trident-workloads/btree/btree1.c:752-759 | the position of the left child in its parent |
| `BTreeNode.PutInLeaf` | trident-workloads/btree/btree1.c:765-781 | the shifting loop inserts the key at its sorted place with its record |
| `BTreeNode.PutInFullLeaf` | trident-workloads/btree/btree1.c:789-853 | the two leaves are the halves, at cut(order - 1), of the full leaf with the new entry, and the right one inherits the chain |
| `BTreeNode.PutInNode` | trident-workloads/btree/btree1.c:860-872 | keys and pointers shift to make room for the separator and right child |
| `BTreeNode.PutInFullNode` | trident-workloads/btree/btree1.c:879-954 | the two nodes are the halves of the overfull node around the key at cut(order) - 1, which is handed up and kept in neither |
| `BTreeNode.TakeOut` | trident-workloads/btree/btree1.c:1126-1160 | removes one key and its record or its right child and closes both gaps |
| `BTreeNode.AppendLeaf` | trident-workloads/btree/btree1.c:1274-1281 | the leaf holds its own entries followed by those of its right neighbour, with the chain link of the latter |
| `BTreeNode.AppendNode` | trident-workloads/btree/btree1.c:1235-1266 | the node holds its keys, the separator and the keys of its right neighbour, with all children in order |
| `BTreeNode.LeafFromLeft` | trident-workloads/btree/btree1.c:1308-1329 | the last entry of the left leaf becomes the first of the right one |
| `BTreeNode.LeafFromRight` | trident-workloads/btree/btree1.c:1337-1353 | the first entry of the right leaf becomes the last of the left one |
| `BTreeNode.NodeFromLeft` | trident-workloads/btree/btree1.c:1308-1322 | a child moves right over the separator |
| `BTreeNode.NodeFromRight` | trident-workloads/btree/btree1.c:1343-1356 | a child moves left over the separator |
| `BTreeBuffers.InsertionPoint` | trident-workloads/btree/btree1.c:770-772 | the first position whose key is not smaller |
| `BTreeBuffers.ShiftUp` | trident-workloads/btree/btree1.c:773-776 | opens a gap in the buffer and leaves the rest in order |
| `BTreeBuffers.ShiftDown` | trident-workloads/btree/btree1.c:1134-1144 | closes a gap in the buffer and leaves the rest in order |
| `BTreeStore.Alloc` | trident-workloads/btree/btree1.c:645-658 | hands out an address that is not in use, from the free list or from a new slab, and the free list stays consistent |
| `BTreeStore.ReleaseOk` | trident-workloads/btree/btree1.c:660-664 | a released address is free again, and the free list still holds no address twice and none in use |
| `BTreeShape.Cut` | trident-workloads/btree/btree1.c:630-635 | half, rounded up |
| `BTreeSplit.SplitShape` | trident-workloads/btree/btree1.c:789-995 | cutting any node of a tree in two and adding the right half to the parent keeps every structural invariant: order, spans, levels, parents, leaf chain |
| `BTreeMerge.MergeShape` | trident-workloads/btree/btree1.c:1207-1288 | merging two neighbours and dropping the separator keeps every structural invariant |
| `BTreeEdges.GrowShape` | trident-workloads/btree/btree1.c:1002-1013 | a new root above the old one keeps the structure |
| `BTreeEdges.ShrinkShape` | trident-workloads/btree/btree1.c:1163-1198 | dropping a root with one child keeps the structure |
| `BTreeContents.SplitKeepsEntries` | trident-workloads/btree/btree1.c:789-995 | a split moves entries and loses none |
| `BTreeContents.MergeKeepsEntries` | trident-workloads/btree/btree1.c:1207-1288 | a merge moves entries and loses none |
| `BTreeContents.PutAddsEntry` | trident-workloads/btree/btree1.c:765-781 | putting an entry into the right leaf binds exactly that key |
| `BTreeContents.CutDropsEntry` | trident-workloads/btree/btree1.c:1126-1160 | removing an entry from its leaf unbinds exactly that key |
| `BTreeContents.OneHome` | trident-workloads/btree/btree1.c:576-582 | a key is in no leaf but the one whose span contains it |
| `BTreeSteps.RecutStep` | trident-workloads/btree/btree1.c:1297-1366 | redistribution is a merge followed by a split at another place, so it keeps what both keep |
| `BTreeSteps.RedistributeStep` | trident-workloads/btree/btree1.c:1297-1366 | after redistribution both neighbours have between their minimum and their maximum of keys |
| `BTreeSteps.MergeStep` | trident-workloads/btree/btree1.c:1207-1288 | after coalescing every node but the parent is within its sizes, the parent has one key fewer, and all entries are kept |
| `BTreeTheory.EqualDepth` | trident-workloads/btree/btree1.c:201-211 | in every valid tree all leaves are at the same depth |
| `BTreeTheory.LeafChain` | trident-workloads/btree/btree1.c:841-842 | following the last pointer from the leftmost leaf visits exactly the leaves of the tree, left to right, with keys ascending throughout |
| `BTreeTheory.SeparatorsBound` | trident-workloads/btree/btree1.c:576-582 | subtree i of an inner node lies in [keys[i-1], keys[i]), also after deletions, when separators need not be live keys |
| `BTreeHeight.HalfFull` | trident-workloads/btree/btree1.c:199-205 | every node but the root has at least half of the keys or children it has room for, and none has more than it has room for |
| `BTreeHeight.HeightBound` | trident-workloads/btree/btree1.c:1401-1407 | a tree of height d > 0 has at least 2 floor(order / 2) ceil(order / 2)^(d - 1) entries, so that the height is logarithmic in their number |
| `BTreeTheory.CollectedUnique` | trident-workloads/btree/btree1.c:534-552 | the answer to a range query is determined by the map alone |
| `BTreeTheory.SortedRangeSize` | trident-workloads/btree/btree1.c:508-526 | a non-empty answer has at most end - start + 1 entries, the size of the buffers its caller passes |
| `AtomicPtr.StepInv` | trident-workloads/canneal/AtomicPtr.h:123-158 | every atomic step of any number of threads, each in a call of any kind, keeps mutual exclusion: a cell that is checked out has one holder, who has its value |
| `AtomicPtr.Exclusive` | trident-workloads/canneal/AtomicPtr.h:276-298 | two threads are never between Checkout and Checkin of the same cell, be it in a section or in a swap |
| `AtomicPtr.StepSimulates` | trident-workloads/canneal/AtomicPtr.h:177-298 | each step of the machine is invisible or one whole operation on an observer memory: a swap at the update of the higher-addressed cell, a Set at its compare-and-set, a Get at its load, a section at its Checkin |
| `AtomicPtr.RepresentsUnique` | trident-workloads/canneal/AtomicPtr.h:177-298 | that observer memory is determined by the state |
| `AtomicPtr.Linearizable` | trident-workloads/canneal/AtomicPtr.h:177-298 | in every run of every interleaving, memory is at all times what the operations performed so far, one after the other, would give |
| `AtomicPtr.LinearizableResults` | trident-workloads/canneal/AtomicPtr.h:177-223 | in every run a Get, Set or Checkout, and its Try form when it succeeds, returns the value the cell has at its place in that sequence of whole operations |
| `AtomicPtr.QuiescentCells` | trident-workloads/canneal/AtomicPtr.h:177-298 | when all calls have returned the cells hold the result of the whole operations |
| `AtomicPtr.OneEffectPerCall` | trident-workloads/canneal/AtomicPtr.h:177-298 | in every run a call that has returned took effect exactly once, unless it is of the Try kind and returned false; then it never took effect |
| `AtomicPtr.SucceedsAlone` | trident-workloads/canneal/AtomicPtr.h:177-298 | a call that runs alone on cells nobody else has checked out succeeds, also of the Try kind, and has done its operation |
| `AtomicPtr.TryNeverWaits` | trident-workloads/canneal/AtomicPtr.h:243-298 | whatever the other threads do, a Try call has returned after five steps of its own |
| `AtomicPtr.ConservedRun` | trident-workloads/canneal/AtomicPtr.h:177-298 | at every point of every run the values in cells and in the hands of threads are, as a multiset, those of the observer memory |
| `AtomicPtr.ValuesKept` | trident-workloads/canneal/AtomicPtr.h:226-298 | in runs of swaps, reads and sections that check in what they checked out, that multiset is the initial one |
| `AtomicPtr.Conserved` | trident-workloads/canneal/AtomicPtr.h:123-158 | no single step creates, loses or duplicates a value, beyond what its operation does to the observer memory |
| `AtomicPtr.NoWaitCycle` | trident-workloads/canneal/AtomicPtr.h:226-243 | threads in calls that can return never wait for each other in a circle: each holds a lower address than it waits for |
| `AtomicPtr.RunsAlone` | trident-workloads/canneal/AtomicPtr.h:177-298 | a thread that nothing obstructs returns in a run of its own steps that no other thread notices; a Try call is never obstructed, even on one cell |
| `AtomicPtr.AllCanComplete` | trident-workloads/canneal/AtomicPtr.h:177-298 | from every state of a run whose Swaps name two cells each, all pending calls can complete |
| `AtomicPtr.CompletionExactly` | trident-workloads/canneal/AtomicPtr.h:226-274 | at every point of every run: all calls can still return if and only if every Swap that is not a TrySwap was given two different cells |
| `AtomicPtr.SelfSwapHangs` | trident-workloads/canneal/AtomicPtr.h:226-243 | a Swap of a cell with itself never returns: from its first step on it stays, under every schedule, in the loops for its two cells |
| `AtomicPtr.OneSelfSwap` | trident-workloads/canneal/AtomicPtr.h:226-274 | at the start, with one cell: a Swap of it with itself can never return, a TrySwap of it with itself can |
| `Afforest.StepInv` | trident-workloads/gapbs/src/cc.cc:42-56 | every atomic step of every Link keeps a forest of decreasing parents inside the components, and what each thread has united stays united |
| `Afforest.RankDrops` | trident-workloads/gapbs/src/cc.cc:45-55 | every step brings a Link closer to its end, because each retry works on smaller vertices |
| `Afforest.LinkingTerminates` | trident-workloads/gapbs/src/cc.cc:105-112 | every schedule of the linking loops is finite |
| `Afforest.AfforestCorrect` | trident-workloads/gapbs/src/cc.cc:94-149 | for every number of rounds, every sampled label and every interleaving, each vertex ends with the least vertex of its undirected component |
| `Afforest.AfforestCompletes` | trident-workloads/gapbs/src/cc.cc:94-149 | every graph has a complete run, for any number of rounds and any sampled label |
| `Afforest.EdgeUnited` | trident-workloads/gapbs/src/cc.cc:118-145 | skipping the vertices labelled c loses no connection: every edge ends up inside one tree |
| `Compression.PressStepInv` | trident-workloads/gapbs/src/cc.cc:60-67 | every racing step of Compress keeps the root of every vertex |
| `Compression.CompressFlattens` | trident-workloads/gapbs/src/cc.cc:60-67 | under every interleaving Compress ends with every vertex pointing at its root |
| `Compression.CompressTerminates` | trident-workloads/gapbs/src/cc.cc:60-67 | every schedule of Compress is finite |
| `Components.AgreeingLabelsAreLeast` | trident-workloads/gapbs/src/cc.cc:94-149 | labels that stay inside components, never exceed their vertex, are their own labels and agree along edges are exactly the least vertices of the components |
| `ShiloachVishkin.StepInv` | trident-workloads/gapbs/src/cc_sv.cc:60-74 | every plain read and write of the hooking loop, lost updates included, keeps labels inside components and below their vertices |
| `ShiloachVishkin.RoundEffect` | trident-workloads/gapbs/src/cc_sv.cc:57-81 | a round that sets change loses at least one root; a round that does not leaves labels that agree along every edge |
| `ShiloachVishkin.ChangingRounds` | trident-workloads/gapbs/src/cc_sv.cc:57-81 | any sequence of rounds that all set change has at most n of them, since each loses a root |
| `ShiloachVishkin.HooksTerminate` | trident-workloads/gapbs/src/cc_sv.cc:60-74 | the hooking loop of a round ends under every schedule |
| `ShiloachVishkin.SVCorrect` | trident-workloads/gapbs/src/cc_sv.cc:50-84 | a run has at most n + 1 rounds and ends with labels that are equal exactly for connected vertices, namely the least vertex of the component |
| `ShiloachVishkin.SVCompletes` | trident-workloads/gapbs/src/cc_sv.cc:50-84 | every graph has a complete run |
| `DirectionBFS.DOBFS` | trident-workloads/gapbs/src/bfs.cc:122-173 | for every graph whose in-lists invert its out-lists and all positive alpha and beta, terminates with a parent one level closer on a shortest path for exactly the reachable vertices and -1 for the others |
| `DirectionBFS.TDStep` | trident-workloads/gapbs/src/bfs.cc:67-89 | whatever the order of the edges, claims exactly the next level, each vertex once, and queues it; scout_count is minus the sum of the entries replaced |
| `DirectionBFS.BUStep` | trident-workloads/gapbs/src/bfs.cc:46-64 | claims exactly the next level from a front that may hold stale earlier vertices, and counts it |
| `DirectionBFS.FrontEdge` | trident-workloads/gapbs/src/bfs.cc:54-58 | an unseen vertex with an edge from a vertex of the front has it from the newest level, so bits left over from an earlier bottom-up phase do no harm |
| `DirectionBFS.QueueToBitmap` | trident-workloads/gapbs/src/bfs.cc:92-98 | adds the window to the bitmap without clearing it |
| `DirectionBFS.BitmapToQueue` | trident-workloads/gapbs/src/bfs.cc:100-112 | the window becomes exactly the members of the bitmap, and no vertex is pushed twice, so the queue never exceeds num_nodes |
| `DirectionBFS.InitParent` | trident-workloads/gapbs/src/bfs.cc:114-120 | every entry is negative and remembers the out-degree |
| `DirectionBFS.BottomUp` | trident-workloads/gapbs/src/bfs.cc:147-155 | the do-while loop terminates, since each of its steps but the last claims a vertex |
| `Frontier.SlidingQueue.PushBack` | trident-workloads/gapbs/src/sliding_queue.h:44-46 | appends without changing the window |
| `Frontier.SlidingQueue.SlideWindow` | trident-workloads/gapbs/src/sliding_queue.h:58-61 | the window becomes what was pushed since the last slide |
| `Frontier.Bitmap.SetBit` | trident-workloads/gapbs/src/bitmap.h:39-49 | adds one position to the set the words stand for |
| `Frontier.Bitmap.GetBit` | trident-workloads/gapbs/src/bitmap.h:51-53 | membership in that set |
| `Frontier.ChunksOwnTheirWords` | trident-workloads/gapbs/src/bfs.cc:50-57 | chunks of 1024 vertices never share a bitmap word, so plain set_bit in the bottom-up loop does not race |
| `Frontier.RoomForOneMore` | trident-workloads/gapbs/src/bfs.cc:131 | a queue of distinct vertices that lacks one has room |
| `Graphs.DepthIsDistance` | trident-workloads/gapbs/src/bfs.cc:190-194 | depths with a parent one closer for every vertex and no edge that skips a depth are the distances, and exactly the reachable vertices have one |
| `SerialBFS.SerialDepths` | trident-workloads/gapbs/src/bfs.cc:197-210 | the serial search computes the distance of every reachable vertex and -1 for the others |
| `SerialBFS.BFSVerifier` | trident-workloads/gapbs/src/bfs.cc:195-241 | accepts a parent array if and only if it is a breadth-first tree of what the source reaches |
| `DeltaRuns.DeltaStepCorrect` | trident-workloads/gapbs/src/sssp.cc:55-131 | for every non-negative weighting, every delta from 1 up, any number of threads and every interleaving, the final labels are the shortest-path distances, or kDistInf where nothing shorter exists |
| `DeltaRuns.DeltaStepTerminates` | trident-workloads/gapbs/src/sssp.cc:69-126 | no run goes on for ever |
| `DeltaRuns.NeverStuck` | trident-workloads/gapbs/src/sssp.cc:108-125 | unless all threads are done some step is possible: the two barriers never block for good |
| `DeltaRuns.BinsInOrder` | trident-workloads/gapbs/src/sssp.cc:101-115 | the bins are processed in non-decreasing order |
| `DeltaRuns.NoOverflow` | trident-workloads/gapbs/src/sssp.cc:77-80 | with weights up to 2^62 neither dist[u] + w nor delta * curr_bin_index leaves the 64-bit range |
| `DeltaRuns.StepInv` | trident-workloads/gapbs/src/sssp.cc:69-126 | every step of every thread and both barriers keep the invariant |
| `DeltaRuns.StepDrops` | trident-workloads/gapbs/src/sssp.cc:69-126 | every step lowers a lexicographic measure of labels, waiting vertices and local work |
| `DeltaStep.RelaxStep` | trident-workloads/gapbs/src/sssp.cc:74-107 | between the barriers no edge is forgotten: it is settled, its source waits in the bin of its present label, or some thread still has it before it with that label |
| `DeltaStep.StepKnows` | trident-workloads/gapbs/src/sssp.cc:76-107 | what a thread has read stays usable while others lower labels: candidates are lengths of walks and never fall below the current bin |
| `DeltaStep.BinBound` | trident-workloads/gapbs/src/sssp.cc:77 | the test dist >= delta * bin compares bins |
| `DeltaCopy.CopyStep` | trident-workloads/gapbs/src/sssp.cc:109-124 | concurrent reservation and copying into the shared frontier lose no vertex and overwrite none, and the double buffers are cleared once |
| `DeltaCopy.VotesIn` | trident-workloads/gapbs/src/sssp.cc:101-108 | at the first barrier all remaining work is in the bins, none below the voted one |
| `DeltaCopy.CopiesIn` | trident-workloads/gapbs/src/sssp.cc:117-126 | at the second barrier the next frontier is complete and not empty, or all labels are final |
| `WeightedGraphs.SettledLabels` | trident-workloads/gapbs/src/sssp.cc:55-131 | labels that are lengths of walks and that no edge improves are the distances |
| `WeightedGraphs.DistancesUnique` | trident-workloads/gapbs/src/sssp.cc:163-171 | there is only one array of distances |
| `WeightedGraphs.InfinityIs` | trident-workloads/gapbs/src/sssp.cc:52 | a label is 2^62 - 1 if and only if no walk is shorter than that, and otherwise the length of a shortest walk |
| `Dijkstra.Oracle` | trident-workloads/gapbs/src/sssp.cc:142-162 | the serial oracle, with repeated queue entries and its test for stale ones, computes the distances |
| `Dijkstra.SSSPVerifier` | trident-workloads/gapbs/src/sssp.cc:142-172 | accepts an array if and only if it is the array of distances, hence every result of DeltaStep |
| `TriangleCount.OrderedCount` | trident-workloads/gapbs/src/tc.cc:47-66 | for every undirected, sorted graph without loops and repeated edges, the number of 3-cliques |
| `TriangleCount.Advance` | trident-workloads/gapbs/src/tc.cc:54-61 | the inner iterator finds w among the neighbours of u if it is there, and never passes the position of v |
| `TriangleCount.CommonNeighbours` | trident-workloads/gapbs/src/tc.cc:104-118 | the sum over all edges of the common neighbours of their ends is six times the number of 3-cliques |
| `TriangleCount.TCVerifier` | trident-workloads/gapbs/src/tc.cc:104-123 | accepts exactly the number of 3-cliques |
| `TriangleCount.Hybrid` | trident-workloads/gapbs/src/tc.cc:90-95 | with or without relabelling, the number of 3-cliques |
| `TriangleCount.RelabelByDegree` | trident-workloads/gapbs/src/builder.h:248-282 | the same graph under new names, with sorted lists, in which vertices of higher degree come first |
| `TriangleCount.NewIds` | trident-workloads/gapbs/src/builder.h:257-269 | new_ids is a permutation that orders vertices by decreasing degree |
| `TriangleCount.SetIntersection` | trident-workloads/gapbs/src/tc.cc:110-114 | the merge of two sorted lists is their intersection, sorted and without repetition |
| `TriangleSets.SixTimes` | trident-workloads/gapbs/src/tc.cc:31-36 | every triangle is six ordered triples of adjacent vertices |
| `TriangleSets.RenamedTriangles` | trident-workloads/gapbs/src/tc.cc:38-41 | renaming the vertices by a permutation does not change the number of triangles |
| `BfsCheck.VerifyBfsTree` | trident-workloads/graph500/verify.c:79-179 | for every parent array with entries from -1 to nv - 1 and every edge list, accepts if and only if no edge leads from the vertices up to max_bfsvtx to those above and the array is a breadth-first tree of the component of the root, and then returns the number of listed edges inside the tree; otherwise returns a negative code: -999 exactly if the root is not its own parent, -1 or -2 or a failed assertion exactly if some climb by parents goes round, leaves the tree or stops at another root, and else the code of the deciding edge, or of the first vertex not in order |
| `TreeLevels.ComputeLevels` | trident-workloads/graph500/verify.c:17-77 | returns the level of every vertex of the tree if every parent chain reaches the root, and an error or a failed assertion if and only if no levels exist; the error says what a climb by parents shows: a cycle, a chain off the end, or a vertex that is its own parent |
| `TreeLevels.RunUp` | trident-workloads/graph500/verify.c:36-45 | climbs to a levelled vertex, or gives up only when no levels exist: a cycle, a chain off the end or a vertex that is its own parent |
| `TreeLevels.AssignUp` | trident-workloads/graph500/verify.c:47-57 | counts down along the climbed chain; both assertions hold and every vertex on it gets one more than its parent |
| `TreeLevels.ClimbDistinct` | trident-workloads/graph500/verify.c:39-56 | a climb that reaches a levelled vertex visits none twice |
| `BfsCheck.CheckEdges` | trident-workloads/graph500/verify.c:117-157 | no error if and only if every listed edge has both ends or neither up to max_bfsvtx, both or neither in the tree, and levels that differ by at most one; then seen_edge marks exactly the tree edges listed; otherwise the code of the first error, overwritten by later edges across max_bfsvtx |
| `BfsCheck.CodeDecided` | trident-workloads/graph500/verify.c:117-157 | the code is that of the last edge across max_bfsvtx, or without one that of the first edge not in order, and lies between -14 and -10 |
| `BfsCheck.CheckParents` | trident-workloads/graph500/verify.c:159-172 | no error if and only if every tree edge was listed and only the root is its own parent; otherwise the code of the first vertex that fails |
| `BfsCheck.CheckedIsBfsTree` | trident-workloads/graph500/verify.c:132-170 | passing all checks makes every parent one step closer on a shortest path and the tree the whole component |
| `BfsCheck.BfsTreeIsChecked` | trident-workloads/graph500/verify.c:132-170 | every breadth-first tree of the component passes all checks |
| `SplittableMrg.Mrg.Skip` | trident-workloads/graph500/generator/splittable_mrg.c:186-201 | for every 192-bit exponent n the state becomes what n applications of mrg_orig_step give, with a table as dump_mrg_powers writes it |
| `SplittableMrg.Mrg.SkipWord` | trident-workloads/graph500/generator/splittable_mrg.c:189-192 | one 64-bit word of the exponent, byte by byte, at its weight |
| `SplittableMrg.DumpPowers` | trident-workloads/graph500/generator/splittable_mrg.c:213-256 | entry j of line i of the table skips j * 256^i steps, for all 24 * 256 entries |
| `SplittableMrg.Power` | trident-workloads/graph500/generator/splittable_mrg.c:101-109 | repeated squaring multiplies the number of steps by the exponent |
| `SplittableMrg.MultiplyApplies` | trident-workloads/graph500/generator/splittable_mrg.c:86-98 | in the arithmetic of the code, applying the product of two compressed matrices is applying one after the other |
| `SplittableMrg.MultiplyMatrices` | trident-workloads/graph500/generator/splittable_mrg.c:86-98 | the nested modular operations compute the compressed product, cache included |
| `SplittableMrg.MultiplyIs` | trident-workloads/graph500/generator/splittable_mrg.c:50-57 | the compressed product is the bottom row of the product matrix |
| `SplittableMrg.TransitionIs` | trident-workloads/graph500/generator/splittable_mrg.c:116-159 | applying the compressed form is multiplying by the full 5 x 5 matrix |
| `SplittableMrg.ApplyTransition` | trident-workloads/graph500/generator/splittable_mrg.c:148-157 | the five outputs, with the arithmetic of the 32-bit header |
| `SplittableMrg.CacheRows` | trident-workloads/graph500/generator/splittable_mrg.c:66-71 | the cached a, b, c and d complete the rows r A, r A^2, r A^3 and r A^4 |
| `SplittableMrg.UpdateCache` | trident-workloads/graph500/generator/splittable_mrg.c:66-71 | computes the cache |
| `SplittableMrg.MakeIdentity` | trident-workloads/graph500/generator/splittable_mrg.c:73-77 | a matrix that skips no step |
| `SplittableMrg.MakeA` | trident-workloads/graph500/generator/splittable_mrg.c:79-83 | a matrix that skips one step |
| `SplittableMrg.Mrg.GetUint` | trident-workloads/graph500/generator/splittable_mrg.c:267-270 | one step, and the new first element |
| `MrgAlgebra.ApplyStep` | trident-workloads/graph500/generator/splittable_mrg.c:25-49 | every matrix in compressed form commutes with A |
| `MrgAlgebra.ApplyProduct` | trident-workloads/graph500/generator/splittable_mrg.c:49-57 | the compressed form is closed under the product |
| `MrgAlgebra.FiveSteps` | trident-workloads/graph500/generator/splittable_mrg.c:28-33 | A satisfies its characteristic equation |
| `ModArith.Mac4of64` | trident-workloads/graph500/generator/mod_arith_64bit.h:59-70 | the sum of four products fits in 64 bits and is reduced exactly |
| `ModArith.Mac3of64` | trident-workloads/graph500/generator/mod_arith_64bit.h:48-57 | three products, exactly |
| `ModArith.Mac2of64` | trident-workloads/graph500/generator/mod_arith_64bit.h:39-46 | two products, exactly |
| `ModArith.Mac64` | trident-workloads/graph500/generator/mod_arith_64bit.h:32-37 | one product and a sum, exactly |
| `ModArith.Mul64` | trident-workloads/graph500/generator/mod_arith_64bit.h:26-30 | one product, exactly |
| `ModArith.Add64` | trident-workloads/graph500/generator/mod_arith_64bit.h:20-24 | one sum, exactly |
| `ModArith.MulX64` | trident-workloads/graph500/generator/mod_arith_64bit.h:77-79 | the multiple by x, equal to the 32-bit form |
| `ModArith.MulY64` | trident-workloads/graph500/generator/mod_arith_64bit.h:81-83 | the multiple by y, equal to the 32-bit form |
| `ModArith.MacY64` | trident-workloads/graph500/generator/mod_arith_64bit.h:85-87 | sum and multiple by y, equal to the 32-bit form |
| `ModArith.Add32` | trident-workloads/graph500/generator/mod_arith_32bit.h:20-31 | one conditional subtraction gives the residue, without 32-bit overflow |
| `ModArith.Mul32` | trident-workloads/graph500/generator/mod_arith_32bit.h:33-45 | adding the two halves of the product gives the residue |
| `ModArith.Mac32` | trident-workloads/graph500/generator/mod_arith_32bit.h:47-60 | the same for a product and a sum |
| `ModArith.Mac2of32` | trident-workloads/graph500/generator/mod_arith_32bit.h:62-69 | two products one after the other |
| `ModArith.Mac3of32` | trident-workloads/graph500/generator/mod_arith_32bit.h:71-80 | three products one after the other |
| `ModArith.Mac4of32` | trident-workloads/graph500/generator/mod_arith_32bit.h:82-93 | four products one after the other |
| `ModArith.MulX32` | trident-workloads/graph500/generator/mod_arith_32bit.h:110-118 | Schrage's method gives 107374182 a modulo 2^31 - 1 without leaving signed 32 bits |
| `ModArith.MulY32` | trident-workloads/graph500/generator/mod_arith_32bit.h:120-128 | Schrage's method gives 104480 a modulo 2^31 - 1 without leaving signed 32 bits |
| `ModArith.MacY32` | trident-workloads/graph500/generator/mod_arith_32bit.h:130-134 | a sum and the multiple by y |
| `ModArith.Fold` | trident-workloads/graph500/generator/mod_arith_32bit.h:41-43 | the low 31 bits plus the rest, with one subtraction, is the residue of any product the functions form |
| `RandomAccess.HPCCStarts` | trident-workloads/gups/gups.c:46-81 | for every n from 0 up the word after n steps of the shift register from 1, also where n is first reduced by PERIOD; for every negative n the word from which -n steps lead to 1 |
| `Period.PeriodReturns` | trident-workloads/gups/gups.c:43 | PERIOD steps lead from 1 back to 1, that is, x^PERIOD is 1 modulo the polynomial |
| `Period.SquaredSteps` | trident-workloads/gups/gups.c:42-54 | spreading the bits of the word after k steps and reducing gives the word after 2 k steps |
| `RandomAccess.Jump` | trident-workloads/gups/gups.c:57-80 | the same for the part after the reduction of n |
| `RandomAccess.Square` | trident-workloads/gups/gups.c:70-74 | adding up m2 at the bits of ran doubles the number of steps |
| `RandomAccess.FillSquares` | trident-workloads/gups/gups.c:57-62 | m2[j] is the word after 2 j steps |
| `RandomAccess.HighestBit` | trident-workloads/gups/gups.c:64-66 | finds the highest set bit of n |
| `RandomAccess.SelectSquares` | trident-workloads/gups/gups.c:70-74 | selection from m2 is squaring modulo the polynomial |
| `ShiftRegister.StepsLinear` | trident-workloads/gups/gups.c:60-61 | any number of steps is linear over exclusive or |
| `RandomAccess.Steps128` | trident-workloads/gups/gups.c:57-62 | the square of x^64 is x^4 + x^2 + 1: what makes the table correct past its end |
| `Scramble.ScrambleInjective` | trident-workloads/graph500/generator/graph_generator.c:130-140 | for lgN from 1 to 63 and all scramble values, different vertices below 2^lgN stay different |
| `Scramble.ScrambleOnto` | trident-workloads/graph500/generator/graph_generator.c:130-140 | every vertex below 2^lgN is the scrambled form of one: scramble is a bijection |
| `Scramble.ScrambledBound` | trident-workloads/graph500/generator/graph_generator.c:134-138 | the result is below 2^lgN, which both assertions check |
| `Scramble.ScrambledBit` | trident-workloads/graph500/generator/graph_generator.c:130-140 | the result bit by bit: sum, odd multiplier, reversal of the low bits, the other odd multiplier, reversal |
| `Scramble.ReverseWord` | trident-workloads/graph500/generator/graph_generator.c:130-138 | on a 64-bit word, the byte swap, masks and shifts followed by the shift by 64 - lgN give what the bijection is proved of |
| `BitReversal.BitReverse` | trident-workloads/graph500/generator/graph_generator.c:88-101 | the byte swap and the three lines of masks and shifts, on 64-bit words, put the bits in reverse order |
| `BitReversal.BitReverseByMasks` | trident-workloads/graph500/generator/graph_generator.c:94-101 | so do the six lines of masks and shifts |
| `BitReversal.ReversesWord` | trident-workloads/graph500/generator/graph_generator.c:83-101 | hence on words bitreverse is the reversal of the sequence of bits that the scramble is stated with |
| `BitReversal.ReverseValue` | trident-workloads/graph500/generator/graph_generator.c:83-101 | in numbers, bitreverse gives the value of the bits in reverse order |
| `BitReversal.FlippedIsReversed` | trident-workloads/graph500/generator/graph_generator.c:83-101 | flipping the six binary digits of every place, one by each line, is reversing the order of the places |
| `Scramble.TimesLow` | trident-workloads/graph500/generator/graph_generator.c:133-136 | multiplying by an odd number loses none of the low bits |
| `Scramble.MakeOneEdge` | trident-workloads/graph500/generator/graph_generator.c:142-167 | the edge joins the scrambled forms of the two vertices that the four-way choices spell, digit by digit; both are below 2^lgN, the source not after the target, and the edge is a loop exactly if they are equal |
| `Scramble.PlaceEdge` | trident-workloads/graph500/generator/graph_generator.c:145-163 | bit lgN - 1 - i of the source is choice i divided by 2 and that of the target the remainder, except where the choice is 2 and all earlier bits agree, where they are 0 and 1; the source is not after the target |
| `CrammerSinger.SolveSubProblem` | trident-workloads/liblinear/linear.cpp:656-679 | within their bounds the new values sum to 0, or to -C when the own class is shrunk at C, and satisfy the optimality condition with the sorted threshold beta |
| `CrammerSinger.OptimalIsBest` | trident-workloads/liblinear/linear.cpp:656-679 | that condition is enough: no other values within the bounds and with the same sum have a lower objective |
| `CrammerSinger.Threshold` | trident-workloads/liblinear/linear.cpp:666-669 | beta is such that exactly the values counted reach it and their excess over it is A C |
| `CrammerSinger.SortDown` | trident-workloads/liblinear/linear.cpp:647-664 | a permutation in descending order |
| `CrammerRuns.Solve` | trident-workloads/liblinear/linear.cpp:691-873 | every run, for any tolerance, iteration limit and random numbers, is a chain of passes from zero with everything active: each gives every example active at its start one turn, and hands its state, the examples that stayed, eps_shrink and start_from_all to the next as the rules say; rows and w end in the state after the last pass; every row keeps its invariant; the index is a permutation whose inactive part holds retired examples; w is the sum of the examples times the variables it has seen, which differ from alpha by at most 1e-12 per pass; if no step was lost, w is the sum of alpha x and the dual objective at most 0; it converged exactly if the last pass says stop |
| `CrammerRuns.Pass` | trident-workloads/liblinear/linear.cpp:747-845 | one pass: every example active at its start has exactly one turn, each turn as specified and between valid states, the examples that do not retire are afterwards the active part of the index in that order, and stopping is the largest spread of the turns |
| `CrammerRuns.PassStep` | trident-workloads/liblinear/linear.cpp:747-812 | one turn, with the Ai > 0 guard, and the retirement that swaps the last active example into its position and visits that next |
| `CrammerRuns.Advance` | trident-workloads/liblinear/linear.cpp:739-869 | one iteration extends the chain by one pass and applies the rule that stops, starts over from all classes and examples with a smaller eps_shrink, or goes on |
| `CrammerRuns.ConvergedMeans` | trident-workloads/liblinear/linear.cpp:853-856 | a run that stops by the rule ended with a pass from everything active, in which every example had a turn that found its optimality condition violated by at most eps (or 1e-12), unless it has no features or retired in that turn |
| `CrammerRuns.Rules` | trident-workloads/liblinear/linear.cpp:853-869 | in every run: a pass that is the first, or follows one with a spread below its eps_shrink, begins with every example and every class active; if its own spread is below eps the run ends there, converged; after a spread below eps_shrink the next pass starts from all with the larger of half of it and eps; after any other pass the next goes on with the examples and classes that stayed |
| `CrammerRuns.StaysActive` | trident-workloads/liblinear/linear.cpp:807-813 | after a pass that does not lead to a new start, an example that had its turn is active in the next pass if and only if it has no features or kept at least two classes |
| `CrammerRuns.EndRules` | trident-workloads/liblinear/linear.cpp:853-869 | a run has converged if and only if its last pass began with everything active and found a spread below eps |
| `CrammerRuns.EpsShrinkAbove` | trident-workloads/liblinear/linear.cpp:733-868 | eps_shrink begins at the larger of 10 eps and 1, never rises and never falls below eps |
| `CrammerRuns.StoppingIs` | trident-workloads/liblinear/linear.cpp:745-819 | the value tested against the tolerances is the largest spread of any turn of the pass |
| `CrammerRuns.FromAllMeans` | trident-workloads/liblinear/linear.cpp:855-868 | start_from_all is set only where every example and every class is active at the start of the pass |
| `CrammerRuns.NeverRises` | trident-workloads/liblinear/linear.cpp:739-869 | as long as no step has been lost, the dual objective has never risen, pass by pass, from 0 at the start |
| `CrammerRuns.VisitDrift` | trident-workloads/liblinear/linear.cpp:823-843 | a visit adds at most 1e-12 to the difference between alpha and what w has seen of it, for its own example only |
| `CrammerRuns.ResetAll` | trident-workloads/liblinear/linear.cpp:859-861 | all classes of all examples are active again, and nothing else changes |
| `CrammerDual.CoupledExactly` | trident-workloads/liblinear/linear.cpp:823-843 | after a visit to an example with a positive norm, w is still the sum of alpha x if and only if every variable that moved did so by 1e-12 or more |
| `CrammerDual.TinyBoundParts` | trident-workloads/liblinear/linear.cpp:822-843 | an input: with one example and C = 5e-13 the very first visit moves alpha and not w |
| `CrammerDual.MovedCouples` | trident-workloads/liblinear/linear.cpp:836-843 | moving the weights of each class by a step times the example follows variables that move by the same steps |
| `CrammerDual.VisitObjective` | trident-workloads/liblinear/linear.cpp:591-598 | a visit whose steps all reach w changes the dual objective by the sum over the classes of G d + A d^2 / 2 |
| `CrammerOrder.WrittenGains` | trident-workloads/liblinear/linear.cpp:819-834 | that sum is not positive when the active variables take the solution of their subproblem |
| `CrammerOrder.WrittenOk` | trident-workloads/liblinear/linear.cpp:824-834 | writing the solution back keeps bounds, shrunk variables, order and sum |
| `CrammerWeights.Gather` | trident-workloads/liblinear/linear.cpp:756-768 | G holds, in the order of the active classes, e_m plus the inner product of the weights of the class with the example |
| `CrammerWeights.Apply` | trident-workloads/liblinear/linear.cpp:836-843 | the weights of every class move by the step listed for it times the example |
| `CrammerRow.Row.Visit` | trident-workloads/liblinear/linear.cpp:750-843 | one visit, with gradients from w: the row keeps its invariant (order a permutation with alpha_index[y_index] the own class, every alpha within its bound, shrunk ones at it, sum zero); exactly the active classes that be_shrunk holds for leave; then it retires with alpha unchanged, or is violated by at most 1e-12 and unchanged, or is violated by exactly the spread and takes the solution of its subproblem; w moves by the steps that are not tiny; the dual objective for w as it stood does not rise |
| `CrammerRow.Row.Shrink` | trident-workloads/liblinear/linear.cpp:783-804 | the shrinking loop keeps that invariant, changes no alpha, keeps the gradients in step with the classes, and removes exactly the active classes at their bound with a gradient below minG |
| `CrammerRow.Row.Retire` | trident-workloads/liblinear/linear.cpp:785-803 | a shrunk variable leaves, together with all behind it that be_shrunk holds for, and a live one from the end takes its place |
| `CrammerRow.Row.BeShrunk` | trident-workloads/liblinear/linear.cpp:681-689 | true exactly if the variable is at its bound and its gradient below minG |
| `CrammerRow.Row.Update` | trident-workloads/liblinear/linear.cpp:819-834 | the active variables become the solution of their subproblem, the others keep their values, and the dual objective does not rise |
| `CrammerRow.Row.Measure` | trident-workloads/liblinear/linear.cpp:756-781 | the spread maxG - minG, where it exceeds 1e-12, is the exact violation of the optimality condition of the example |
| `CrammerRow.Row.WriteBack` | trident-workloads/liblinear/linear.cpp:823-834 | alpha takes the new values and the list for w holds exactly the steps of 1e-12 or more |
| `CrammerRow.Row.Reset` | trident-workloads/liblinear/linear.cpp:859-861 | all classes active again |
| `CrammerRow.Row.constructor` | trident-workloads/liblinear/linear.cpp:713-737 | all variables zero and the identity order satisfy the invariant |
| `CrammerRow.Row.MinMax` | trident-workloads/liblinear/linear.cpp:770-781 | minG is the least gradient of an active variable below its bound, INF exactly if there is none, and maxG the largest gradient of all active ones |
| `DualRuns.Solve` | trident-workloads/liblinear/linear.cpp:1006-1146 | every run, for any tolerance, iteration limit and random numbers, is a chain of sweeps from zero with everything active: each works block by block from the state it finds, looks at every example active at its start exactly once, and hands its state, its kept examples, its tolerance and its thresholds to the next as the rules say; the solver ends in the state of the last one, feasible, coupled and with objective at most 0, with every example outside the active set at a bound, and names the rule that ended the run |
| `DualRuns.AfterSweep` | trident-workloads/liblinear/linear.cpp:1106-1145 | the rules between sweeps: when to stop, when to reset the active set, and which thresholds are handed on, always positive or INF and negative or -INF |
| `DualRuns.Rules` | trident-workloads/liblinear/linear.cpp:1106-1145 | in every run: a sweep over all examples that moved none, with eps1 at most eps, or that found projected gradients within eps ends it; after any other sweep that moved none, or with a spread worth a reset, the next begins with everything active and no thresholds; otherwise it goes on with the examples kept and the extremes seen, where they are of the right sign |
| `DualRuns.EndsOnlyBy` | trident-workloads/liblinear/linear.cpp:1106-1130 | no other sweep ends a run |
| `DualRuns.EpsFalls` | trident-workloads/liblinear/linear.cpp:1015-1122 | eps1 stays between its least value and 0.1, never rises, and falls to a tenth or that value after a sweep that moved none or whose spread is at most eps1 |
| `DualRuns.DroppedIsPressed` | trident-workloads/liblinear/linear.cpp:1042-1062 | in every sweep of a run an example leaves the active set if and only if, in the state of its block, it is at a bound and its gradient points out of the bounds by more than the threshold |
| `DualRuns.NeverRises` | trident-workloads/liblinear/linear.cpp:1006-1146 | every sweep of a run begins and ends feasible and with w the sum of y_i alpha_i x_i, and the objective of the state it ends in is at most that of the state it began in, which is at most 0 |
| `DualRuns.SettledIsOptimal` | trident-workloads/liblinear/linear.cpp:1107-1110 | a run that stops because a sweep over all examples moved none ends in a state where every example has a projected gradient within 0.1 eps of zero or lies within 1e-15 of the value that is best for it alone |
| `DualRuns.NarrowSpread` | trident-workloads/liblinear/linear.cpp:1121-1127 | a run that stops because the spread is narrow has, in its last sweep, looked at every two examples and found projected gradients, each that of its moment, no more than eps apart |
| `DualRuns.ActiveOnce` | trident-workloads/liblinear/linear.cpp:1006-1146 | in every sweep of a run the active examples are distinct, and so are those kept |
| `DualRuns.QuietSweep` | trident-workloads/liblinear/linear.cpp:1018-1100 | a sweep without updates stays where it starts and none of the examples it chose would move |
| `Permutations.Shuffle` | trident-workloads/liblinear/linear.cpp:1013-1017 | whatever the random numbers, a permutation of the active examples |
| `DualSweep.Sweep` | trident-workloads/liblinear/linear.cpp:1018-1100 | one sweep is a chain of blocks from the state it finds to the state it leaves: each block looks at min(candidates_size, rest) examples, all in one state, and then updates those chosen one after the other; every example that was active is looked at exactly once, those kept are afterwards the active part of the index in that order, those dropped are at a bound; the number of updates, PGmax_new and PGmin_new are those of the chain |
| `DualSweep.SweepDescends` | trident-workloads/liblinear/linear.cpp:1018-1100 | every state of such a chain is feasible and coupled and has no higher objective than its start |
| `DualSweep.ExtremesAre` | trident-workloads/liblinear/linear.cpp:1063-1064 | those are the largest and smallest projected gradient of the examples kept, and infinite exactly if none was |
| `DualSweep.ScanBlock` | trident-workloads/liblinear/linear.cpp:1029-1071 | the block scan looks at its examples once each and decides on each by its gradient in the state of the block; those kept stand first, in order, those dropped are at a bound, and the working set is those with a large projected gradient |
| `DualSweep.Rotate` | trident-workloads/liblinear/linear.cpp:1048-1058 | the two- or three-way exchange is a permutation that moves one example behind the active part |
| `DualSweep.Decide` | trident-workloads/liblinear/linear.cpp:1042-1062 | an example is dropped if and only if it is at a bound and its gradient is beyond the threshold; it is then dropped with projected gradient zero, and else kept with its projected gradient |
| `DualSweep.NextCandidatesIs` | trident-workloads/liblinear/linear.cpp:1072-1076 | the size of the next block: half as many again, at most 4096, if none was chosen, and half as many if 256 or more were |
| `DualSweep.ProjectedIs` | trident-workloads/liblinear/linear.cpp:1033-1044 | the projected gradient is zero exactly where no step against the gradient, clamped to the bounds, moves the variable |
| `DualSweep.UpdateAll` | trident-workloads/liblinear/linear.cpp:1078-1098 | the state becomes that of the single updates one after the other, the count is the number of those that move their example, and the objective does not rise |
| `DualSweep.UpdatedAllOk` | trident-workloads/liblinear/linear.cpp:1078-1098 | such updates keep the coupling and feasibility, do not raise the objective and leave every other example alone |
| `DualSVC.Solver.UpdateOne` | trident-workloads/liblinear/linear.cpp:1080-1097 | one coordinate step, also where QD is zero, moves alpha_i to the value within its bounds that makes the dual objective least, and w along, if that is further than 1e-15, and changes nothing otherwise; it keeps w the sum of y_i alpha_i x_i and alpha feasible and does not raise the dual objective |
| `DualSVC.TargetIsBest` | trident-workloads/liblinear/linear.cpp:1085-1091 | no other value within the bounds gives a lower objective along the coordinate than the clamped Newton step |
| `DualSVC.UpdatedIsBest` | trident-workloads/liblinear/linear.cpp:1080-1097 | an update leaves the example at the best value of its coordinate, or where it was within 1e-15 of it, and no other example moved |
| `DualSVC.FlatCoordinate` | trident-workloads/liblinear/linear.cpp:1085-1090 | where QD is zero the gradient is -1 and the bound finite, so that the division by zero leads to the bound |
| `DualSVC.Solver.GradientOf` | trident-workloads/liblinear/linear.cpp:1025-1026 | y_i w x_i - 1 + alpha_i D_ii |
| `DualSVC.Solver.constructor` | trident-workloads/liblinear/linear.cpp:976-1004 | zero alpha and w satisfy the invariant, QD is the curvature and the objective 0 |
| `DualSVC.Training` | trident-workloads/liblinear/linear.cpp:965-986 | the labels, diagonal and bounds of both losses make a well-posed problem |
| `DualSVC.StepObjective` | trident-workloads/liblinear/linear.cpp:1085-1095 | the objective changes by G d + QD d^2 / 2 |
| `DualSVC.ClampedStep` | trident-workloads/liblinear/linear.cpp:1090-1091 | the clamped Newton step stays within the bounds and never raises that quadratic |
| `SparseVectors.Axpy` | trident-workloads/liblinear/linear.cpp:85-92 | adds the multiple of the sparse vector, for features in any order and repeated |
| `SparseVectors.AddedAt` | trident-workloads/liblinear/linear.cpp:85-92 | component by component, with repeated features added up |
| `SparseVectors.Dot` | trident-workloads/liblinear/linear.cpp:74-83 | the inner product, for features in any order and repeated |
| `SparseVectors.Nrm2Sq` | trident-workloads/liblinear/linear.cpp:63-72 | the squared norm |
| `SparseVectors.NormOfAdded` | trident-workloads/liblinear/linear.cpp:85-92 | |w + a x|^2 = |w|^2 + 2 a w x + a^2 |x|^2 |
| `CsrGraph.MakeGraph` | trident-workloads/gapbs/src/builder.h:205-244 | for every edge list and every order of the fetch_and_add steps, with the number of vertices given or found, lists that are strictly increasing, free of loops and set-equal to the input, in-lists the exact inverse of out-lists; if symmetrized, what the triangle kernel asks for |
| `CsrGraph.FindMaxNodeID` | trident-workloads/gapbs/src/builder.h:62-71 | the largest vertex of any edge, or 0 |
| `CsrBuilder.MakeCSR` | trident-workloads/gapbs/src/builder.h:188-203 | the row of every vertex holds exactly the multiset of the targets of its arcs, whatever the two orders |
| `CsrBuilder.CountDegrees` | trident-workloads/gapbs/src/builder.h:73-84 | the number of arcs of every vertex, in any order |
| `CsrBuilder.ParallelPrefixSum` | trident-workloads/gapbs/src/builder.h:98-130 | for every block size, the serial prefix sums |
| `CsrBuilder.PrefixSum` | trident-workloads/gapbs/src/builder.h:86-96 | the serial prefix sums |
| `CsrBuilder.FillRows` | trident-workloads/gapbs/src/builder.h:194-202 | each arc takes the next free slot of its source and no row is overwritten |
| `CsrBuilder.SlotFree` | trident-workloads/gapbs/src/builder.h:198-200 | the slot of an arc lies in the row of its source and in no other |
| `CsrGraph.SquishRow` | trident-workloads/gapbs/src/builder.h:147-150 | sort, unique and remove give the set of neighbours without the vertex itself, strictly increasing |
| `CsrGraph.SquishRows` | trident-workloads/gapbs/src/builder.h:134-151 | the same for every row |
| `CsrGraph.PackRows` | trident-workloads/gapbs/src/builder.h:152-162 | the squished rows lie one after the other in an array of exactly their total length, each where the index says |
| `CsrGraph.SymmetrizedSimple` | trident-workloads/gapbs/src/builder.h:165-179 | a symmetrized graph is undirected, sorted and without loops and repeated edges |

## Left out

- B+ tree nodes are values of a class field, an arena indexed by node number, and not heap objects: aliasing between node pointers is modelled by equal numbers, and malloc failure is not modelled.
- BTree.BPlusTree.FindRange: the buffers of the caller are sequences that grow; that they are large enough is the bound on the number of entries.
- print_*, find_and_print, height, path_to_root, destroy_tree, the verbose branches and the drand48 generator of btree1.c.
- AtomicPtr: the constructors and assignment operators, and the per-architecture atomics under canneal/atomic; a Section is a Checkout followed by one Checkin.
- Weak memory orderings of AtomicPtr and of the OpenMP kernels: every shared access is one sequentially consistent step, and a barrier ends a phase.
- QueueBuffer of sliding_queue.h: batching changes only the order in which vertices reach the queue, and the claims of TDStep and BitmapToQueue do not depend on the order of arrival.
- DirectionBFS.TDStep: threads appear as an arbitrary order of the edges, since a claim is one compare-and-swap; a failed compare-and-swap is an edge that comes later.
- Bitmap words are rows of 64 booleans; set_bit_atomic is one step.
- DeltaStep: the capacity of the frontier array, num_edges_directed entries, is assumed to suffice, and schedule(dynamic, 64) is any order of handing out frontier positions.
- Afforest: SampleFrequentElement is any label.
- BfsCheck.VerifyBfsTree: the OpenMP loops are taken in the order of one thread, which decides the error code; racing writes to level, which store equal values, are not modelled.
- TriangleCount.Hybrid: the outcome of WorthRelabelling is a parameter, and std::sort and std::set_intersection are an insertion sort and a merge.
- CsrBuilder.MakeCSR: a fetch_and_add and the store into the slot it returns are one step; the slots are disjoint, so delaying the store changes nothing.
- CsrGraph.MakeGraph: weights, and reading or generating the edge list.
- SplittableMrg.Mrg.Skip: the branch for the MTA architecture and mod_arith_xmt.h; the table is built by the model of dump_mrg_powers and not read from mrg_transitions.c.
- ModArith: masks and shifts by 31 bits are remainder and quotient by 2^31.
- RandomAccess.HPCCStarts: the update loop of the benchmark and its table.
- RandomAccess.Square: bit j of ran is read by shifting a copy of ran j times.
- Scramble: sums and products of 64-bit words are taken of their values and cut to 64 bits; generate_4way_bernoulli is any choice below four, and the 32-bit variants of bitreverse, which user_settings.h switches off, are not modelled.
- rand_int is any function from the number of the draw to the naturals, reduced modulo its argument; in the solvers w is a table with a column for each class.
- Rounding of floating-point numbers; doubles are reals and INF is a separate case.
- The other solvers of liblinear (logistic regression, TRON, regression), prediction and model files.
- PageRank, betweenness centrality, the other graph500 searches, XSBench, hash join, canneal's annealing, command lines, timers, signal files, NUMA and shared-memory harness code.
