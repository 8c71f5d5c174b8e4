# Verified model of the dv container library

This project models the three cores of a C library of containers and proves what they are
for:

- the **lock-free bounded queue**: any number of producers and consumers claim positions by
  compare-and-swap on two counters and hand cells over through per-cell sequence numbers;
- the **adjacency-list graph**: two slot pools with free lists threaded through reused
  fields, handles with generations, edge records that sit on two doubly linked lists at
  once, breadth-first and depth-first walks on graph-owned scratch, version-checked
  iterators, and a self-check;
- the **binary heap**: hole-carrying sift loops, bottom-up construction, updates and
  removals at an index, an externally kept index map, and bulk operations.

`dafny verify dfyconfig.toml` checks everything.

## How it is laid out

| files | what they hold |
|---|---|
| `Bits`, `Bitmap`, `Counting` | bit operations on naturals, the visited bitmap, counting distinct indices |
| `QueueMachine` | the queue as a transition system: one step per shared-memory access, any number of threads, spurious compare-and-swap failures, and an observer's record of the run |
| `QueueInvariant`, `QueueTheorems`, `QueueProgress` | the inductive invariant over all interleavings, what follows for whole runs, and when calls end |
| `QueueWords` | the same machine in wrapping word arithmetic, and its agreement with the unbounded one |
| `HeapOrder`, `HeapIndexMap`, `HeapBuild`, `HeapEffects` | sifts as functions on sequences: order, permutation, index map, work bound |
| `Heap` | the heap class over its buffer, each loop proved against those functions |
| `GraphPools`, `GraphShape`, `GraphStructure`, `GraphLinking`, `GraphSteps` | records, link surgery, and the structural invariant each step keeps |
| `GraphHandles`, `GraphHistory` | generations, what each slot has been through, and insertion order |
| `GraphModel`, `GraphLocate`, `GraphVersion`, `GraphEffects` | the plain multigraph the pools stand for, edge lookup, versions and phases, and the whole effect of each step |
| `GraphStorage` | the blocks behind the graph under an allocator that may refuse anything |
| `Graph`, `GraphBatches`, `GraphWalks`, `GraphIterators` | the graph class and its public operations |
| `GraphRuns` | whole runs: the handles they give out, and the edge a lookup goes on finding |
| `Traversal`, `GraphAdjacency`, `GraphBfs`, `GraphDfs` | walks over any adjacency, and the scratch-based loops that carry them out |
| `GraphCheck`, `GraphCheckExact`, `GraphHalting`, `GraphChecker`, `GraphSelfCheck` | the self-check, exactly which states it accepts and on which it ends |

Main results, in the system's own terms:

- Over every interleaving the queue is first-in first-out, loses and duplicates nothing, and
  only the current claimant touches a cell. A failed enqueue means exactly that the position
  one capacity earlier is still claimed, which is weaker than a full ring; the model holds a
  run that shows the difference. No call ends short for any other reason, and an undisturbed
  call gets on within six steps whatever others have left half done.
- The word-sized tests of the queue decide as unbounded counters would, across wrap, under
  an exact bound on how long a thread may sleep.
- Every operation of the graph keeps both families of lists, both free lists, the counts,
  the insertion order and the slot histories, and does to a plain multigraph of handles what
  its name says.
- On a directed graph the lookup finds the oldest edge whichever list it scans, and goes on
  finding it whatever is added; rejecting parallel edges really keeps pairs simple.
- Over every run without a reset no two adds return one handle, and a retired handle is
  rejected, until a slot has been retired 2^32 - 1 times.
- The breadth-first walk labels vertices with their distances; the depth-first walk with one
  resumed, tagged cursor per level visits what the recursive one visits, in its order;
  reachability is answered exactly.
- Bottom-up heap construction descends at most n minus the number of one bits of n levels.

## Where code and documentation disagree

The model follows the code.

- `graph/dv_graph.h:378-381` says the self-check establishes link symmetry. It does so for
  active neighbours, but the test at `graph/dv_graph.c:1591-1596` reads the successor link of
  whatever slot an edge names as its predecessor on an in-list, retired slots included, and
  retired slots keep that link. So the head of an in-list may name a retired slot as its
  predecessor and still pass. `GraphCheckExact.DeceptivePasses` gives such a state;
  `GraphCheckExact.PassesExactly` and `GraphCheckExact.WellFormedExactly` say exactly which
  states pass and which of those are well formed. No operation produces such a state
  (`GraphSelfCheck.SelfCheck` and the class invariant).
- `graph/dv_graph.h:288-291` says the edge removed between two vertices is the first in the
  source's out-list. That holds on a directed graph. On an undirected one the walk starts
  from the vertex of smaller degree. `GraphLocate.SourceFirstExactly` says exactly when the
  edge found is still that one, and `GraphLocate.CrossedFinds` gives a graph where it is not.
- `graph/dv_graph.c:1456-1457` and `graph/dv_graph.c:1519-1520` say that bounding the number
  of links followed rules out a cycle. The count is kept in 32 bits, so a bound of 2^32 - 1 is
  never passed. `GraphHalting.HaltsExactly` says exactly when such a loop ends,
  `GraphHalting.EndlessNeverEnds` gives a state on which it does not, and
  `GraphHalting.BoundedHalts` shows that with smaller bounds the self-check always ends. No
  operation produces such a state.

## Model

| member | source | states |
|---|---|---|
| `QueueInvariant.InitInv` | queue/dv_queue.c:41-47 | the initialized ring satisfies the invariant, for any number of threads |
| `QueueInvariant.QuietStep` | queue/dv_queue.c:58-63 | loading a counter or a sequence, failing, reloading, and a lost or spurious compare-and-swap keep the invariant |
| `QueueInvariant.EnqueueWin` | queue/dv_queue.c:64-67 | winning the head keeps the invariant: the claimed cell is free for that position, so the ring had room |
| `QueueInvariant.EnqueueStore` | queue/dv_queue.c:68-68 | the data store keeps the invariant: no other claim is on that cell |
| `QueueInvariant.EnqueuePublish` | queue/dv_queue.c:69-70 | publishing keeps the invariant: the cell becomes filled by its position and the claim ends |
| `QueueInvariant.DequeueWin` | queue/dv_queue.c:96-99 | winning the tail keeps the invariant: the cell was published for that position |
| `QueueInvariant.DequeueLoad` | queue/dv_queue.c:100-100 | the data load keeps the invariant and reads the value enqueued at that position |
| `QueueInvariant.DequeueRelease` | queue/dv_queue.c:101-103 | releasing keeps the invariant: the cell becomes free for the position one capacity later |
| `QueueInvariant.StepInv` | queue/dv_queue.c:52-162 | every step of every thread, spurious failures and size queries included, keeps the invariant |
| `QueueInvariant.RunInv` | queue/dv_queue.c:52-162 | the invariant holds after every schedule of every number of threads |
| `QueueTheorems.ExclusiveCells` | queue/dv_queue.c:60-111 | in every run at most one thread, through one position, is between claiming a cell and handing it over, so no two data accesses to a cell race |
| `QueueTheorems.RingShape` | queue/dv_queue.c:60-111 | in every run tail <= head <= tail + capacity, and each cell's sequence is p or p + 1 for a position p that the cell serves |
| `QueueTheorems.Fifo` | queue/dv_queue.c:52-112 | in every run each position yields the value enqueued there; once no consumer is between claiming and reading, the values taken, in tail order, are a prefix of the values put, in head order |
| `QueueTheorems.NothingLost` | queue/dv_queue.c:52-112 | a position put and not yet taken is being written by its producer or sits, published, in its cell |
| `QueueTheorems.RunAccounted` | queue/dv_queue.c:114-144 | in every run each call has put and taken just the values its progress says |
| `QueueTheorems.BulkOrder` | queue/dv_queue.c:114-144 | a finished bulk enqueue contributed exactly a prefix of its array, in order; a finished bulk dequeue returned exactly the values of the positions it won, in queue order |
| `QueueTheorems.EnqueueVerdict` | queue/dv_queue.c:61-77 | an enqueue fails if and only if its position is the head and the position one capacity earlier is claimed and not released; it reloads only if the head has moved on |
| `QueueTheorems.DequeueVerdict` | queue/dv_queue.c:92-110 | a dequeue fails if and only if its position is the tail and is not yet published; it reloads only if the tail has moved on |
| `QueueTheorems.EnqueueAlone` | queue/dv_queue.c:52-79 | with no claim outstanding, an enqueue fails exactly when the ring is full and otherwise appends its item and leaves no claim |
| `QueueTheorems.DequeueAlone` | queue/dv_queue.c:81-112 | with no claim outstanding, a dequeue fails exactly when the ring is empty and otherwise takes the oldest value |
| `QueueTheorems.FailsBelowCapacity` | queue/dv_queue.c:72-73 | a run in which an enqueue fails although fewer values are in the ring than its capacity: a consumer has claimed its position and not released the cell |
| `QueueTheorems.SizeEstimate` | queue/dv_queue.c:146-162 | the size estimate does not underflow, lies between the true size at the second load and the capacity, and is exact if the tail did not move |
| `QueueProgress.EnqueueStops` | queue/dv_queue.c:60-78 | a step ends an enqueue call short if and only if it finds the head's cell occupied one lap back: stale positions, lost and spuriously failed compare-and-swaps are retried, and the bulk loop goes on after each item |
| `QueueProgress.DequeueStops` | queue/dv_queue.c:91-111 | a step ends a dequeue call short if and only if it finds the tail unpublished |
| `QueueProgress.ShortCallsGaveUp` | queue/dv_queue.c:114-144 | in every run, a call that returned with fewer items than it was given met that condition at one of its own steps |
| `QueueProgress.CallsAsAsked` | queue/dv_queue.c:114-144 | in every run, each call works on the items, or the count, its thread asked for |
| `QueueProgress.EnqueueSettles` | queue/dv_queue.c:52-79 | from every reachable state, whatever others have left half done, an undisturbed enqueue is done with its item or gives up within six steps |
| `QueueProgress.DequeueSettles` | queue/dv_queue.c:81-112 | likewise an undisturbed dequeue |
| `QueueProgress.EnqueueCall` | queue/dv_queue.c:114-128 | with no claim outstanding, a bulk enqueue left alone puts in, in order, exactly as many items as there is room for |
| `QueueProgress.DequeueCall` | queue/dv_queue.c:130-144 | with no claim outstanding, a bulk dequeue left alone returns exactly the oldest values, as many as it wants and there are |
| `QueueProgress.SizeCall` | queue/dv_queue.c:146-162 | a size query left alone answers exactly |
| `QueueWords.AcceptedCapacities` | queue/dv_queue.c:6-10 | the accepted capacities are exactly the powers of two from 2 to a quarter of the word range |
| `QueueWords.ClassifyExact` | queue/dv_queue.c:64-77 | the unsigned three-way test agrees with the unbounded one if and only if a sequence ahead of the position is ahead, modulo the word range, by more than 0 and less than the range minus the capacity |
| `QueueWords.MaskFindsCell` | queue/dv_queue.c:61-61 | masking the wrapped position finds the cell of the unbounded one |
| `QueueWords.WordStepSimulates` | queue/dv_queue.c:52-162 | a step in word arithmetic is the unbounded step reduced modulo the word range, across counter wrap |
| `QueueWords.WordRunSimulates` | queue/dv_queue.c:52-162 | over every schedule in which no thread sleeps through a wrap, the words are the unbounded run reduced, with equal calls and results |
| `HeapOrder.FlippedOrder` | heap/dv_heap.c:225-233 | a max-heap's flipped comparison is a strict weak order when the given one is |
| `HeapOrder.RootFirst` | heap/dv_heap.c:251-300 | in heap order nothing precedes the root |
| `HeapOrder.SiftUpOrders` | heap/dv_heap.c:251-270 | carrying a hole up restores an order that fails only between the hole and its ancestors |
| `HeapOrder.SiftUpPermutes` | heap/dv_heap.c:251-270 | and moves every element, losing none and doubling none |
| `HeapOrder.SiftDownOrders` | heap/dv_heap.c:272-300 | carrying a hole down restores the order below a node whose subtrees are in order |
| `HeapOrder.SiftDownPermutes` | heap/dv_heap.c:272-300 | and keeps the multiset |
| `HeapIndexMap.SiftUpTracks` | heap/dv_heap.c:145-148 | with distinct elements, reports made while a hole rises leave the index map exact |
| `HeapIndexMap.SiftDownTracks` | heap/dv_heap.c:145-148 | likewise while a hole sinks |
| `HeapIndexMap.SweepTracks` | heap/dv_heap.c:150-156 | reporting every slot once makes the map exact whatever it held before |
| `HeapBuild.LevelsBounded` | heap/dv_heap.c:272-300 | a hole descends at most as many levels as its node is high |
| `HeapBuild.TotalHeightExact` | heap/dv_heap.c:677-699 | the node heights of a heap of n elements sum to n minus the number of one bits of n |
| `HeapBuild.HeapifyLinear` | heap/dv_heap.h:206-208 | the bottom-up pass orders any sequence, keeps its multiset, and its holes together descend at most n minus the one bits of n levels |
| `HeapBuild.SortedAgree` | heap/dv_heap.c:775-788 | two sorted arrangements of one multiset agree at every index up to equivalence |
| `HeapEffects.PushEffect` | heap/dv_heap.c:566-579 | appending and sifting up keeps the order, adds one element and keeps the map exact |
| `HeapEffects.PopEffect` | heap/dv_heap.c:581-600 | carrying the last element down from the root keeps the order, takes exactly the root and keeps the map exact |
| `HeapEffects.UpdateEffect` | heap/dv_heap.c:628-647 | one re-sift restores an order that may have failed only around the node |
| `HeapEffects.RemoveEffect` | heap/dv_heap.c:649-673 | backfilling a removed node keeps the order and takes exactly that element |
| `HeapEffects.PushEachEffect` | heap/dv_heap.c:753-772 | sifting an appended run up one by one keeps the order, adds exactly the run and keeps the map exact |
| `HeapModel.Heap.SiftUp` | heap/dv_heap.c:251-270 | the loop over the buffer is the functional sift, with its reports |
| `HeapModel.Heap.SiftDown` | heap/dv_heap.c:272-300 | the loop over the buffer is the functional sift, with its reports and its count of levels |
| `HeapModel.BytesFor` | heap/dv_heap.c:43-63 | overflow exactly if the slots, the scratch slot included, do not fit the word; else exactly their bytes |
| `HeapModel.NextCapacity` | heap/dv_heap.c:355-364 | the growth curve: a first jump, then half again rounded down, saturating |
| `HeapModel.Heap.GrowForPush` | heap/dv_heap.c:372-384 | grows to the next capacity on the curve up to the ceiling, with the exact status |
| `HeapModel.Heap.GrowForBulk` | heap/dv_heap.c:724-737 | grows to the larger of the need and the curve, up to the ceiling, falling back to the exact need |
| `HeapModel.Heap.MakeRoom` | heap/dv_heap.c:739-752 | how many elements fit: all that are asked for, or the room the ceiling leaves unless a request was refused or too big |
| `HeapModel.Heap.SetCapacity` | heap/dv_heap.c:304-353 | resizing keeps the contents; out of memory exactly if the allocator refused, and then nothing has changed |
| `HeapModel.Heap.Push` | heap/dv_heap.c:566-579 | adds exactly one element in order, or changes nothing; full, overflow and out of memory exactly when they apply, never while there is room |
| `HeapModel.Heap.Pop` | heap/dv_heap.c:581-600 | takes exactly the root, which nothing precedes, and keeps the order and the map |
| `HeapModel.Heap.Peek` | heap/dv_heap.c:602-610 | returns the root and changes nothing |
| `HeapModel.Heap.ReplaceTop` | heap/dv_heap.c:612-624 | exchanges exactly the root |
| `HeapModel.Heap.UpdateAt` | heap/dv_heap.c:628-647 | exchanges exactly the indexed element; restores the order also if the key there was already edited |
| `HeapModel.Heap.RemoveAt` | heap/dv_heap.c:649-673 | takes exactly the indexed element and keeps the order and the map |
| `HeapModel.Heap.SiftAllDown` | heap/dv_heap.c:682-690 | the bottom-up loop is the functional pass and counts the levels it descends |
| `HeapModel.Heap.NotifyAll` | heap/dv_heap.c:150-156 | reports every slot of the heap once |
| `HeapModel.Heap.Heapify` | heap/dv_heap.c:677-699 | orders any contents, keeps the multiset, makes the map exact after suppressed reporting, within the linear bound |
| `HeapModel.Heap.Reserve` | heap/dv_heap.c:542-553 | grows the capacity or leaves it, never the contents |
| `HeapModel.Heap.ShrinkToFit` | heap/dv_heap.c:555-562 | never drops contents |
| `HeapModel.Heap.Reset` | heap/dv_heap.c:518-524 | empties the heap |
| `HeapModel.Heap.Build` | heap/dv_heap.c:701-722 | replaces the contents by exactly the given elements, in heap order, or changes nothing; full, overflow and out of memory exactly when they apply |
| `HeapModel.Heap.PushBulk` | heap/dv_heap.c:739-773 | adds exactly a prefix of the array, as long as the room the ceiling leaves unless a request was refused or too big, never growing past the ceiling, by either strategy, in order and with an exact map |
| `HeapModel.Heap.PopBulk` | heap/dv_heap.c:775-788 | takes the requested number, each before all that are left, in priority order |
| `HeapModel.Heap.IsValid` | heap/dv_heap.c:811-826 | true exactly on ordered contents within the capacity |
| `HeapModel.DrainBoth` | heap/dv_heap.c:701-788 | two ordered heaps with the same elements, however built, drain to sorted sequences that agree up to equivalence |
| `HeapModel.Init` | heap/dv_heap.c:484-516 | the exact status of a configuration, and an empty heap of the initial capacity or none |
| `GraphShape.AppendOk` | graph/dv_graph.c:499-519 | appending behind the tail makes the list one edge longer and leaves every other list of that side well linked |
| `GraphShape.UnlinkOk` | graph/dv_graph.c:526-549 | joining an edge's neighbours takes exactly that edge off its list |
| `GraphSteps.LinkBoth` | graph/dv_graph.c:489-520 | linking puts an edge on the end of both its lists, self-loops included, and touches nothing else |
| `GraphSteps.UnlinkBothOk` | graph/dv_graph.c:522-550 | unlinking takes an edge off both its lists, self-loops included, and touches nothing else |
| `GraphSteps.AddVertexOk` | graph/dv_graph.c:429-447 | taking a vertex slot keeps the structure: lists hold exactly the live edges, every slot is live or free once, counts exact |
| `GraphSteps.AddEdgeOk` | graph/dv_graph.c:449-467 | taking and linking an edge slot keeps the structure |
| `GraphSteps.ReleaseOk` | graph/dv_graph.c:554-564 | releasing an edge keeps the structure and bumps its generation |
| `GraphSteps.RetireOk` | graph/dv_graph.c:813-818 | retiring an isolated vertex keeps the structure |
| `GraphSteps.ClearOk` | graph/dv_graph.c:643-680 | threading every slot on its free list in order is a well-formed empty graph |
| `GraphStructure.CountsExact` | graph/dv_graph.c:1102-1103 | the recorded counts are the numbers of live slots |
| `GraphHandles.BumpStep` | graph/dv_graph.c:400-403 | a slot's generation is one more than its retirements modulo 2^32 - 1; 0 is skipped |
| `GraphHandles.SameHandle` | graph/dv_graph.c:429-467 | two adds return one handle exactly if they took one slot, retired a multiple of 2^32 - 1 times in between |
| `GraphHandles.HandlesDistinct` | graph/dv_graph.c:429-467 | until some slot has been retired 2^32 - 1 times all handles given out differ |
| `GraphHandles.AcceptedExactly` | graph/dv_graph.c:471-485 | a handle is accepted exactly if its slot is live and was retired a multiple of 2^32 - 1 times since |
| `GraphHandles.LiveWasIssued` | graph/dv_graph.c:471-485 | an accepted handle was given out, and none carries generation 0 |
| `GraphHistory.AddVertexSound` | graph/dv_graph.c:760-786 | adding a vertex keeps structure, insertion order and slot histories |
| `GraphHistory.AddEdgeSound` | graph/dv_graph.c:897-913 | adding an edge keeps them: both its lists stay in order of insertion |
| `GraphHistory.ReleaseSound` | graph/dv_graph.c:554-564 | releasing an edge keeps them, and retires exactly that slot |
| `GraphHistory.RetireSound` | graph/dv_graph.c:813-818 | retiring a vertex keeps them, and retires exactly that slot |
| `GraphHistory.ClearSound` | graph/dv_graph.c:643-680 | clearing keeps them, and retires exactly the live slots |
| `GraphModel.ListExact` | graph/dv_graph.c:489-550 | each list holds exactly the live edges with that source or destination, and the recorded degree counts them |
| `GraphLocate.EitherList` | graph/dv_graph.c:846-862 | on a directed pair the first hit on the source's out-list and on the destination's in-list is the same edge |
| `GraphLocate.ScanFindsOldest` | graph/dv_graph.c:846-862 | the first hit on either list is the oldest live edge from a to b, and there is none only if there is no such edge |
| `GraphLocate.LocateEdge` | graph/dv_graph.c:840-882 | finds an edge if and only if one joins the pair; directed: the oldest, first on the source's out-list, whichever list is shorter; undirected: the first on the lists of the vertex of smaller degree |
| `GraphLocate.LocateJoining` | graph/dv_graph.c:864-881 | on an undirected graph, the first joining edge on the lists of the vertex that has fewer, if there is one |
| `GraphLocate.SourceFirstExactly` | graph/dv_graph.h:288-291 | on an undirected graph the edge found is the first on the source's out-list exactly if none joins the pair, or one leads that way and either the source's lists are scanned or none leads back |
| `GraphLocate.CrossedFinds` | graph/dv_graph.h:288-291 | a well-formed undirected graph on which the lookup finds another edge than the first on the source's out-list |
| `GraphVersion.PhaseHolds` | graph/dv_graph.c:368-392 | inside a phase the version stands, whatever is batched there, and dirt is recorded exactly if something changed |
| `GraphVersion.VersionCounts` | graph/dv_graph.c:368-392 | over every program the version steps once per outside mutation and once per batch or phase that changes anything |
| `GraphStorage.OutstandingExact` | graph/dv_graph.c:125-356 | the bytes outstanding are the sum of the recorded block sizes |
| `GraphStorage.NextCapacity` | graph/dv_graph.c:162-171 | the growth curve: a first jump, then half again rounded down, up to the capacity limit |
| `GraphStorage.Storage.ResizeBlock` | graph/dv_graph.c:125-160 | the block has exactly the new size, or the allocator refused and nothing has changed; resized in place where the hooks can; every free and realloc names the granted size |
| `GraphStorage.Storage.SetVertexCapacity` | graph/dv_graph.c:179-211 | the exact status for every request; a refusal changes nothing |
| `GraphStorage.Storage.SetEdgeCapacity` | graph/dv_graph.c:245-287 | weights cover the edge pool whichever request is refused |
| `GraphStorage.Storage.EnsureScratch` | graph/dv_graph.c:311-356 | sizes both blocks for the vertex capacity; no allocator call once they are large enough; accounts exact after a partial refusal |
| `GraphStorage.Storage.FreeScratch` | graph/dv_graph.c:291-306 | both scratch blocks go back with their exact sizes |
| `GraphStorage.Storage.Init` | graph/dv_graph.c:624-640 | the configured capacities and a fixed graph's scratch, or everything given back |
| `GraphStorage.Storage.Destroy` | graph/dv_graph.c:708-733 | nothing stays outstanding |
| `GraphStorage.Storage.GrowVertices` | graph/dv_graph.c:405-415 | full exactly if fixed or at the ceiling, without an allocator call; otherwise the next capacity on the curve, or a refusal that changes nothing |
| `GraphStorage.Storage.GrowEdges` | graph/dv_graph.c:417-427 | likewise for edges |
| `GraphStorage.Storage.ReserveVertices` | graph/dv_graph.c:1043-1056 | at least the capacity asked for, or the exact reason why not |
| `GraphStorage.Storage.ReserveEdges` | graph/dv_graph.c:1058-1071 | likewise for edges |
| `GraphStorage.Storage.ReserveTraversal` | graph/dv_graph.c:1073-1078 | scratch for a whole walk; never refused, and no call, on a fixed graph |
| `GraphStorage.Storage.ShrinkToFit` | graph/dv_graph.c:1080-1099 | back to the high-water marks, never below, unless the allocator refused; the scratch goes; a no-op on a fixed graph |
| `GraphStorage.Storage.ResetCapacity` | graph/dv_graph.c:697-703 | back to the configured capacities; no call on a fixed graph |
| `Graphs.Init` | graph/dv_graph.c:568-641 | the exact status of a configuration, and an empty valid graph so configured or none |
| `Graphs.Graph.Touch` | graph/dv_graph.c:368-373 | one step of the version outside a phase, dirt inside |
| `Graphs.Graph.BeginUpdate` | graph/dv_graph.c:737-744 | opens a phase, or refuses if one is open |
| `Graphs.Graph.CommitUpdate` | graph/dv_graph.c:746-756 | closes a phase and steps the version exactly if it changed something |
| `Graphs.Graph.LiveExactly` | graph/dv_graph.c:471-485 | a handle is accepted exactly if it names something in the multigraph |
| `Graphs.Graph.TakeVertex` | graph/dv_graph.c:429-447 | a recycled slot if there is one, else the next beyond the mark; refused only when the pool is full |
| `Graphs.Graph.AddVertex` | graph/dv_graph.c:760-786 | adds exactly one new handle to the multigraph and to the history, leaving insertion times alone, or changes nothing; refused only if the pool is full and cannot grow or the allocator refused |
| `Graphs.Graph.LinkSide` | graph/dv_graph.c:499-519 | the assignments on fields are the list append |
| `Graphs.Graph.LinkEdge` | graph/dv_graph.c:489-520 | the assignments on fields are the two appends |
| `Graphs.Graph.UnlinkSide` | graph/dv_graph.c:526-549 | the assignments on fields are the list removal |
| `Graphs.Graph.ReleaseEdge` | graph/dv_graph.c:552-564 | removes exactly one edge of the multigraph and retires exactly its slot |
| `Graphs.Graph.ReleaseList` | graph/dv_graph.c:799-811 | empties one list of a vertex, releasing exactly the edges on it |
| `Graphs.Graph.DetachVertex` | graph/dv_graph.c:797-811 | removes exactly the edges incident to the vertex and retires each of their slots once, self-loops included |
| `Graphs.Graph.RemoveVertex` | graph/dv_graph.c:788-821 | removes the vertex with exactly its incident edges, each released once; stale handles change nothing |
| `Graphs.Graph.Locate` | graph/dv_graph.c:840-882 | an edge if and only if one joins the pair; the oldest on a directed graph, the first on the lists of the vertex of smaller degree on an undirected one |
| `Graphs.Graph.TakeEdgeSlot` | graph/dv_graph.c:449-467 | a recycled slot if there is one, else the next beyond the mark; refused only when the pool is full |
| `Graphs.Graph.Admit` | graph/dv_graph.c:884-895 | stale, rejected loop and rejected parallel edge, each exactly when it applies, in that order |
| `Graphs.Graph.AddEdge` | graph/dv_graph.c:884-914 | adds exactly one new handle joining the pair, given out and dated later than every edge before it, or changes nothing, with the exact status |
| `Graphs.Graph.RemoveEdge` | graph/dv_graph.c:916-925 | removes exactly that edge; stale handles change nothing |
| `Graphs.Graph.FindEdge` | graph/dv_graph.c:955-971 | an edge between the pair if and only if there is one; the oldest on a directed graph, the first on the lists of the vertex of smaller degree on an undirected one |
| `Graphs.Graph.RemoveEdgeBetween` | graph/dv_graph.c:927-941 | removes exactly the one edge between the pair that a lookup finds, if there is one, and retires exactly its slot |
| `Graphs.Graph.Clear` | graph/dv_graph.c:643-680 | the empty multigraph; every live slot is retired, so no handle survives |
| `Graphs.Graph.Reset` | graph/dv_graph.c:682-706 | the empty multigraph with its history forgotten and, unless refused, its configured capacities; phases closed and the version stepped |
| `Graphs.Graph.ReserveVertices` | graph/dv_graph.c:1043-1056 | keeps the graph, whatever is refused, with the exact status |
| `Graphs.Graph.ReserveEdges` | graph/dv_graph.c:1058-1071 | keeps the graph, whatever is refused, with the exact status |
| `Graphs.Graph.ShrinkToFit` | graph/dv_graph.c:1080-1099 | keeps the graph, whatever is refused, with the exact status |
| `Graphs.JoinedExactly` | graph/dv_graph.c:837-882 | what is looked for is an edge of the multigraph on the pair, unordered if undirected |
| `Graphs.RulesHold` | graph/dv_graph.c:891-895 | no reachable graph that rejects parallel edges holds two edges on a pair, nor one that rejects self-loops a loop |
| `Graphs.DegreesExact` | graph/dv_graph.c:1021-1039 | recorded degrees count the edges of the multigraph out of, or into, the vertex |
| `Graphs.VertexHandleAccepted` | graph/dv_graph.c:471-477 | a vertex handle is accepted until its slot is retired, then rejected until 2^32 - 1 retirements |
| `Graphs.EdgeHandleAccepted` | graph/dv_graph.c:479-485 | likewise for edge handles |
| `Graphs.HandlesRepeatExactly` | graph/dv_graph.c:429-467 | adds since the last reset repeat a handle only on one slot, a multiple of 2^32 - 1 retirements apart |
| `GraphBatches.BatchBegin` | graph/dv_graph.c:377-381 | opens an implicit phase and reports whether one was open |
| `GraphBatches.BatchEnd` | graph/dv_graph.c:383-392 | closes only the phase it opened |
| `GraphBatches.ReserveForBulk` | graph/dv_graph.c:1104-1135 | no request if there is room or too much is asked; else the larger of the need and the curve, up to the ceiling, or the exact need once that was refused |
| `GraphBatches.AddVertices` | graph/dv_graph.c:1137-1156 | adds distinct new vertices, given out in order, under one step of the version; a fixed graph takes exactly as many as it has room for; fewer than asked only if the pool is full and cannot grow or was refused |
| `GraphBatches.AddEdges` | graph/dv_graph.c:1158-1179 | adds exactly the edges before the first that is not admitted or for which the pool cannot grow or was refused, given out and dated in order, under one step of the version; a fixed graph takes exactly as many as it has room for |
| `GraphRuns.Run` | graph/dv_graph.c:643-941 | any run without a reset: the log holds every handle it returned, in order, so until some slot has been retired 2^32 - 1 times no two are equal |
| `GraphRuns.RunHandleStale` | graph/dv_graph.c:471-477 | a vertex handle returned in a run is accepted exactly if its slot is live and was retired a multiple of 2^32 - 1 times since |
| `GraphRuns.RunEdgeHandleStale` | graph/dv_graph.c:479-485 | likewise for an edge handle returned in a run |
| `GraphRuns.EldestStays` | graph/dv_graph.c:499-519 | the eldest edge on a pair stays the eldest whatever edges are added |
| `GraphRuns.LookupStands` | graph/dv_graph.c:840-862 | on a directed graph a lookup goes on finding the same edge whatever edges are added after |
| `GraphRuns.FirstAddedIsFound` | graph/dv_graph.c:840-862 | on a directed graph the first edge added between a pair is the one found, whatever edges are added after it |
| `Bitmap.Mark` | graph/dv_graph.c:362-364 | sets exactly one vertex's bit |
| `Bitmap.Test` | graph/dv_graph.c:358-360 | reads exactly that vertex's bit |
| `GraphBfs.Bfs` | graph/dv_graph.c:1289-1344 | a breadth-first trace: every vertex once, labelled with its distance, in order of distance, nothing nearer left out, all reachable ones unless stopped; never more entries than live vertices |
| `GraphDfs.TagDecodes` | graph/dv_graph.c:1233-1263 | a tagged cursor decodes to its edge and list and is never the invalid index |
| `GraphDfs.FirstCursorIs` | graph/dv_graph.c:1233-1242 | the first cursor stands at the first edge in walking order |
| `GraphDfs.NextCursorIs` | graph/dv_graph.c:1244-1263 | the next cursor stands at the next edge: the rest of the out-list, then the in-list if undirected |
| `GraphDfs.Walk` | graph/dv_graph.c:1346-1395 | the trace of the recursive walk, or the prefix at which the visitor stopped, never as deep as there are live vertices, so the stack never exceeds them |
| `Traversal.StackPush` | graph/dv_graph.c:1363-1392 | descending into an unseen neighbour is the recursive call |
| `Traversal.StackSkip` | graph/dv_graph.c:1363-1392 | a seen neighbour is skipped as in the recursion |
| `Traversal.ProgressStep` | graph/dv_graph.c:1306-1341 | expanding the head of the queue keeps the breadth-first invariant |
| `Traversal.HeadDistance` | graph/dv_graph.c:1306-1341 | the depth at the head of the queue is the least number of hops |
| `GraphWalks.WaysExact` | graph/dv_graph.c:1313-1340 | walks go exactly along live edges: forward if directed, either way if not |
| `GraphWalks.Setup` | graph/dv_graph.c:1265-1281 | stale exactly if the start is not live, out of memory exactly if the allocator refused, which a fixed graph never meets |
| `GraphWalks.Bfs` | graph/dv_graph.c:1289-1344 | the breadth-first trace over the graph's own edges |
| `GraphWalks.Dfs` | graph/dv_graph.c:1346-1395 | the recursive depth-first trace over the graph's own edges, with a stack within the live vertices |
| `GraphWalks.SightedExactly` | graph/dv_graph.c:1397-1412 | a walk that stops at its target sights it exactly if it is reachable |
| `GraphWalks.ReachableExactly` | graph/dv_graph.c:1414-1429 | reachable in the pools exactly if a path of the multigraph leads there |
| `GraphWalks.CanReach` | graph/dv_graph.c:1414-1429 | true exactly if a path leads from one to the other, in both graph modes |
| `GraphIterators.EdgeIter.Begin` | graph/dv_graph.c:1183-1223 | a live vertex's out-list, in-list, or both are ahead; a stale handle yields an ended iterator |
| `GraphIterators.EdgeIter.Next` | graph/dv_graph.h:467-504 | yields exactly the next edge ahead with its ends and neighbour; ends once the version has moved |
| `GraphIterators.IncidentEdges` | graph/dv_graph.h:458-463 | a whole walk yields the out-list, then the in-list: as many as the degree |
| `GraphIterators.IncidentExactly` | graph/dv_graph.h:458-463 | an edge comes once for each end at the vertex, a self-loop twice; each list is in order of insertion |
| `GraphIterators.Survives` | graph/dv_graph.h:467-480 | an iterator outlives changes to its graph without being corrupted by them |
| `GraphIterators.ChangeEnds` | graph/dv_graph.h:467-480 | a change outside a phase, or the commit of one that changed something, ends it |
| `GraphIterators.VertexIter.Next` | graph/dv_graph.h:517-542 | the next live vertex in slot order, none skipped, until the version moves |
| `GraphIterators.AllVertices` | graph/dv_graph.h:506-542 | a whole walk yields each live vertex once, in slot order |
| `GraphCheckExact.PassesExactly` | graph/dv_graph.c:1487-1624 | the self-check accepts exactly the pools that are well formed once in-list links back to retired slots are cut, if those slots point back |
| `GraphCheckExact.WellFormedExactly` | graph/dv_graph.c:1487-1624 | pools are well formed exactly if they pass and no in-list link back names a retired slot |
| `GraphCheckExact.DeceptivePasses` | graph/dv_graph.c:1591-1596 | pools that pass although an in-list head names a retired slot as its predecessor |
| `GraphChecker.IsValid` | graph/dv_graph.c:1487-1624 | returns true exactly on the states characterized above, for all 32-bit capacities; ends whenever every loop it reaches does |
| `GraphHalting.HaltsExactly` | graph/dv_graph.c:1466-1481 | a loop of the self-check ends exactly if its bound is below 2^32 - 1 or its chain leaves the slots that belong on it |
| `GraphHalting.BoundedHalts` | graph/dv_graph.c:1519-1544 | if no degree and no high-water mark is 2^32 - 1 every loop ends, cyclic lists included |
| `GraphHalting.EndlessNeverEnds` | graph/dv_graph.c:1519-1530 | a state with links in range on which the first walk never ends: a recorded degree of 2^32 - 1 over an edge that links to itself |
| `GraphSelfCheck.SelfCheck` | graph/dv_graph.c:1487-1624 | passes on every graph its operations can bring about |

## Left out

- C11 memory orders, cache-line padding and the spin hint: interleavings are sequentially consistent.
- The allocation half of queue set-up and tear-down (`queue/dv_queue.c:12-36` and `164-169`), and what a failed single dequeue writes to its output (a null pointer).
- Null-pointer arguments everywhere; handles, capacities and indices are given as values.
- Default allocator hooks, alignment, and byte counts that overflow: the graph's allocator is an oracle that may refuse any request and keeps the old block when it does; the heap's may refuse any resize.
- Byte strides, element copies, key decoding and indirect keys of the heap: elements are values of a type with a strict weak order. NaN keys, for which the library promises nothing, are thereby excluded.
- Edge weights: the block that holds them is accounted for, its values are not modelled.
- Visitors that change the graph during a walk: a visitor here decides from what it has been shown whether to go on.
- Iterators advanced inside an update phase that has already changed something: the version is deliberately not stepped there.
- Handles carried across a reset: generations start over, and the library excludes their use.
- Wrap-around of the 64-bit version and of the 64-bit call counters.
- Plain accessors (slot to handle, endpoints, degrees of a handle, counts, weights): they would only add easy members.
- The stack, and the wrappers that take one lock per call: no protocol of their own.
- Status strings, benchmarks, soak tests and unit tests.
- QueueWords.WordRunSimulates: assumes that no thread sleeps while the counters advance by a whole word range; QueueWords.ClassifyExact says exactly when the test itself would then differ.
- Graphs.Graph.Reset: forgets the history of every slot, as the code does, so nothing is claimed about handles from before it.
- GraphWalks.Bfs: the scratch is a fresh array of the recorded size with arbitrary contents, not the block kept between walks.
- GraphChecker.IsValid: says nothing of a state on which it does not end; GraphHalting.HaltsExactly says which loops do not.
- GraphLocate.LocateEdge: says which edge is found, not how many links are followed to find it; the shorter list is a matter of cost.
