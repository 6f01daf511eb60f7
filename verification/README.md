# Verified models of the systems exercises

The repository is a collection of self-contained C and C++ programs: allocators, lock-free queues and stacks, a mutex that refuses to deadlock, a page cache, hash tables, an LRU cache, a pipeline, a matrix multiply and a text scan. This project models the programs whose correctness rests on an argument that no single run shows, and proves that argument for all inputs, all runs or all interleavings.

Sequential programs are classes and methods with the source's fields, loops and branches, proved against a mathematical description of the state. Concurrent programs are step systems: one step per atomic access (or per locking, waiting, signalling and unlocking action), any number of threads, any interleaving; their theorems are about every reachable state or every run.

| file | what it models |
|---|---|
| `BuddyTiling`, `BuddyInvariant`, `BuddyAllocator`, `BuddyStress` | the buddy allocator (Day 9): blocks as a tiling, headers and lists in memory, the operations, the stress test |
| `TreiberStack`, `TreiberReclaim`, `TreiberProgress` | the Treiber stack with tagged head and hazard pointers (Day 33), the reclamation of its nodes, and what its threads achieve |
| `Digraph`, `LockGraph`, `DeadlockProtocol`, `DeadlockDriver` | the deadlock-avoiding mutex (Day 40): cycles, the depth-first detector over the matrix, the locking protocol, the critical sections as its steps |
| `MpmcQueue`, `MpmcProgress` | the Vyukov bounded queue and its stress test (Day 11): safety, and what its threads achieve |
| `Paging`, `PageChain`, `BufferPool` | the page cache and the on-disk free list (Day 25) |
| `SymbolTable` | the open-addressing hash table (Day 24) |
| `FreeList`, `FreeListAllocator` | the address-ordered free-list allocator (Day 23) |
| `LruCache` | the LRU cache (Day 30) |
| `Pipeline` | the three-stage pipeline over condition-variable queues (Day 38) |
| `SpscRing` | the single-producer single-consumer ring with wrapping indices (Day 22) |
| `MatMul` | the three loop orders of matrix multiplication (Day 4) |
| `Grep` | the non-overlapping substring scan (Day 8) |
| `Bits`, `Sums`, `Lists`, `Wrappers` | powers of two, bit operations and ring arithmetic; sums over threads; sequences; options |

Three things that the programs set out to do fail for some inputs, and the project proves exactly for which. `log2_ceil` shifts a 64-bit one until it reaches its argument, so it stops exactly for arguments up to 2^63 (`Log2CeilStopsIff`). The text scan steps over the rest of each match without looking for newlines in it, so its line numbers are right for every text exactly when the target has no newline (`NumbersRightIff`). The free-list allocator's double-free detection looks for the block on the free list, so it notices a second free exactly when the block begins the pool or follows a live block (`FoundOnListIff`). Otherwise the block's address lies inside a block, a free one that it was merged into or one handed out since; the free goes through and leaves a free block on the list that begins inside a live block or inside another free one (`Free`, `DoubleFreeTest`).

## Model

| member | source | states |
|---|---|---|
| BuddyInvariant.Log2Ceil | Phase-1/Day9/C/buddy_alloc.c:27-35 | the loop returns the least order whose blocks hold the size |
| BuddyInvariant.Log2CeilStopsIff | Phase-1/Day9/C/buddy_alloc.c:27-35 | on 64-bit words the loop stops if and only if the size is at most 2^63 |
| BuddyAllocator.Buddy.ListAdd | Phase-1/Day9/C/buddy_alloc.c:37-44 | the node is the new first element of the doubly linked list of its order; every other list, order and free mark is untouched |
| BuddyAllocator.Buddy.ListRemove | Phase-1/Day9/C/buddy_alloc.c:46-55 | exactly the node leaves its list, wherever in the list it is |
| BuddyAllocator.Buddy.constructor | Phase-1/Day9/C/buddy_alloc.c:57-80 | a pool with arbitrary contents, of a power-of-two size, becomes one free root block satisfying the invariant |
| BuddyInvariant.RootFitsIff | Phase-1/Day9/C/buddy_alloc.c:62-77 | the root block that initialization makes lies inside the pool if and only if the pool's size is a power of two |
| BuddyAllocator.Buddy.Alloc | Phase-1/Day9/C/buddy_alloc.c:82-121 | NULL if and only if no naturally aligned window, of any order from the minimum on that holds the size and a header, is wholly free; otherwise an aligned block of the least such order (the minimum, or twice the largest size that is too small) that overlapped nothing live joins the live blocks, and nothing else changes for clients; the invariant (tiling, alignment, lists hold exactly the free blocks of their order, no free buddies) is kept |
| BuddyAllocator.Buddy.Free | Phase-1/Day9/C/buddy_alloc.c:123-153 | exactly the freed block leaves the live blocks, and the coalescing loop restores the invariant, including that no two buddies of one order are both free |
| BuddyAllocator.Buddy.SplitOnce | Phase-1/Day9/C/buddy_alloc.c:107-117 | one round of the split loop halves the detached block, lists its upper half and keeps the invariant around it |
| BuddyAllocator.Buddy.JoinOnce | Phase-1/Day9/C/buddy_alloc.c:131-150 | one round of the coalescing loop takes the buddy off its list and yields a free block of the next order; nothing live changes |
| BuddyAllocator.Buddy.BuddyFacts | Phase-1/Day9/C/buddy_alloc.c:131-140 | the header that coalescing inspects at the XOR address belongs to a current block of no larger order, and is on the list of its order when it is free and of equal order |
| BuddyAllocator.Buddy.ClientWrite | Phase-1/Day9/C/buddy_alloc.c:190 | a client may write anything into its block's payload without breaking the allocator |
| BuddyTiling.BuddyIsBlock | Phase-1/Day9/C/buddy_alloc.c:131-140 | in any tiling the buddy address of a block is itself the start of a block, no larger |
| BuddyTiling.SplitFacts | Phase-1/Day9/C/buddy_alloc.c:107-117 | splitting keeps the tiling and the live blocks, and the upper half is at the XOR address |
| BuddyTiling.JoinFacts | Phase-1/Day9/C/buddy_alloc.c:142-149 | joining free buddies keeps the tiling and the live blocks |
| BuddyTiling.FreeWindowInOneBlock | Phase-1/Day9/C/buddy_alloc.c:93-102 | when no two buddies are free, a wholly free aligned window lies inside one free block |
| BuddyAllocator.FreeWindowIffFreeBlock | Phase-1/Day9/C/buddy_alloc.c:96-102 | so searching the lists for a block of sufficient order is complete |
| BuddyAllocator.RequestOrderIsLeast | Phase-1/Day9/C/buddy_alloc.c:83-87 | the order computed for a request is the least one, from the minimum on, whose blocks hold the size and a header |
| BuddyAllocator.RoomIff | Phase-1/Day9/C/buddy_alloc.c:83-102 | no larger window is free either when none of the least order is: searching for that order loses nothing |
| BuddyTiling.CanonicalIsUnique | Phase-1/Day9/C/buddy_alloc.c:131-152 | two canonical tilings with the same live blocks are equal: the order of the calls leaves no trace in the free space |
| BuddyTiling.NothingLiveIsRoot | Phase-1/Day9/C/buddy_alloc.c:201-207 | with nothing live only the root block remains |
| BuddyStress.StressTest | Phase-1/Day9/C/buddy_alloc.c:164-210 | for every sequence of rounds, every round frees or fills its slot, leaving it empty only when the pool has no free window for the request, and in the slots before and after each round no two allocations in use overlap; freeing all leaves one root block on the top list and every other list empty |
| BuddyStress.FreeAll | Phase-1/Day9/C/buddy_alloc.c:197-199 | freeing every slot leaves nothing live |
| TreiberStack.StepInv | Phase-2/Day33/C/TrieberStack.c:102-299 | every atomic access of every thread, with weak compare-and-swaps failing at will and addresses reused, keeps the invariant |
| TreiberStack.NoFault | Phase-2/Day33/C/TrieberStack.c:102-143 | in no run does a thread read or write a node that is not allocated, or free one that it has not popped or that is not on the retire list; that a node read or freed is not a recycled one is FreeIsSafe |
| TreiberStack.FreeIsSafe | Phase-2/Day33/C/TrieberStack.c:114-143 | a node about to be freed is allocated, was popped, is not linked in the stack, and is not the node any thread may still dereference |
| TreiberStack.LinkingUnique | Phase-2/Day33/C/TrieberStack.c:147-157 | the abstract stack is a function of memory |
| TreiberStack.StepRefines | Phase-2/Day33/C/TrieberStack.c:162-236 | each successful compare-and-swap is exactly one push of the producer's value or one pop of the top value, despite reused addresses, and every other step leaves the stack of values unchanged |
| TreiberStack.TopIsRead | Phase-2/Day33/C/TrieberStack.c:219-231 | when the pop's compare-and-swap finds pointer and tag unchanged, the `next` it read is still the top node's link |
| TreiberStack.EmptyAfterExit | Phase-2/Day33/C/TrieberStack.c:275-295 | once a consumer has left its loop the stack is empty, no producer is active and no step changes the head |
| TreiberStack.AllConsumed | Phase-2/Day33/C/TrieberStack.c:255-299 | when all threads are done, the number consumed equals the number pushed equals producers times messages |
| TreiberReclaim.RunReclaims | Phase-2/Day33/C/TrieberStack.c:102-143 | in every run each allocated node has one keeper, each retired node still has a last sweep coming that will visit it, and each published hazard belongs to a consumer that has not begun its last sweep |
| TreiberReclaim.NoNodeIsDropped | Phase-2/Day33/C/TrieberStack.c:114-143 | every allocated node is a producer's, on the stack, in the hands of the consumer that popped it or on the retire list: a popped node is freed or retired, never dropped |
| TreiberReclaim.KeptForAnother | Phase-2/Day33/C/TrieberStack.c:132-141 | a last sweep keeps a node only if a consumer that still has its own last sweep to do publishes it |
| TreiberReclaim.NothingLeaks | Phase-2/Day33/C/TrieberStack.c:128-143 | when all threads are done every node has been freed |
| TreiberProgress.NullIffEmpty | Phase-2/Day33/C/TrieberStack.c:201-206 | the pop that loads the head goes on to return NULL if and only if the stack of values is empty at that moment |
| TreiberProgress.PopGoesOn | Phase-2/Day33/C/TrieberStack.c:208-236 | from its hazard on a pop goes on, starts over or holds a node; it does not return NULL |
| TreiberProgress.PopAlone | Phase-2/Day33/C/TrieberStack.c:197-236 | a consumer that loads the head of a nonempty stack and runs alone takes the top value |
| TreiberProgress.FreesAlone | Phase-2/Day33/C/TrieberStack.c:114-118 | a popped node that no hazard slot holds is freed by its consumer at once, running alone |
| TreiberProgress.PushesMessage | Phase-2/Day33/C/TrieberStack.c:255-266 | in every run a successful push puts the number of the producer's message on top of the stack |
| TreiberProgress.FinishConsumer | Phase-2/Day33/C/TrieberStack.c:269-299 | once production has ended, a consumer that the retire lock does not hold up pops what is left and exits, running alone |
| TreiberProgress.EveryRunCanFinish | Phase-2/Day33/C/TrieberStack.c:255-299 | from every state of every run some continuation finishes all threads |
| LockGraph.Graph.Dfs | Phase-2/Day40/C/DeadlockDetection.c:55-70 | the recursion ends for every matrix; true means there is a cycle, false that everything reachable is finished without one |
| LockGraph.Graph.DetectCycle | Phase-2/Day40/C/DeadlockDetection.c:72-82 | returns true if and only if the graph on the first `node_count` nodes has a cycle |
| LockGraph.Graph.GetOrCreateNode | Phase-2/Day40/C/DeadlockDetection.c:38-53 | the index of the node with that id and type, added at the end when missing; fails exactly when it is missing and the table is full; the edges stay |
| LockGraph.Graph.Request | Phase-2/Day40/C/DeadlockDetection.c:102-114 | the request edge stays if and only if it closes no cycle; otherwise it is withdrawn and the call denied |
| LockGraph.Graph.Record | Phase-2/Day40/C/DeadlockDetection.c:118-121 | the request edge becomes the holding edge; all other edges and the node table stay |
| LockGraph.Graph.Erase | Phase-2/Day40/C/DeadlockDetection.c:131-135 | the holding edge goes, all else equal |
| LockGraph.SameCycles | Phase-2/Day40/C/DeadlockDetection.c:55-82 | the matrix has a cycle if and only if the graph of named threads and mutexes has one |
| Digraph.BackwardHasNoCycle | Phase-2/Day40/C/DeadlockDetection.c:68-81 | a graph whose finished nodes only point back in finishing order has no cycle |
| DeadlockProtocol.NextInv | Phase-2/Day40/C/DeadlockDetection.c:99-136 | every step keeps the graph acyclic and in exact agreement with where each thread is, through the windows between the native call and the graph update |
| DeadlockProtocol.RunIsSafe | Phase-2/Day40/C/DeadlockDetection.c:99-136 | over every run and interleaving there is no circular wait among real lock holders |
| DeadlockProtocol.DenialIsExact | Phase-2/Day40/C/DeadlockDetection.c:106-114 | a request is denied if and only if it would complete a circular wait among threads really waiting and mutexes really held |
| DeadlockProtocol.NoDeadlockedThreads | Phase-2/Day40/C/DeadlockDetection.c:99-136 | no nonempty set of threads ever waits only for itself |
| DeadlockProtocol.SomeoneCanMove | Phase-2/Day40/C/DeadlockDetection.c:116-136 | while a thread waits, some thread can take a step that is not a new request |
| DeadlockDriver.Locker.RequestSection | Phase-2/Day40/C/DeadlockDetection.c:102-114 | the first critical section is exactly the protocol's granted or denied request |
| DeadlockDriver.Locker.RecordSection | Phase-2/Day40/C/DeadlockDetection.c:118-121 | the second critical section is exactly the protocol's recording step |
| DeadlockDriver.Locker.EraseSection | Phase-2/Day40/C/DeadlockDetection.c:131-135 | the critical section of the unlock is exactly the protocol's erasing step, and the node table is never full there |
| MpmcQueue.ReachableInv | Phase-1/Day11/C/MPMC.c:33-79 | every state of every interleaving, whatever values are pushed, satisfies the queue's invariant |
| MpmcQueue.SingleOwner | Phase-1/Day11/C/MPMC.c:43-74 | between claim and publication no two threads may touch the data of one slot |
| MpmcQueue.NeverOverfull | Phase-1/Day11/C/MPMC.c:33-79 | in every reachable state tail minus head is within 0 and the capacity |
| MpmcQueue.PopReturnsPushed | Phase-1/Day11/C/MPMC.c:57-79 | the pop that claimed a position returns the value pushed there |
| MpmcQueue.ReceivedIsPushed | Phase-1/Day11/C/MPMC_test.c:99-128 | when all threads finish with equal totals, the multiset of received values is the multiset of pushed values |
| MpmcQueue.ExactlyOnce | Phase-1/Day11/C/MPMC_test.c:99-128 | so when the values are all different, each pushed value was received exactly once and no other value at all |
| MpmcQueue.NeverOutOfRangeOrDuplicate | Phase-1/Day11/C/MPMC_test.c:117-122 | the consumers' assertions hold in every interleaving |
| MpmcQueue.StressTestPasses | Phase-1/Day11/C/MPMC_test.c:156-159 | the final check `received[i] == 1` holds for all items after every complete run |
| MpmcProgress.PushGivesUpIff | Phase-1/Day11/C/MPMC.c:37-52 | a push that reads its slot's sequence gives up if and only if its position is the tail and the ring is full or the slot's last consumer is still reading it |
| MpmcProgress.PopGivesUpIff | Phase-1/Day11/C/MPMC.c:61-76 | a pop that reads its slot's sequence gives up if and only if its position is the head and the ring is empty or the head is claimed but not yet published |
| MpmcProgress.PushAlone | Phase-1/Day11/C/MPMC.c:33-55 | a producer running alone while the tail's slot is free publishes its value at the tail |
| MpmcProgress.PopAlone | Phase-1/Day11/C/MPMC.c:57-79 | a consumer running alone while the head is published receives the value pushed there |
| MpmcProgress.EveryRunCanFinish | Phase-1/Day11/C/MPMC_test.c:99-154 | with equal totals, every state of every run has a continuation that finishes all threads |
| Paging.FlushKeeps | Phase-1/Day25/C/src/pager.c:80-88 | writing back changes no page's content and leaves the page clean and equal to the file |
| Paging.EvictKeeps | Phase-1/Day25/C/src/pager.c:90-102 | eviction changes no page's content, and frees exactly the victim's frame |
| Paging.EvictKeepsIff | Phase-1/Day25/C/src/pager.c:90-102 | without the rule that writers unpin dirty, eviction keeps all contents if and only if the page is dirty or agrees with the file |
| Paging.FetchKeeps | Phase-1/Day25/C++/src/BufferPoolManager.cpp:31-73 | a fetch changes no page's content whatever it evicts, and leaves the page uncached if and only if there is no frame for it, changing nothing then |
| Paging.FetchPins | Phase-1/Day25/C++/src/BufferPoolManager.cpp:31-73 | the fetched page holds its current content and one more pin, and is dirty if and only if it was cached and dirty; every other page keeps frame, bytes, pins and dirty bit, except one victim that was not pinned |
| Paging.FetchDirty | Phase-1/Day25/C++/src/BufferPoolManager.cpp:44-73 | a fetch dirties no page and cleans only the one it evicts; evicting a clean page leaves the file as it was |
| Paging.FetchStamps | Phase-1/Day25/C++/include/BufferPoolManager.hpp:47-58 | the recency list stays in the order of last fetches |
| Paging.VictimIsOldest | Phase-1/Day25/C++/src/BufferPoolManager.cpp:46-56 | the victim exists whenever an unpinned page is cached, and its last fetch is the furthest back of all unpinned pages |
| Paging.RoomToFetch | Phase-1/Day25/C++/src/BufferPoolManager.cpp:40-58 | a fetch succeeds whenever the pinned pages and the page itself fit in the cache together |
| PageChain.PutGetI32 | Phase-1/Day25/C++/src/BufferPoolManager.cpp:113-115 | a 32-bit signed word written into a page reads back, and other words are untouched |
| PageChain.ChainSurvives | Phase-1/Day25/C/src/pager.c:171-214 | the chain of freed pages depends on contents only, so eviction and reading back keep it |
| PageChain.PopChain | Phase-1/Day25/C++/src/BufferPoolManager.cpp:110-118 | moving the head to the first page's link takes exactly that page off the chain, and it was not allocated |
| PageChain.GrowFile | Phase-1/Day25/C++/src/BufferPoolManager.cpp:119-121 | counting up the total adds exactly one allocated page that was in use nowhere |
| PageChain.PushChain | Phase-1/Day25/C++/src/BufferPoolManager.cpp:127-141 | a freed page that links to the old head and becomes the head is the first of an acyclic chain of distinct ids below the total |
| BufferPool.BufferPoolManager.constructor | Phase-1/Day25/C++/src/BufferPoolManager.cpp:3-22 | an empty file gets a header with no pages, whose bytes are given one by one; another file is represented as it is, with its chain |
| BufferPool.BufferPoolManager.FindVictim | Phase-1/Day25/C++/src/BufferPoolManager.cpp:46-56 | the scan from the back finds the last unpinned entry of the recency list |
| BufferPool.BufferPoolManager.FlushPage | Phase-1/Day25/C++/src/BufferPoolManager.cpp:84-97 | exactly a dirty cached page is written, once, and counts as clean afterwards |
| BufferPool.BufferPoolManager.FetchPage | Phase-1/Day25/C++/src/BufferPoolManager.cpp:31-73 | the page's current content in a pinned frame; fails if and only if it is not cached, no frame is free and all are pinned; pinned pages stay in their frames; the dirty pages are exactly those that some unpin since their last write reported so, and the file is written, once, exactly when the evicted page is one of them |
| BufferPool.BufferPoolManager.UnpinPage | Phase-1/Day25/C++/src/BufferPoolManager.cpp:75-82 | one pin less and the dirty bit raised if asked, no content changes; the pool stays coherent if and only if the last holder of a page that differs from the file reports it dirty |
| BufferPool.BufferPoolManager.ReadAll | Phase-1/Day25/C++/src/main.cpp:64-74 | fetching any pages and unpinning them clean writes only pages that were dirty before, each at most once, however many pages are evicted |
| BufferPool.BufferPoolManager.FlushAllPages | Phase-1/Day25/C++/src/BufferPoolManager.cpp:99-103 | afterwards the file holds the content of every unpinned page, for one write per dirty page, and a file left without pins can be opened again with its chain |
| BufferPool.BufferPoolManager.AllocPage | Phase-1/Day25/C++/src/BufferPoolManager.cpp:105-125 | returns the page freed last, or a new one at the end; never an id still allocated; adds exactly it to the allocated pages; all contents but the header's and all pins are as before |
| BufferPool.BufferPoolManager.FreePage | Phase-1/Day25/C++/src/BufferPoolManager.cpp:127-141 | exactly the page leaves the allocated pages and becomes the first of the chain; all its bytes but the link are zero; the header page cannot be freed |
| BufferPool.BufferPoolManager.ReuseTest | Phase-1/Day25/C/src/main.c:39-55 | a freed page is the next one handed out |
| SymbolTable.NextProbe | Phase-1/Day24/C++/LookUpTable.cpp:61-62 | masking the index plus one walks the circle of slots once and comes back to the start |
| SymbolTable.FillSlot | Phase-1/Day24/C++/LookUpTable.cpp:97-109 | filling the empty slot or an earlier tombstone of a probe path adds exactly the key, duplicates none and cuts no other key's path |
| SymbolTable.DeleteSlot | Phase-1/Day24/C++/LookUpTable.cpp:151-157 | a tombstone removes exactly its key and cuts no other key's path |
| SymbolTable.EmptyOnCircle | Phase-1/Day24/C++/LookUpTable.cpp:61-62 | a probe that goes full circle without an empty slot means occupied plus deleted slots equal the capacity |
| SymbolTable.AbsentAtEmpty | Phase-1/Day24/C++/LookUpTable.cpp:131-137 | a probe that reaches an empty slot without meeting the key proves that the table does not hold it |
| SymbolTable.MoveStep | Phase-1/Day24/C++/LookUpTable.cpp:69-73 | one round of rehashing extends the moved part of the map by exactly one slot |
| SymbolTable.SymbolTable.InsertRaw | Phase-1/Day24/C++/LookUpTable.cpp:45-64 | a new key goes into a table without tombstones |
| SymbolTable.SymbolTable.Resize | Phase-1/Day24/C++/LookUpTable.cpp:66-77 | the same map in twice the slots, without tombstones, with the same count |
| SymbolTable.SymbolTable.Insert | Phase-1/Day24/C++/LookUpTable.cpp:83-123 | for any hash function the key is mapped to the value and nothing else changes; it never fails; the table doubles exactly when the load would exceed 0.7; both counters stay exact and an empty slot remains; without doubling no key moves and a new key takes the first slot on its way that holds none, reusing the first tombstone |
| SymbolTable.SymbolTable.Lookup | Phase-1/Day24/C++/LookUpTable.cpp:125-139 | the value if and only if the map has the key |
| SymbolTable.SymbolTable.Remove | Phase-1/Day24/C++/LookUpTable.cpp:141-161 | exactly the key goes; true if and only if it was there |
| SymbolTable.SymbolTable.Size | Phase-1/Day24/C++/LookUpTable.cpp:163 | the count is the number of keys of the map |
| FreeList.AlignUpIsLeast | Phase-1/Day23/C/freelist.c:28-34 | rounding gives the least multiple of the alignment that is no smaller |
| FreeList.FitsIffWindow | Phase-1/Day23/C/freelist.c:69-124 | when no two free blocks touch, some listed block is large enough if and only if some stretch between live blocks has room for a header and the bytes |
| FreeList.SplitFacts | Phase-1/Day23/C/freelist.c:82-104 | cutting a free block keeps the tiling and the order, and makes exactly the front part live |
| FreeList.MergeFacts | Phase-1/Day23/C/freelist.c:167-187 | merging two touching free blocks keeps the tiling, the list and the live blocks |
| FreeList.NothingLive | Phase-1/Day23/C/freelist.c:51-57 | with nothing live the state is the initial one: one block of the whole pool, alone on the list |
| FreeListAllocator.Allocator.constructor | Phase-1/Day23/C/freelist.c:51-57 | one free block tiles the pool |
| FreeListAllocator.Allocator.Alloc | Phase-1/Day23/C/freelist.c:62-125 | fails if and only if the request is zero or no stretch between live blocks has room for a header and the rounded size; otherwise the first listed block that fits becomes live, with exactly the rounded size if the rest of it holds a header and a unit and whole otherwise, and no other live block changes |
| FreeListAllocator.Allocator.InsertFreeBlock | Phase-1/Day23/C/freelist.c:132-150 | the block enters the list in address order; a live block is no longer live |
| FreeListAllocator.Allocator.MergeNext | Phase-1/Day23/C/freelist.c:181-186 | exactly the next block on the list is absorbed; live blocks stay |
| FreeListAllocator.Allocator.Coalesce | Phase-1/Day23/C/freelist.c:155-192 | one pass from any address-ordered list leaves no two touching free blocks and every live block as it was; it also ends on a list whose blocks overlap |
| FreeListAllocator.Allocator.IsAlreadyFree | Phase-1/Day23/C/freelist.c:199-212 | true if and only if a block on the list starts there |
| FreeListAllocator.Allocator.Free | Phase-1/Day23/C/freelist.c:217-275 | for every pointer: refuses exactly pointers outside the pool, into the first header or to a block on the list; exactly a live block stops being live and the list stays sorted with no touching blocks; any other pointer is put on the list although it lies inside a live or another free block |
| FreeList.FoundOnListIff | Phase-1/Day23/C/freelist.c:194-212 | an address of the pool that is no live block is found on the list if and only if it begins the pool or follows a live block |
| FreeListAllocator.Allocator.SecondFreeIsRefused | Phase-1/Day23/C/freelist.c:261-268 | the double-free check notices a pointer that is no live block if and only if it begins the pool or follows a live block, whatever happened since the first free |
| FreeListAllocator.Allocator.MissedDoubleFree | Phase-1/Day23/C/freelist.c:261-268 | a second free of the last live block goes unnoticed unless it begins the pool |
| FreeListAllocator.Allocator.DoubleFreeTest | Phase-1/Day23/C/freelist.c:261-274 | from the initial state: two blocks allocated, both freed, the second freed again; the free goes through and leaves two free blocks on the list, one inside the other |
| FreeListAllocator.Allocator.FreeAll | Phase-1/Day23/C/freelist.c:324-329 | freeing all live blocks in any order restores the initial state |
| FreeListAllocator.Allocator.ClientWrite | Phase-1/Day23/C/freelist.c:315-316 | writing a live block's payload, over stale headers too, does no harm |
| LruCache.CachedIff | Phase-1/Day30/C/lru.c:73-107 | a key is cached if and only if it was used and fewer different keys than the capacity were used since its last use |
| LruCache.AddedFront | Phase-1/Day30/C/lru.c:54-60 | the list is well formed in both directions with the node in front |
| LruCache.Unlinked | Phase-1/Day30/C/lru.c:62-65 | the list is well formed in both directions without the node |
| LruCache.ChainRemoved | Phase-1/Day30/C/lru.c:45-52 | redirecting one link takes exactly that node off its chain; all other chains stay |
| LruCache.LRUCache.TableFind | Phase-1/Day30/C/lru.c:30-37 | finds the node if and only if the key is cached |
| LruCache.LRUCache.TableInsert | Phase-1/Day30/C/lru.c:39-43 | the node is the first of its bucket's chain |
| LruCache.LRUCache.TableRemove | Phase-1/Day30/C/lru.c:45-52 | the key's node leaves its chain |
| LruCache.LRUCache.MoveToFront | Phase-1/Day30/C/lru.c:67-71 | the node is first and the others keep their order |
| LruCache.LRUCache.EvictLRU | Phase-1/Day30/C/lru.c:73-81 | exactly the least recently used key leaves list, chains and memory |
| LruCache.LRUCache.Put | Phase-1/Day30/C/lru.c:83-99 | the key is used and has the value; the cached keys are the most recently used ones, up to the capacity; list, chains and size agree |
| LruCache.LRUCache.Get | Phase-1/Day30/C/lru.c:101-107 | the value last put, and a use, for a cached key; -1 and no change otherwise |
| Pipeline.PushKeeps | Phase-2/Day38/C/AudioPipeLine.c:68-78 | a step of a push keeps ring, lock and sleepers in order, and no wake-up is lost |
| Pipeline.PopKeeps | Phase-2/Day38/C/AudioPipeLine.c:80-91 | a completed pop returns the next frame of the stream |
| Pipeline.NextInv | Phase-2/Day38/C/AudioPipeLine.c:93-138 | every step of the three stages keeps the invariant |
| Pipeline.NoDeadlock | Phase-2/Day38/C/AudioPipeLine.c:68-91 | while a stage has not returned, some stage can take a step that needs no spurious wake-up |
| Pipeline.StepsCount | Phase-2/Day38/C/AudioPipeLine.c:68-138 | every step but a spurious wake-up decreases the work left; a spurious wake-up adds two |
| Pipeline.PipelineIsSafe | Phase-2/Day38/C/AudioPipeLine.c:93-138 | for any frames and capacities, in every run stage 3 has counted a prefix of the produced frames, in order, each filtered once; when all stages have returned, the k-th value is the k-th frame filtered, for every frame; and a run has a bounded number of steps besides spurious wake-ups |
| SpscRing.IndexDistance | Phase-1/Day22/C/SPSC.c:34 | the unsigned difference of two indices is the distance of their positions, across the wrap |
| SpscRing.WriteHitsNoUnread | Phase-1/Day22/C/SPSC.c:31-38 | the slot about to be written holds no unread value, however stale the head that was tested |
| SpscRing.StepRefines | Phase-1/Day22/C/SPSC.c:29-55 | each step is nothing, one append or one removal at the front of a FIFO queue |
| SpscRing.RingIsFifo | Phase-1/Day22/C/SPSC.c:29-79 | from any equal starting indices and across any number of wraps, the values pushed are the arguments of the accepted calls, in order, the i-th value popped is the i-th pushed, and tail minus head, as an unsigned number, is the number of unread values, at most the capacity |
| SpscRing.GivesUpOnlyIf | Phase-1/Day22/C/SPSC.c:34-50 | push gives up if and only if the ring was full when it loaded the head, pop if and only if it was empty when it loaded the tail |
| SpscRing.ItemsInOrder | Phase-1/Day22/C/SPSC.c:58-78 | a producer that repeats each push until it is accepted is read in order: the i-th value the consumer gets is the i-th item |
| SpscRing.PushAlone | Phase-1/Day22/C/SPSC.c:29-40 | with room, a push running alone is accepted and appends its argument |
| SpscRing.PopAlone | Phase-1/Day22/C/SPSC.c:43-55 | with an unread value, a pop running alone returns the oldest one |
| MatMul.MulNaive | Phase-0/Day4/C/matmul.c:28-36 | for all i and j, entry `i * n + j` is the left fold over ascending k of the products of entries `i * n + k` and `k * n + j` |
| MatMul.MulReordered | Phase-0/Day4/C/matmul.c:39-47 | the same entries, at the same positions, from the i, k, j order |
| MatMul.MulTiled | Phase-0/Day4/C/matmul.c:50-61 | the same entries, at the same positions, from the tiled order, for a block size dividing the matrix size |
| MatMul.OneProduct | Phase-0/Day4/C/matmul.c:58-59 | one accumulation advances exactly one entry by exactly its next product |
| MatMul.ProductIsMultiplied | Phase-0/Day4/C/matmul.c:28-61 | the row-column products, at their arithmetic positions in the arrays, are what the loops compute |
| MatMul.ProductIsUnique | Phase-0/Day4/C/matmul.c:28-61 | two matrices that are the product are equal |
| MatMul.SameResults | Phase-0/Day4/C/matmul.c:28-61 | the three orders give identical matrices over any arithmetic, associative or not |
| Grep.GrepBuffer | Phase-1/Day8/C/not_shared.c:6-36 | each match is the first occurrence after the one before, none is missed, the total counts them; the line printed for a newline-free target is the line of the match, and the number printed is exactly the newlines looked at, plus one |
| Grep.GreedyIsOptimal | Phase-1/Day8/C/not_shared.c:17-33 | the matches are disjoint occurrences, and no set of disjoint occurrences is larger |
| Grep.NumbersRightIff | Phase-1/Day8/C/not_shared.c:19-30 | the line numbers are one plus the newlines before each match, for every text, if and only if the target has no newline |
| Grep.WrongNumber | Phase-1/Day8/C/not_shared.c:19-30 | a target with a newline, twice in a row, is reported on a wrong line |

## Left out

- Memory orderings: every atomic access is one sequentially consistent step.
- Input and output, clocks, thread creation, printing and benchmarks; reads and writes of the file transfer whole pages.
- Counter widths: the positions of the MPMC queue, the tag of the Treiber stack and pin counts are unbounded numbers; the ring of Day 22 is modelled with its wrap.
- MPMC capacity 1, where a published slot and a slot of the next lap have the same sequence number.
- The checksum of the consumed values in the MPMC test, which follows from each value being received once.
- BuddyAllocator.Buddy.Alloc: the size plus a header is at most 2^63, as `log2_ceil` does not stop beyond; the sum does not overflow; a header is one cell at its block's offset, so minimum blocks are assumed to hold a header.
- BuddyAllocator.Buddy.constructor: the pool's size is a power of two; for other sizes the root block reaches past the pool (`BuddyInvariant.RootFitsIff`).
- BuddyAllocator.Buddy.Free: callers pass live pointers, as the source does not check them.
- TreiberStack.StepInv: the part of `retire_node` and of a sweep's round that runs under the retire lock is one step each, except for the hazard scan, which is one step per slot.
- LockGraph.Graph.GetOrCreateNode: leaving the program when the node table is full is a failing result; the `active` flag, never read, is not modelled.
- DeadlockProtocol.NextInv: thread ids are distinct after truncation to `int`, and only the holder unlocks.
- BufferPool.BufferPoolManager.FetchPage: assumes a coherent pool; after an unpin that breaks the rule of `UnpinPage` a page may lose its content, as `Paging.EvictKeepsIff` says.
- BufferPool.BufferPoolManager.AllocPage: the pinned pages, the header and the page handed out fit in the cache (the source dereferences null otherwise), and ids stay below 2^31.
- BufferPool.BufferPoolManager.FreePage: callers free allocated pages only and do not write freed pages.
- The recency list of the buffer pool and its map of iterators are one sequence; the hash chains of the C pager are a map, as in the C++ version.
- SymbolTable.SymbolTable.Insert: the load is compared exactly instead of in floating point, the capacity is a power of two no larger than 2^32, and keys are compared as values.
- FreeListAllocator.Allocator.Free: header words at different offsets are independent and sizes do not wrap; what later calls do after a pointer that was no live block has gone through is not modelled beyond the state it leaves.
- LruCache.LRUCache.Put: capacity is at least 1; with capacity 0 the source evicts nothing and grows. Allocation of a node succeeds.
- The sentinel-list variant of the LRU cache in C++, which keeps the same order with fewer cases.
- Pipeline.PipelineIsSafe: frames are an abstract type with an abstract gain; sample generation is left out.
- MatMul.MulTiled: the block size divides the matrix size; the source indexes outside the matrix otherwise.
- Grep.GrepBuffer: the printed slice is not truncated to an `int` length.
- The remaining exercises: serialization, smart pointers, object pools, spin locks, string interning, coroutines, sockets, image processing.
