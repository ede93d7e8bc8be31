# Kernel algorithms, modelled and proved

This project models the algorithms at the core of a user-space port of Linux kernel subsystems and proves what
they are there for. Each module follows one component of the source.

| file | component |
|---|---|
| `FlushMachine.dfy`, `FlushSteps.dfy`, `WorkqueueFlush.dfy` | flushing a workqueue by colors: a step machine over flushers, pool_workqueues and items, what every step keeps, what holds of every run |
| `WorkqueueReentrancy.dfy` | one work item followed through every interleaving of queueing, stealing and executing |
| `WorkqueueActivation.dfy` | max_active accounting of one pool_workqueue |
| `Rbtree.dfy`, `RbtreeOperations.dfy` | red-black trees in place, with parent links: rebalancing, then whole insertion, erasure and walking |
| `RadixNodes.dfy`, `RadixTree.dfy`, `Idr.dfy` | the radix tree with its tags, and the ID allocator built on it |
| `ListSort.dfy` | the bottom-up merge sort of a circular doubly linked list |
| `CpuHotplug.dfy` | bring-up and teardown of an application processor, with rollback |
| `Crc32.dfy` | CRC by bits, by tables and by polynomial multiplication |
| `Resource.dfy` | the tree of address ranges: request, allocate, reallocate, insert, remove, reserve |
| `Klist.dfy` | a reference-counted list that changes while iterators walk it |
| `MapleGap.dfy` | the cached gaps of the maple tree |
| `Base.dfy` | an option type, and a wrapper that hands a condition on whole |

Code that works on shared structures under a lock is modelled as operations, one for each hold of the lock. A run
is any sequence of them, so a theorem about every run is one about every interleaving. The operations are classes
with methods that update their fields, proved equal to step functions; the theorems about runs are about those
functions. Linked structures that the code relinks in place (red-black trees, the list being sorted) are objects on
the heap. Unsigned wrap-around is written out where it matters.

## Findings

Six promises turned out not to hold as stated. Each has an input on which it fails and the exact condition under
which it holds.

- `__flush_workqueue` (kernel/workqueue.c:3100-3150): the pointer `next` that the cascade promotes is a real
  flusher unless WORK_NR_COLORS is 2. With two colors the scan of the queue runs off its end, the overflow list
  refills the queue, and `next` points at no flusher. `PromotesBogusIffTwoColors` has both directions; nothing
  else ever trips a consistency check (`NoWarning`).
- `__flush_workqueue` (kernel/workqueue.c:3034-3076): while a flusher waits there is a step that gets flushing on, unless
  WORK_NR_COLORS is 1. With one color every flusher goes to the overflow list, from which nobody ever takes it.
  `StuckIffOneColor` has both directions.
- `cpuhp_kick_ap` (kernel/cpu.c:512-525): a request for the state the processor is in already returns the result
  left behind by an earlier failed request, and leaves the state two higher. `StaleResult` exhibits it; `KickAp`
  shows that the rollback is exact when the target differs from the state or the old result is 0, and that the state
  ends two higher otherwise.
- `idr_alloc_u32` (lib/idr.c:40-63): with `max` below `idr_base` the subtraction wraps around, and an ID above `max`
  is given out. `GivesOutAboveMax` exhibits it (base 1, max 0, ID 1); `AllocU32` shows that an ID given out is
  within `max` if and only if `idr_base <= max`.
- `idr_alloc_cyclic` (lib/idr.c:124-142): a negative `start`, which `idr_alloc` rejects, is compared as an unsigned
  number, so that the search does not wrap around. `CyclicMissesFree` exhibits -ENOSPC with an unused ID in range.
  Whatever is allocated, -ENOSPC means that the whole range is in use if and only if
  `start >= 0 || idr_next <= idr_base` (`CyclicFullMeansFull`); for one call `AllocCyclic` says exactly when -ENOSPC is
  reported and when it is reported although an ID is unused.
- `reallocate_resource` (kernel/resource.c:674-710): its BUG_ON is never reached for a child of root (`Reallocate`). For
  a resource further down it is reached if and only if the search finds a place it may use, the first child of root
  covers root up to the last 64-bit address, so that the start of the search wraps around, and that place neither
  contains the resource nor lies inside it (`ReallocateBelow`). `ReachesBug` exhibits it.

Non-reentrancy of a work item has its exact condition too: it holds if and only if the users of the item never give
it another function and any two workqueues they queue it on are served by the same pool (`NonReentrancy`, with the
failing interleavings in `OtherWorkqueue` and `OtherFunction`).

## Model

| member | source | states |
|---|---|---|
| WorkqueueFlush.FlushSafety | kernel/workqueue.c:3014-3162 | in every interleaving, once a flusher's `done` is set every item that was in flight on any pool_workqueue before that flusher entered has left; for first, queued and overflowed flushers alike |
| WorkqueueFlush.ItemGoneOrAwaited | kernel/workqueue.c:3014-3030 | an item in flight before a flusher enters either leaves or is among the items that flusher must outlast |
| WorkqueueFlush.BarrierSafety | kernel/workqueue.c:2911-2930 | a barrier put behind anything a flusher has to outlast has left, too, once that flusher's `done` is set, whether the flusher is first, queued or overflowed |
| WorkqueueFlush.BarrierBehindOlder | kernel/workqueue.c:2911-2930 | so has one behind an item that was in flight before the flusher entered |
| WorkqueueFlush.QueuedColor | kernel/workqueue.c:1601-1605 | a new item takes the work color, or the color just closed on a pool_workqueue that the prep loop has still to visit |
| WorkqueueFlush.NeverStuck | kernel/workqueue.c:3014-3162 | with more than one color, while anybody waits the holder of wq->mutex can go on, the first flusher can wake up, or an item of the flush color is in flight |
| WorkqueueFlush.StuckIffOneColor | kernel/workqueue.c:3034-3076 | some run leaves a waiting flusher without such a step exactly when there is one color |
| FlushSteps.StepKeepsInv | kernel/workqueue.c:2967-3162 | every step of every task keeps the color window, the order of the flusher queue, the place of each waiting flusher and nr_pwqs_to_flush equal to the armed pool_workqueues, plus one while the prep loop arms |
| WorkqueueFlush.RunInv | kernel/workqueue.c:3014-3162 | so that holds in every state of every run |
| WorkqueueFlush.RunExtends | kernel/workqueue.c:3014-3162 | a run goes on with any step that is possible, so that runs are all interleavings |
| WorkqueueFlush.NoWarning | kernel/workqueue.c:3034-3150 | no consistency check fires and no NULL or stale pointer is followed, in any step of any run, but for the promotion of a bogus `next`; none at all unless there are two colors |
| WorkqueueFlush.EveryClosedColorHasFlusher | kernel/workqueue.c:3034-3072 | every color strictly between flush_color and work_color has a queued flusher, and the queue is in cyclic color order |
| WorkqueueFlush.OverflowOnlyWhenFull | kernel/workqueue.c:3064-3072 | a flusher is on the overflow list only while the color space is full |
| WorkqueueFlush.PromotesRealFlusher | kernel/workqueue.c:3100-3150 | with other than two colors the cascade promotes a real queued flusher |
| WorkqueueFlush.PromotesBogusIffTwoColors | kernel/workqueue.c:3100-3150 | some run promotes a `next` that is no flusher exactly when there are two colors |
| FlushSteps.LeaveEmptiesColor | kernel/workqueue.c:1254-1288 | the item whose leaving completes the first flusher is the last one of the flush color on any pool_workqueue |
| WorkqueueReentrancy.NonReentrancy | kernel/workqueue.c:1554-1573 | no interleaving has two workers executing the item at once, if and only if its function never changes and all its workqueues share a pool |
| WorkqueueReentrancy.StepKeepsInv | kernel/workqueue.c:2386-2399 | under that discipline every step keeps at most one executing worker, which is on the pool the item's data names |
| WorkqueueReentrancy.RunInv | kernel/workqueue.c:1110-1122 | and so in every run |
| WorkqueueReentrancy.CollisionDefers | kernel/workqueue.c:2386-2399 | while a worker executes the item, whoever takes it up leaves it, still pending, on the list of that worker |
| WorkqueueReentrancy.QueuedMoves | kernel/workqueue.c:2386-2435 | a queued item is never lost: it can be stolen, and once nobody executes it a worker can start it, the one it was left to if there is one, and then no other |
| WorkqueueReentrancy.OtherWorkqueue | kernel/workqueue.c:1554-1573 | two workqueues with different pools have an interleaving with two executing workers |
| WorkqueueReentrancy.OtherFunction | kernel/workqueue.c:1110-1122 | so does a changed function, since the search for the executing worker compares functions |
| WorkqueueActivation.Accounting | kernel/workqueue.c:1223-1288 | at every lock release of every run nr_active is the number of items in flight without the INACTIVE bit, nothing waits while there is room, and no barrier is first in line |
| WorkqueueActivation.ActivatesInOrder | kernel/workqueue.c:1235-1241 | in every run whatever has been active is older, in queueing order, than whatever becomes active later |
| WorkqueueActivation.OneAtATime | kernel/workqueue.c:1604-1629 | with max_active never above 1, at most one item is active at any time |
| WorkqueueActivation.NeverAbove | kernel/workqueue.c:1604-1629 | nr_active never passes the largest max_active there has been |
| WorkqueueActivation.StaysOlder | kernel/workqueue.c:1254-1265 | once active, an item is older for good than all that waits and all that comes |
| WorkqueueActivation.FromWaiting | kernel/workqueue.c:1223-1241 | whatever an operation makes active was waiting or has just been queued |
| WorkqueueActivation.ApplyConserves | kernel/workqueue.c:1223-1288 | every operation keeps every work item and every barrier but the one it takes out or brings in |
| WorkqueueActivation.QueueMeans | kernel/workqueue.c:1604-1629 | a queued item is active when there is room and waits otherwise |
| WorkqueueActivation.StaysUntilTaken | kernel/workqueue.c:1223-1288 | in every run an item that is active or waits stays so until that very item is finished or stolen |
| WorkqueueActivation.TakenIsGone | kernel/workqueue.c:1254-1265 | and is gone for good then |
| WorkqueueActivation.AdjustMeans | kernel/workqueue.c:3991-4040 | max_active becomes 0 when the workqueue is freezable and freezing, and the saved limit otherwise |
| WorkqueueActivation.BarrierMeans | kernel/workqueue.c:2911-2933 | a barrier comes right behind its item, in front of those already there, and moves with the item |
| WorkqueueActivation.ApplyKeeps | kernel/workqueue.c:1254-1265 | every operation keeps the books and leaves nothing waiting while there is room |
| WorkqueueActivation.RunExtends | kernel/workqueue.c:1223-1288 | a run goes on with any operation that is possible |
| WorkqueueActivation.GrabbedIs | kernel/workqueue.c:1363-1390 | grabbing a waiting item leaves nothing of it behind but its barriers, which go to the pool, and changes no count |
| WorkqueueActivation.PoolWorkqueue.Queue | kernel/workqueue.c:1604-1629 | the queueing step in place: the whole new state, books kept |
| WorkqueueActivation.PoolWorkqueue.MoveLinked | kernel/workqueue.c:1141-1163 | an item moves to the pool with exactly the barriers linked behind it, in order |
| WorkqueueActivation.PoolWorkqueue.Activate | kernel/workqueue.c:1223-1233 | the same for activation: the whole new state |
| WorkqueueActivation.PoolWorkqueue.DecNrInFlight | kernel/workqueue.c:1254-1265 | an item that leaves is replaced by the first waiting one exactly when there is room, and the books are right again |
| WorkqueueActivation.PoolWorkqueue.Begin | kernel/workqueue.c:2352-2435 | starting an item changes no count |
| WorkqueueActivation.PoolWorkqueue.End | kernel/workqueue.c:2506-2514 | finishing one keeps the books |
| WorkqueueActivation.PoolWorkqueue.StealQueued | kernel/workqueue.c:1363-1390 | so does stealing one from the pool |
| WorkqueueActivation.PoolWorkqueue.StealInactive | kernel/workqueue.c:1363-1390 | and stealing a waiting one |
| WorkqueueActivation.PoolWorkqueue.AdjustMaxActive | kernel/workqueue.c:3991-4040 | after a change of the limit the oldest waiting items have been activated up to it; freezing activates none |
| WorkqueueActivation.PoolWorkqueue.BarrierBehindInactive | kernel/workqueue.c:2888-2934 | a barrier behind a waiting item waits with it and never comes first |
| WorkqueueActivation.PoolWorkqueue.BarrierBehindQueued | kernel/workqueue.c:2888-2934 | a barrier behind an item with the pool counts nowhere in nr_active |
| WorkqueueActivation.PoolWorkqueue.BarrierBehindRunning | kernel/workqueue.c:2888-2934 | nor does one for an item being executed |
| Rbtree.InsertColor | lib/rbtree.c:84-220 | from a red-black tree with one red node possibly under a red parent to a red-black tree in memory with the same in-order sequence and all parent links right; it terminates |
| Rbtree.EraseColor | lib/rbtree.c:226-407 | the same from a tree in which every path through one empty child is short of one black node |
| Rbtree.InsertStep | lib/rbtree.c:110-218 | one round of the insertion loop either ends it or moves the red node two levels up |
| Rbtree.EraseStep | lib/rbtree.c:226-407 | one round of the erasure loop either ends it or moves the missing black node one level up |
| Rbtree.Rotate | lib/rbtree.c:74-82 | a rotation in memory: both nodes, their three subtrees and the context are linked as the rotated tree |
| Rbtree.ChangeChild | include/linux/rbtree_augmented.h:170-181 | the pointer in the one place that led to the old node now leads to the new one |
| Rbtree.PlugValid | lib/rbtree.c:15-28 | a red-black subtree of the right black height in the hole of a red-black context makes a red-black tree |
| RbtreeOperations.Erase | lib/rbtree.c:438-444 | rb_erase of any node: a red-black tree with parent links right whose in-order sequence is the old one without that node |
| RbtreeOperations.Add | include/linux/rbtree.h:194-211 | rb_add: a red-black tree in which the node stands behind everything not above it and in front of the rest, and the order of the callback is kept |
| RbtreeOperations.LinkAndColor | include/linux/rbtree.h:59-66 | linking a node into any empty place and rebalancing puts it exactly there in the in-order sequence |
| RbtreeOperations.Unlink | include/linux/rbtree_augmented.h:195-218 | a node with at most one child is replaced by it, child in the node's color |
| RbtreeOperations.Swap | include/linux/rbtree_augmented.h:219-282 | a node with two children is replaced by its successor; the place left behind and whether a black node is missing there |
| RbtreeOperations.RemnantRedBlack | include/linux/rbtree_augmented.h:195-218 | after unlinking either all black heights are right or exactly one black node is missing, which the code tells by the colors |
| RbtreeOperations.First | lib/rbtree.c:462-472 | the first node of the in-order sequence, or none when it is empty |
| RbtreeOperations.Next | lib/rbtree.c:486-515 | the node behind in the in-order sequence, or none behind the last and for a node that is in no tree |
| RbtreeOperations.PartsSorted | include/linux/rbtree.h:194-211 | a node between what is not above it and what is above it keeps a sequence sorted |
| RadixTree.Tree.Lookup | lib/radix-tree.c:767-799 | the entry stored under the index, nothing otherwise, and where the walk ended |
| RadixTree.Tree.Insert | lib/radix-tree.c:723-750 | the map gains the index; -EEXIST exactly when it has it; -ENOMEM only when fewer nodes are to be had than two branches of full height sharing the root; no empty node is left and the height stays the least |
| RadixTree.Tree.DeleteItem | lib/radix-tree.c:1439-1459 | the map loses the index when the item is the expected one, other tags stay, no empty node is left and the height stays the least |
| RadixTree.Tree.TagSet | lib/radix-tree.c:986-1011 | the tag holds for one more index; every inner and root tag bit is again the OR of those below |
| RadixTree.Tree.TagClear | lib/radix-tree.c:1048-1076 | the same with one index less |
| RadixTree.Tree.TagGet | lib/radix-tree.c:1106-1132 | whether the tag holds for the index; an ID allocator answers no past its last index |
| RadixTree.Tree.Extend | lib/radix-tree.c:428-482 | room for the index at the least height, stored entries and tags unchanged, one node used per level |
| RadixTree.Tree.Shrink | lib/radix-tree.c:488-561 | what is stored is unchanged and, without empty nodes, the height is the least that holds it |
| RadixTree.Tree.ShrunkIsSnug | lib/radix-tree.c:488-561 | without empty nodes, the test that ends the shrinking holds exactly when the height is the least for what is stored |
| RadixTree.Tree.LeastHeight | lib/radix-tree.c:488-561 | the height is then the largest that any stored index needs, and 0 when there is none |
| RadixTree.Tree.DeleteNode | lib/radix-tree.c:563-600 | when at most this node is empty, none is afterwards; what is stored is unchanged |
| RadixTree.Tree.Create | lib/radix-tree.c:618-665 | a leaf slot for the index at the least height above the old one, the map unchanged |
| RadixTree.Tree.ClearUp | lib/radix-tree.c:1014-1032 | clearing a tag bit upwards stops at the first node that keeps another, and all bits summarise what is below |
| RadixTree.Tree.SetUp | lib/radix-tree.c:957-971 | setting one upwards stops at the first bit already set, likewise |
| RadixNodes.BitMeans | lib/radix-tree.c:957-1076 | a tag bit of any node is set exactly when some index below its slot has the tag |
| RadixTree.Tree.EmptyHoldsNothing | lib/radix-tree.c:563-600 | when nothing is stored and no allocation has failed, every node is back with the allocator |
| RadixTree.Tree.GetFree | lib/radix-tree.c:1502-1572 | the least unused index from start on, or that all up to max are in use, also where start wraps around at the end of the 64-bit range; out of memory only when there is too little for the first unused index |
| RadixTree.Tree.Search | lib/radix-tree.c:1520-1560 | the descent ends at an unused index, past the tree or past max, skips only indices in use, and adds nodes only on the path it ends on |
| RadixTree.Tree.AllocIndex | lib/idr.c:40-63 | the index found is taken into use |
| RadixTree.Tree.ReplaceIndex | lib/radix-tree.c:895-916 | the entry of an index in use changes and nothing else does |
| Idr.Allocator.AllocU32 | lib/idr.c:40-63 | the least unused ID from start on; within max if and only if idr_base <= max, and above it by wrap-around otherwise; -ENOSPC only when the range is in use; -ENOMEM not when there is memory for the first unused ID |
| Idr.Allocator.Alloc | lib/idr.c:86-99 | the least unused ID from start on, below end, or up to INT_MAX when end is not positive, also of the range wrapped around when idr_base is above its end, and, given memory for it, -ENOSPC exactly when there is none; -EINVAL exactly for a negative start |
| Idr.Allocator.AllocCyclic | lib/idr.c:124-142 | the least unused ID from the cursor, or else from start, below end, or up to INT_MAX when end is not positive, also when idr_base is above that; the cursor moves past it; given memory, -ENOSPC exactly when all from the cursor and, for start >= 0, all from start on are in use, and it misses an unused ID exactly for a negative start |
| Idr.CyclicFullMeansFull | lib/idr.c:124-142 | -ENOSPC means that the whole range is in use, whatever is allocated, if and only if start >= 0 or the cursor is not above idr_base |
| Idr.Allocator.Remove | lib/idr.c:159-162 | the ID is unused again; the old entry |
| Idr.Allocator.Find | lib/idr.c:179-182 | the entry of the ID |
| Idr.Allocator.Replace | lib/idr.c:297-312 | the entry of an ID in use changes; -ENOENT for any other |
| Idr.GivesOutAboveMax | lib/idr.c:40-63 | a request up to 0 from an allocator based at 1 gives out ID 1 |
| Idr.CyclicMissesFree | lib/idr.c:124-142 | -ENOSPC with an unused ID in range, for start -1 |
| ListSort.ListSort | lib/list_sort.c:187-257 | the ring comes back as a well-formed circular doubly linked list of the sorted elements, and the sizes of all its merges are the ones fixed by the number of elements |
| ListSort.SortSorts | lib/list_sort.c:104-140 | that order is sorted for every total preorder |
| ListSort.SortPermutes | lib/list_sort.c:104-140 | it is a permutation |
| ListSort.SortStable | lib/list_sort.c:104-140 | equal elements keep their order |
| ListSort.MergesBalanced | lib/list_sort.c:142-185 | no merge is more lopsided than 2:1, for any number of elements |
| ListSort.MergesCounted | lib/list_sort.c:142-185 | n elements take n - 1 merges |
| ListSort.RoundShape | lib/list_sort.c:142-170 | after every round the pending lists have the power-of-two sizes the bits of count say, at most two of each |
| ListSort.PairToMerge | lib/list_sort.c:216-228 | where the trailing one bits of count lead there are two lists of equal size to merge |
| ListSort.MergeLists | lib/list_sort.c:18-45 | two sorted chains become the stable merge of both, in place |
| ListSort.MergeSorts | lib/list_sort.c:18-45 | the stable merge of two sorted stretches is the sorted form of the whole |
| ListSort.MergeFinal | lib/list_sort.c:54-102 | the last merge, with next and prev links and the ring closed |
| ListSort.Distribute | lib/list_sort.c:214-240 | the first loop: every element on a pending list, with the merges of those rounds |
| ListSort.Collect | lib/list_sort.c:242-256 | the second loop: the ring, with the merges that are left |
| CpuHotplug.Ap.KickAp | kernel/cpu.c:512-525 | a request succeeds with every callback on the way called in order, or fails with the first error, the state back where it was and the opposite callbacks called for exactly what was completed, state by state in reverse; exactly when the target differs or no stale error is left |
| CpuHotplug.Ap.Kick | kernel/cpu.c:496-510 | the thread runs until the target or the first error, in the direction set |
| CpuHotplug.Ap.ThreadFun | kernel/cpu.c:671-741 | one state, its callbacks, and whether to go on |
| CpuHotplug.Ap.InvokeAll | kernel/cpu.c:182-217 | the instances of a state in list order up to the first failure; on the way back up to the one that failed |
| CpuHotplug.Ap.InvokeOrFail | kernel/cpu.c:155-180 | an injected failure calls nothing and is used up |
| CpuHotplug.Ap.SetState | kernel/cpu.c:460-473 | the direction and target of a request |
| CpuHotplug.Ap.ResetState | kernel/cpu.c:475-493 | the start of the way back: from the state that was completed last |
| CpuHotplug.PathBack | kernel/cpu.c:475-493 | the way back visits the states of the way there in reverse |
| CpuHotplug.StaleResult | kernel/cpu.c:512-525 | after a failed request, a request for the current state returns the old error and leaves the state two higher |
| Crc32.Shift | lib/crc32.c:273-301 | appending len zero bytes by repeated squaring equals 8 * len single-bit steps, for every CRC, length and polynomial |
| Crc32.Combine | lib/crc32.c:303-306 | the CRC of a + b is that of a advanced by the length of b, xor the CRC of b from zero |
| Crc32.CombineByShift | lib/crc32.c:303-306 | the combination computed that way |
| Crc32.Multiply | lib/crc32.c:247-259 | the loop computes the product Mul of two words modulo the CRC polynomial |
| Crc32.MulPower | lib/crc32.c:247-259 | multiplying by x^n is n single-bit steps |
| Crc32.MulDistributes | lib/crc32.c:247-259 | the product is linear in both arguments, so that with MulPower it is fixed on all words |
| Crc32.MulCommutes | lib/crc32.c:247-259 | it is commutative |
| Crc32.MulAssociates | lib/crc32.c:247-259 | it is associative |
| Crc32.Bitwise | lib/crc32.c:180-186 | the bit-by-bit CRC of a buffer |
| Crc32.Body | lib/crc32.c:87-162 | given right tables, slicing by four or eight, from any alignment, is the bit-by-bit CRC |
| Crc32.FoldIsSteps | lib/crc32.c:87-110 | four table look-ups advance a word by 32 bits and the bits of their table offset |
| Crc32.EightBytes | lib/crc32.c:87-162 | two words folded at once are the CRC of their eight bytes |
| Resource.ResourceTree.Request | kernel/resource.c:191-217 | a range enters exactly when root covers it and it is free; otherwise the first conflict, and nothing changes |
| Resource.ResourceTree.Find | kernel/resource.c:598-652 | the lowest aligned free place inside root and [min, max], or that there is none; where the start wraps around, the lowest aligned place up to the end of root, free or not |
| Resource.MultipleIs | kernel/resource.c:625-640 | the alignment that Find and Allocate promise is divisibility by the power of two asked for |
| Resource.ResourceTree.Allocate | kernel/resource.c:725-758 | succeeds exactly when such a place exists, at the lowest one, and keeps the tree sorted, disjoint and nested |
| Resource.ResourceTree.Reallocate | kernel/resource.c:674-710 | a child of root moves to the lowest place for it exactly when it has no children or its new range contains the old one and it is not unset; the tree stays well formed and the BUG_ON is never reached |
| Resource.ResourceTree.ReallocateBelow | kernel/resource.c:674-710 | the same request for a resource further down: refused exactly when no place is found or it has children that would be left out; otherwise it moves up to the children of root, the tree staying well formed, unless the search has wrapped around, where the BUG_ON is reached exactly for a place out of its reach |
| Resource.ReachesBug | kernel/resource.c:674-710 | a tree and a request that reach the BUG_ON |
| Resource.ResourceTree.Insert | kernel/resource.c:787-834 | a range gets in exactly when it nests with everything in the tree, below the deepest resource that is larger and covers it, above everything it covers, one of equal range included; otherwise something it crosses is named |
| Resource.ResourceTree.InsertExpanding | kernel/resource.c:889-913 | any range inside root gets in, grown to the least range around it that nests with everything |
| Resource.ResourceTree.Release | kernel/resource.c:219-246 | a resource goes with its children, or they take its place, and the tree stays well formed |
| Resource.RemoveUndoesInsert | kernel/resource.c:916-938 | removing an inserted resource restores the tree |
| Resource.ReleasedSpans | kernel/resource.c:219-246 | a released resource is gone, with all below it or alone, and everything else is still in the tree |
| Resource.InsertedSpans | kernel/resource.c:787-834 | an inserted resource is new in the tree, and everything else is still there |
| Resource.RequestedSpans | kernel/resource.c:191-217 | so is a requested or allocated one |
| Resource.ReallocatedSpans | kernel/resource.c:674-710 | a reallocated child has its new range and all else is as it was |
| Resource.ResourceTree.ReserveInside | kernel/resource.c:1000-1059 | exactly the addresses of the range that were free are added, as leaves; what was there stays; it terminates |
| Resource.ResourceTree.ReserveWithSplit | kernel/resource.c:1061-1088 | the same for any range, cut down to root |
| Klist.FullWalk | lib/klist.c:333-406 | a walk in either direction up to NULL returns every node that was on the list and not deleted all that time exactly once, whatever others add, delete and walk meanwhile |
| Klist.ReturnsLive | lib/klist.c:333-406 | what a walk returns is on the list and not deleted at that moment |
| Klist.RunCounts | lib/klist.c:204-222 | in every run a node's count is one while it is not dead plus the iterators standing on it, and it is on the list exactly while that is positive |
| Klist.RunExtends | lib/klist.c:94-406 | a run goes on with any operation that is possible |
| Klist.ApplyKeepsCounts | lib/klist.c:204-222 | every operation keeps that |
| Klist.NextPasses | lib/klist.c:375-406 | one call comes past a live node exactly when it returns it, and returns NULL only past all of them |
| Klist.NextMeans | lib/klist.c:375-406 | klist_next goes to the nearest live node behind the place of the iterator, from the head when it has none, and nowhere exactly when there is none |
| Klist.PrevMeans | lib/klist.c:333-364 | klist_prev goes to the nearest live node in front of it, from the tail when it has none, and nowhere exactly when there is none |
| Klist.MirrorStep | lib/klist.c:333-406 | on the reversed list every operation does what its mirror image does, klist_prev what klist_next does |
| Klist.AddMeans | lib/klist.c:94-170 | an added node is alive at its place and the others keep their order |
| Klist.DelMeans | lib/klist.c:204-231 | a deleted node is not alive, stays on the list exactly while an iterator stands on it, and nothing else changes |
| Klist.InitMeans | lib/klist.c:280-300 | an iterator starts on the node asked for exactly if that is on the list |
| Klist.OthersKeep | lib/klist.c:204-222 | whatever others do, an iterator stays where it is and has come past the same live nodes |
| Klist.MoveKeeps | lib/klist.c:333-406 | next and prev go to the first node in their direction that is not dead, or nowhere when there is none |
| Klist.List.Add | lib/klist.c:108-170 | the adding step in place, from the moment the list lock is taken: the whole new state, counts kept |
| Klist.List.DecAndDel | lib/klist.c:183-207 | the last reference takes a node off the list, and that node is dead |
| Klist.List.Del | lib/klist.c:209-231 | deletion: the node leaves at once when nobody stands on it, and is skipped from then on otherwise |
| Klist.List.Init | lib/klist.c:280-300 | an iterator starts on a node only while that has references |
| Klist.List.Exit | lib/klist.c:311-317 | an iterator gives its reference back |
| Klist.List.Next | lib/klist.c:375-406 | klist_next in place |
| Klist.List.Prev | lib/klist.c:333-364 | klist_prev in place |
| MapleGap.LeafMaxGap | lib/maple_tree.c:1481-1558 | the length of the longest run of free indices of a range leaf |
| MapleGap.DenseMaxGap | lib/maple_tree.c:1481-1510 | the same for a dense node |
| MapleGap.MaxGap | lib/maple_tree.c:1571-1588 | a largest gap of a node, the right-most of equal ones |
| MapleGap.SetGap | lib/maple_tree.c:1635-1683 | one node takes a new gap: its metadata points at a maximum again, and a gap of its own that is not reported as changed is unchanged |
| MapleGap.Ancestors.ParentGap | lib/maple_tree.c:1635-1683 | every ancestor records the gap of the one below it, and only entries on the path differ |
| MapleGap.Ancestors.UpdateGap | lib/maple_tree.c:1689-1717 | the same from a node with a given gap; without ancestors nothing happens |
| MapleGap.Ancestors.UpdateLeaf | lib/maple_tree.c:1689-1717 | after a change in one leaf every gap recorded anywhere in the tree is the length of the longest run of free indices below it, across leaves, and every metadata offset points at a maximum |
| MapleGap.InnerGap | lib/maple_tree.c:1571-1624 | the longest run below a node is the longest of those below its children |
| MapleGap.LastTaken | lib/maple_tree.c:1481-1558 | short of the end of the index space the last index below a node is taken, so no run crosses from one child to the next |

## Left out

- WorkqueueFlush: what the holder of wq->mutex does after it has followed a bogus `next` with two colors; that the
  steps which NeverStuck shows to be possible are taken; how `work->data` packs pointer, color and flags (a record here).
- Worker creation, idling and the counts of running workers; the port runs workers by direct call.
- WorkqueueReentrancy and WorkqueueActivation follow one item and one pool_workqueue; that each is right for all items and
  pool_workqueues together rests on their sharing no other state.
- Memory barriers, RCU grace periods, lockless readers and the lock implementations.
- Rbtree: augmentation callbacks, rb_prev and the cached leftmost node (mirror images and copies of what is here),
  rb_replace_node and the postorder walk.
- RadixTree: gang lookups, iterators with exceptional and sibling entries, preload pools (a count of spare nodes here).
- RadixTree.Tree.TagSet: setting a tag on an index that is not stored is a bug of the caller in the source and excluded.
- The IDA half of lib/idr.c, which rests on the XArray.
- ListSort.ListSort: the comparison is a pure function of the keys, as the source asks of its callers.
- CpuHotplug.Ap.KickAp: assumes, as the source does, that instance lists are stable and that callbacks of the way back
  succeed.
- The rest of kernel/cpu.c: cpuhp_down_callbacks, single-instance requests, SMT control, sysfs.
- Crc32.Body: the tables are a hypothesis, since those of this build are all zero; big-endian CRCs are the mirror image.
- Resource.ResourceTree.Release: -EINVAL for a resource that is not among the children of its parent, and the check for
  inserting one resource twice, need object identity, which a tree of values does not have.
- Resource: resource flags other than IORESOURCE_UNSET, names, custom alignment functions, iomem walks.
- Klist.List.Add: klist_node_init sets the count before the list lock is taken; the moment with a count of one off the list,
  in which only its adder has the node, is part of the step.
- Klist.List.Del: klist_remove's waiters and the get and put callbacks.
- MapleGap: splitting, rebalancing, spanning stores and node allocation; the pointer encodings of nodes.
