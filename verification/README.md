# Verified models of the C++ exercises

The repository is a collection of independent C++ exercises. This project models its hardest
pieces in Dafny 4.11, one module or group of modules for each, and proves what each piece is for.
`dafny verify dfyconfig.toml` checks everything.

- **Red-black tree** (`RedBlack*.dfy`, `Power.dfy`): nodes with parent links and one sentinel, rewritten
  in place by rotations, insert fixup, transplant and delete fixup. The heap is described by two
  snapshots, `G()` (links, in-order sequence, the interval each subtree covers) and `P()` (colours,
  black heights); each fixup step is a lemma about snapshots, and the class calls it beside the writes.
  `RedBlackView` restates the result without those snapshots' labels, in the textbook way.
- **Sieves** (`Primes.dfy`, `PrimeSieve.dfy`): the linear sieve and the sieve of
  Eratosthenes, with the bound `MX` as a parameter.
- **Union-find** (`UnionFind.dfy`): recursive path compression and union by rank on two arrays.
- **Protocols as interleaved steps**: the worker pool (`ThreadPool.dfy`), the single-producer
  single-consumer ring (`RingBuffer.dfy`), the compare-and-swap mask machine (`MaskCas.dfy`). A state,
  a step datatype with `Enabled` and `Apply`, and theorems about every state of every run; what the callers asked
  for (tasks, items, calls) is read off the steps alone, and the theorems end in those terms.
- **Greedy and dynamic programming**: the activation greedy (`MaxTotal.dfy`) and the sliding-window count
  of partitions (`CountPartitions.dfy`); `Containers.dfy` has the library containers' ends.
- **Arrays**: segment tree (`SegmentTree.dfy`), Hoare-partition quickselect (`QuickSelect.dfy`), binary
  heap (`PriorityQueue.dfy`).
- **Mask machines**: packed device states (`DeviceStates.dfy`), the timed event-mask machine
  (`EventMask.dfy`, `EventMaskPosts.dfy`, `EventMaskRuns.dfy`), on `Bits.dfy` and `Fields.dfy`, which define the
  bit operations on numbers and pin each down by what it does to every bit.
- `Arithmetic.dfy` and `Multisets.dfy` hold the facts about products, remainders and sums of multisets that
  several modules use.

What the proofs say about the code beyond its own comments:

- `euler` tests `p * i > MX` before writing `is_prime[p * i]`, so it stays in range exactly when `MX` is not
  composite (`PrimeSieve.Sieve.Euler`); with `MX = 4` it does not (`PrimeSieve.BoundFour`). The present
  `MX = 101` is prime.
- The worker pool's guarantee that every task given to it is executed holds if and only if it has a worker or
  no task was given to it (`ThreadPool.JoinedMeansDone`, with a failing run in `ThreadPool.EmptyPoolDropsTask`).
- The activation greedy also takes negative values; it is optimal if and only if no bucket makes it take one
  (`MaxTotal.ResultIsMaximumIff`, with a failing input in `MaxTotal.NegativeValueCosts`).
- `countPartitions` runs its window empty, and then asks for the ends of an empty multiset, if and only if `k` is
  negative and the array is not empty (`CountPartitions.CountPartitions`); there is no cut to count then
  (`CountPartitions.NegativeHasNoCuts`). Only differences inside the windows it looks at have to fit 32 bits.
- Packed device states wider than 32 bits are cut when read: "no downgrade" is a partial order if and only if
  `BITS_PER_DEVICE <= 32` (`DeviceStates.NoDowngradeIsOrderIff`).
- In the event-mask machine a rule with a window can fire on an event that was posted before the last
  transition, and longer ago than the window (`EventMaskRuns.StaleEventFires`). Whether that can happen is a
  property of the start state and the table of rules alone, given exactly by `EventMaskRuns.AlwaysFreshIff`: it
  can if and only if some reachable rule that does not clear can fire while an event it does not require is
  collected, no earlier rule of its state being met by its own events and that one, and an unshadowed rule with a
  window requires that event in the state it enters. If every rule into a state with a windowed rule clears,
  it cannot (`EventMaskRuns.ClearingIsFresh`).
- An event posted after a window has run out is dropped with the expired ones, so A, B after 600 ms and A after
  another 100 ms do not fire a rule for both within 500 ms (`EventMaskRuns.LateEventNeverFires`).
- The comment in `queue/priority_queue.hpp:9` speaks of a min-heap by default; as written, `std::less` gives a
  max-heap. The model follows the code: the top is an element no other one is above.

## Model

| member | source | states |
|---|---|---|
| RedBlackTree.Tree.constructor | data_struct/rb_tree.hpp:151-155 | an empty tree is a valid red-black tree whose root is the black sentinel |
| RedBlackTree.Tree.LeftRotate | data_struct/rb_tree.hpp:161-184 | the links after the rotation are exactly the old ones with the rotated pair, the moved subtree and the parent of the pair relinked; no other link changes |
| RedBlackTree.Tree.RightRotate | data_struct/rb_tree.hpp:189-212 | the mirror image |
| RedBlackGraph.RotatedShape | data_struct/rb_tree.hpp:161-212 | a rotation keeps the tree shape, all parent links and the in-order sequence |
| RedBlackTree.Tree.InsertFixup | data_struct/rb_tree.hpp:217-256 | from a tree whose only defect is a red-red edge at z or a red root, a red-black tree with a black sentinel; terminates |
| RedBlackBalance.RecolourKin | data_struct/rb_tree.hpp:221-225 | red uncle: recolouring moves the only defect two levels up |
| RedBlackBalance.TurnKin | data_struct/rb_tree.hpp:227-230 | inner grandchild: the rotation keeps the only defect at the new lower node |
| RedBlackBalance.LiftKin | data_struct/rb_tree.hpp:232-234 | outer grandchild: recolouring and rotating removes the defect |
| RedBlackTree.Tree.DeleteFixup | data_struct/rb_tree.hpp:261-318 | from a tree that is one black short at x, a red-black tree again; terminates although the red-sibling case first pushes x down |
| RedBlackDelete.RedSibling | data_struct/rb_tree.hpp:265-270 | red sibling: after recolouring and rotating, x is still the only short node, now with a red parent and a black sibling |
| RedBlackDelete.BlackKids | data_struct/rb_tree.hpp:272-274 | sibling with black kids: reddening it moves the shortage to the parent |
| RedBlackDelete.NearRedShort | data_struct/rb_tree.hpp:276-281 | only the near nephew red: the rotation gives x a sibling whose far kid is red |
| RedBlackDelete.FarRedMended | data_struct/rb_tree.hpp:283-287 | far nephew red: recolouring and rotating ends the shortage |
| RedBlackTree.Tree.Transplant | data_struct/rb_tree.hpp:323-332 | exactly the one downward link to u and the parent link of v are rewritten |
| RedBlackTree.Tree.SpliceNode | data_struct/rb_tree.hpp:102-107 | transplanting a node's only kid over it takes exactly that node out of shape and sequence |
| RedBlackTree.Tree.TakePlace | data_struct/rb_tree.hpp:115-123 | the successor takes over z's links, colour and place |
| RedBlackTree.Tree.PromoteNear | data_struct/rb_tree.hpp:112-123 | the same when the successor is z's own kid, with the sentinel's parent set for the fixup |
| RedBlackRepaint.SpliceMending | data_struct/rb_tree.hpp:102-107 | removing a black node leaves a tree one black short exactly at the kid that took its place |
| RedBlackRepaint.SuccessorMending | data_struct/rb_tree.hpp:109-123 | so does moving a black successor up, at the successor's right kid |
| RedBlackTree.Tree.Minimum | data_struct/rb_tree.hpp:337-342 | the first node of the subtree in order |
| RedBlackTree.Tree.Search | data_struct/rb_tree.hpp:42-55 | finds a node with the key if and only if the key is in the tree, in at most 2*log2(n + 1) steps |
| RedBlackTree.Tree.Insert | data_struct/rb_tree.hpp:60-87 | keeps a valid red-black tree; its sorted keys become those with key put behind all that are not greater |
| RedBlackTree.Tree.Remove | data_struct/rb_tree.hpp:92-130 | keeps a valid red-black tree; its sorted keys lose one occurrence of key, or nothing if there is none |
| RedBlackKeys.InsertedIs | data_struct/rb_tree.hpp:60-87 | inserting keeps the keys sorted and adds exactly one occurrence |
| RedBlackKeys.RemovedIs | data_struct/rb_tree.hpp:92-130 | removing keeps them sorted and takes out exactly one occurrence, or nothing |
| RedBlackKeys.Bushy | data_struct/rb_tree.hpp:32-55 | a subtree of black height h has at least 2^h - 1 nodes |
| RedBlackKeys.ShortPaths | data_struct/rb_tree.hpp:42-55 | no path is longer than 2*log2(n + 1) |
| RedBlackView.TextbookRedBlack | data_struct/rb_tree.hpp:15-28 | the nested tree the links spell out has a black top, no red node with a red kid, equally many black nodes on all paths, and lists the keys in order |
| PrimeSieve.Sieve.Euler | utility/math/prime.hpp:29-47 | in range if and only if the bound is not composite; then the table and list are those of the primes below it; each composite is crossed out exactly once, by its least prime factor; at most two inner steps per number |
| PrimeSieve.BoundFour | utility/math/prime.hpp:35-40 | with the bound 4 the linear sieve writes past the end |
| PrimeSieve.Sieve.EulerRow | utility/math/prime.hpp:35-45 | one row writes exactly the multiples by primes up to the least prime factor of i, and leaves the range only for a composite bound |
| PrimeSieve.Sieve.Eratosthenes | utility/math/prime.hpp:17-26 | the same table and list as the linear sieve |
| PrimeSieve.PrimesBelowIs | utility/math/prime.hpp:15-20 | the list is ascending and holds exactly the primes below the bound |
| Primes.LpfOfProduct | utility/math/prime.hpp:40-44 | the least prime factor of p * i is p when p is prime and not above that of i: why stopping at i % p == 0 crosses nothing twice |
| Primes.Cofactor | utility/math/prime.hpp:35-45 | every composite is its least prime factor times a number with no smaller prime factor: why nothing is missed |
| Primes.Euclid | utility/math/prime.hpp:42-44 | a prime that divides a product divides a factor |
| UnionFind.UnionFind.constructor | algo/union_find_v2.hpp:9-11 | every element is its own class, of rank one |
| UnionFind.UnionFind.Find | algo/union_find_v2.hpp:13-19 | returns the root, makes exactly the elements on the way up point to it, changes no element's root, and recurses at most log2(n) deep |
| UnionFind.UnionFind.Unite | algo/union_find_v2.hpp:21-36 | merges exactly the two classes, under the root of higher rank or, at a tie, the first one's, which then gains a rank |
| UnionFind.UnionFind.Connected | algo/union_find_v2.hpp:38-40 | true if and only if the equivalence closure of the united pairs relates x and y |
| UnionFind.Compressed | algo/union_find_v2.hpp:15 | pointing an element at its root keeps the forest and every root |
| UnionFind.LinkedMerged | algo/union_find_v2.hpp:28-35 | linking one root under the other merges their classes and no others |
| UnionFind.LinkedHeavy | algo/union_find_v2.hpp:28-35 | linking by rank keeps at least 2^(rank - 1) elements under every root |
| UnionFind.RankBound | algo/union_find_v2.hpp:9-36 | ranks grow towards the root and are at most 1 + log2(n) |
| UnionFind.UnitedRepresents | algo/union_find_v2.hpp:21-36 | merging two classes is adding a pair to the closure |
| UnionFind.RelatedTrans | algo/union_find_v2.hpp:38-40 | the closure is transitive |
| UnionFind.RelatedSym | algo/union_find_v2.hpp:38-40 | and symmetric |
| ThreadPool.StepInv | thread/thread_pool.hpp:14-54 | every step of every thread keeps mutual exclusion, the accounting of tasks, the absence of lost wakeups and the life cycle |
| ThreadPool.NoLostWakeup | thread/thread_pool.hpp:20-28 | whenever a task waits, some worker is awake or a notification is pending; and while a worker sleeps, each waiting task has a worker about to look at the queue, with no task of its own, or a notification to come |
| ThreadPool.TasksAreTheCallers | thread/thread_pool.hpp:36-43 | the tasks put into the queue are those AddTask was called with, each once, in the order in which the calls got the lock; the others are still carried by their calls |
| ThreadPool.StartOrder | thread/thread_pool.hpp:26-30 | tasks start in the order their calls pushed them, and each started one is running or finished, once |
| ThreadPool.MutualExclusion | thread/thread_pool.hpp:20-49 | at most one thread, worker, caller or destructor, is in a critical section |
| ThreadPool.JoinedMeansDone | thread/thread_pool.hpp:45-54 | when the joins are over every task AddTask was called with was executed exactly once, in the order of pushing, if and only if there is a worker or none was asked for |
| ThreadPool.EmptyPoolDropsTask | thread/thread_pool.hpp:14-54 | a run of a pool without workers that ends with its one task not executed |
| ThreadPool.SleeperExecutesTask | thread/thread_pool.hpp:14-54 | a whole run of a pool of one worker, asleep when its task comes, that executes it |
| ThreadPool.NoDeadlock | thread/thread_pool.hpp:14-54 | while a task, a call or the destructor is pending, some thread can move |
| ThreadPool.WorkShrinks | thread/thread_pool.hpp:14-54 | every step of the pool's threads lowers a non-negative measure |
| ThreadPool.BurstsEnd | thread/thread_pool.hpp:14-54 | so the pool comes to rest between calls |
| ThreadPool.DestructorCompletes | thread/thread_pool.hpp:45-54 | a pool that can move no further after its destructor began has joined all workers and executed every task asked for |
| RingBuffer.NextIsSlot | data_struct/buffer/ring_buffer.cpp:16 | masking with Capacity - 1 is moving on modulo Capacity, for every power of two |
| RingBuffer.StepInv | data_struct/buffer/ring_buffer.cpp:14-29 | every load, store and slot access keeps the invariant tying both indices, their stale views and the slots to the items |
| RingBuffer.FirstInFirstOut | data_struct/buffer/ring_buffer.cpp:14-29 | the popped items are, in order, the first of those the successful pushes were called with, and at most Capacity - 1 are stored |
| RingBuffer.PopsInOrder | data_struct/buffer/ring_buffer.cpp:23-28 | the i-th pop that succeeds hands out the item of the i-th push that did |
| RingBuffer.PushSucceeds | data_struct/buffer/ring_buffer.cpp:14-21 | from every state of every run with room, a push that sees the latest read index stores its item |
| RingBuffer.PopSucceeds | data_struct/buffer/ring_buffer.cpp:23-29 | and with an item in the ring a pop that sees the latest write index takes out the oldest |
| RingBuffer.WaitFree | data_struct/buffer/ring_buffer.cpp:14-29 | a call in progress can always take its next step, ends after at most four of them, and is not set back by the other side |
| RingBuffer.NoSharedSlot | data_struct/buffer/ring_buffer.cpp:18-26 | producer and consumer never touch the same slot at once |
| RingBuffer.Synchronised | data_struct/buffer/ring_buffer.cpp:17-27 | each slot access follows, through an index value that side has seen, the other side's last access to the slot |
| RingBuffer.IndicesInRange | data_struct/buffer/ring_buffer.cpp:18-26 | slot accesses are in range |
| RingBuffer.FailureIsExact | data_struct/buffer/ring_buffer.cpp:17-25 | a call fails exactly when the ring is full, or empty, in the view it loaded, and then changes nothing |
| Bits.AndOnes | data_struct/buffer/ring_buffer.cpp:16 | masking with 2^k - 1 is the remainder modulo 2^k |
| Bits.BitAnd | design/mode/states/ex_ver_3/mask_state_machine.hpp:123 | the number model of & on every bit |
| Bits.BitOr | design/mode/states/ex_ver_3/mask_state_machine.hpp:125 | of the or operator |
| Bits.BitNot | design/mode/states/ex_ver_3/mask_state_machine.hpp:123 | of ~ in a w-bit word |
| Bits.BitShl | design/mode/states/ex_ver_3/mask_state_machine.hpp:124 | of a left shift |
| Bits.BitShr | design/mode/states/ex_ver_3/mask_state_machine.hpp:137 | of a right shift |
| Bits.LowBits | design/mode/states/ex_combine_v3/state_machine.h:50 | of a conversion to a narrower unsigned type |
| Bits.ShrIsQuotient | design/mode/states/ex_ver_3/mask_state_machine.hpp:137 | which is division by 2^k |
| Bits.BitIsDigit | design/mode/states/ex_ver_3/mask_state_machine.hpp:151-153 | bit i is the i-th binary digit |
| Fields.FieldMaskBit | design/mode/states/ex_ver_3/mask_state_machine.hpp:141-147 | the field mask has exactly the field's bits, the whole word included |
| Fields.SetBit | design/mode/states/ex_ver_3/mask_state_machine.hpp:122-126 | writing a field puts the value's bits into it and leaves every other bit alone |
| Fields.SetFits | design/mode/states/ex_ver_3/mask_state_machine.hpp:122-126 | the result fits the word |
| Fields.GetAfterSet | design/mode/states/ex_ver_3/mask_state_machine.hpp:115-138 | reading a written field gives the value, cut to the width |
| Fields.GetOther | design/mode/states/ex_ver_3/mask_state_machine.hpp:115-138 | no disjoint field changes |
| Fields.SetGet | design/mode/states/ex_ver_3/mask_state_machine.hpp:115-138 | writing back what a field holds changes nothing |
| Fields.GetFits | design/mode/states/ex_ver_3/mask_state_machine.hpp:132-138 | what is read fits the width |
| MaskCas.StepInv | design/mode/states/ex_ver_3/mask_state_machine.hpp:75-166 | every load, computation, compare-and-swap, callback and subscription keeps the invariant |
| MaskCas.CallsAreInvoked | design/mode/states/ex_ver_3/mask_state_machine.hpp:83-129 | every invocation works on the call that was made, with its own function, validator and field |
| MaskCas.CommitsAreGenuine | design/mode/states/ex_ver_3/mask_state_machine.hpp:87-98 | the changes of the word form one chain; each is compute(old), cut to the word, or the old word with the value's bits in the field, for the old word it really replaced, and validator(old, new) held for that very pair |
| MaskCas.OutcomesAreTrue | design/mode/states/ex_ver_3/mask_state_machine.hpp:83-129 | true means committed exactly once, on the word returned; false that validator(old, new) was false for the word returned and what the call makes of it; the range error comes exactly for an empty field or one that does not fit; in the last two cases nothing was committed |
| MaskCas.UpdateAlone | design/mode/states/ex_ver_3/mask_state_machine.hpp:83-101 | an update that meets no other call returns true with compute(old) in the word, or false with the word as it was, as its validator decides |
| MaskCas.RetriesArePaidFor | design/mode/states/ex_ver_3/mask_state_machine.hpp:87-99 | a call is overtaken no more often than others have committed since it first read the word |
| MaskCas.NoWriteIsLost | design/mode/states/ex_ver_3/mask_state_machine.hpp:115-129 | under any interleaving of field writes each bit is the one the last committed write covering it put there |
| MaskCas.WrittenFieldReads | design/mode/states/ex_ver_3/mask_state_machine.hpp:115-138 | a committed field write is what the field reads as until another commit touches it, whatever happens to the rest of the word |
| MaskCas.OneOrder | design/mode/states/ex_ver_3/mask_state_machine.hpp:156-166 | all observers are told of changes in one common order, each from its subscription on |
| MaskCas.ObserversGetTheCommits | design/mode/states/ex_ver_3/mask_state_machine.hpp:96 | once no call is notifying, an observer subscribed from the start has received exactly the committed pairs |
| MaskCas.NoDeadlock | design/mode/states/ex_ver_3/mask_state_machine.hpp:83-166 | while a call has not returned, some call can take a step |
| MaskCas.BurstsEnd | design/mode/states/ex_ver_3/mask_state_machine.hpp:83-101 | lock-free: without new calls and spurious failures only boundedly many steps can follow |
| MaxTotal.MaxTotal | craft/class/multi_definition/test2.cpp:12-52 | the result is the sum over every limit l of its l largest values, and a valid order of activation gains it |
| MaxTotal.FillBuckets | craft/class/multi_definition/test2.cpp:15-18 | each bucket holds the values with its limit |
| MaxTotal.FindAvailable | craft/class/multi_definition/test2.cpp:20-23 | the limits of the non-empty buckets, bucket 0 left out |
| MaxTotal.Round | craft/class/multi_definition/test2.cpp:29-48 | one round is a greedy activation under the rules |
| MaxTotal.DropAvailable | craft/class/multi_definition/test2.cpp:41-43 | exactly the limits up to the new count go |
| MaxTotal.DropActive | craft/class/multi_definition/test2.cpp:45-48 | exactly the active limits up to the new count go, and are counted out |
| MaxTotal.TopSumIsBest | craft/class/multi_definition/test2.cpp:33-34 | no k values of a bucket add up to more than the sum of its k largest |
| MaxTotal.TopSumIsAttained | craft/class/multi_definition/test2.cpp:33-34 | and some min(k, size) of them add up to it |
| MaxTotal.NoOrderBeatsBound | craft/class/multi_definition/test2.cpp:29-49 | no order of activation gains more than the non-negative tops of all buckets |
| MaxTotal.OptimumIsMaximum | craft/class/multi_definition/test2.cpp:12-52 | which some order reaches, whatever the values |
| MaxTotal.ResultIsMaximumIff | craft/class/multi_definition/test2.cpp:12-52 | the algorithm's result is the maximum over all orders if and only if no bucket makes it take a negative value; always for non-negative values |
| MaxTotal.NegativeValueCosts | craft/class/multi_definition/test2.cpp:29-34 | one item of value -1 makes it fall short of an order that activates nothing |
| CountPartitions.CountPartitions | test/algo/byte/test3.cpp:16-44 | the window runs empty if and only if k is negative and the array is not; otherwise the result is the number of cuts into non-empty contiguous segments of spread at most k, modulo 1000000007, with no 32-bit overflow as long as the differences within the windows looked at fit |
| CountPartitions.CutsAreCuts | test/algo/byte/test3.cpp:16-44 | the recursion behind the table lists exactly the cuts, defined by their segments |
| CountPartitions.CutsSpelledOut | test/algo/byte/test3.cpp:16-44 | the same by elements: increasing starting places from 0, no two elements of one segment more than k apart |
| CountPartitions.OwnArrays | test/algo/byte/test3.cpp:47-59 | six cuts of the first array of the source's main, two of the second |
| CountPartitions.WaysByWindow | test/algo/byte/test3.cpp:36-37 | one cell is the difference of two prefix sums at the window's left end |
| CountPartitions.Tighten | test/algo/byte/test3.cpp:30-33 | the window shrinks to the first narrow start, and runs empty if and only if k is negative |
| CountPartitions.Spread | test/algo/byte/test3.cpp:30 | the ends of the multiset decide whether the window is narrow |
| CountPartitions.Fill | test/algo/byte/test3.cpp:36-40 | one step of dp and pre |
| CountPartitions.Subtract | test/algo/byte/test3.cpp:37 | the modular difference is right and does not overflow |
| CountPartitions.Add | test/algo/byte/test3.cpp:40 | so is the modular sum |
| CountPartitions.NegativeHasNoCuts | test/algo/byte/test3.cpp:30 | with a negative k a non-empty array has no cut |
| CountPartitions.DistantElements | test/algo/byte/test3.cpp:30 | elements further apart than 32 bits allow do no harm if no window holds both |
| SegmentTree.SegmentTree.Build | data_struct/segment_tree.hpp:15-26 | every node of the subtree holds the sum of its range, and no cell outside the subtree changes |
| SegmentTree.SegmentTree.GetSum | data_struct/segment_tree.hpp:29-51 | the sum of the queried part of the node's range |
| SegmentTree.SegmentTree.BuildAndQuery | data_struct/segment_tree.hpp:5-51 | on 2^(ceil(lg n) + 1) cells, building and then querying gives the plain sum of a[l..r] |
| SegmentTree.NodeCount | data_struct/segment_tree.hpp:8 | a tree over n leaves has 2n - 1 nodes |
| SegmentTree.SubtreesDisjoint | data_struct/segment_tree.hpp:22-25 | the two subtrees use disjoint cells, and not the node's own |
| SegmentTree.IndexBound | data_struct/segment_tree.hpp:5-6 | every index is below 2^(ceil(lg n) + 1), and that is at most 4n |
| SegmentTree.HeightIsLog | data_struct/segment_tree.hpp:5 | the height is the logarithm rounded up |
| DeviceStates.SetThenGet | design/mode/states/ex_combine_v3/state_machine.h:49-62 | reading a device just set gives the value cut to the field |
| DeviceStates.SetKeepsOthers | design/mode/states/ex_combine_v3/state_machine.h:54-62 | no other device changes |
| DeviceStates.GetIsField | design/mode/states/ex_combine_v3/state_machine.h:38-51 | shifting before masking reads the field |
| DeviceStates.MakeMask | design/mode/states/ex_combine_v3/state_machine.h:65-71 | a well-formed mask that decodes to the given states, each cut to its field, with bit q of state i at i * bits + q |
| DeviceStates.MaskBit | design/mode/states/ex_combine_v3/state_machine.h:44-71 | those are all the bits of the mask |
| DeviceStates.StateBit | design/mode/states/ex_combine_v3/state_machine.h:38-51 | bit q of a device's state is bit i * bits + q of the mask, below the device's width and 32 |
| DeviceStates.DecodeMask | design/mode/states/ex_combine_v3/state_machine.h:74-80 | all device states in order |
| DeviceStates.DecodeMade | design/mode/states/ex_combine_v3/state_machine.h:65-80 | decoding inverts encoding up to truncation |
| DeviceStates.MakeDecoded | design/mode/states/ex_combine_v3/state_machine.h:65-80 | encoding inverts decoding on well-formed masks of at most 32 bits a device |
| DeviceStates.StatesDetermine | design/mode/states/ex_combine_v3/state_machine.h:49-51 | such a mask is determined by its states |
| DeviceStates.CanTransitionNoDowngrade | design/mode/states/ex_combine_v3/state_machine.h:99-106 | true if and only if no device goes down |
| DeviceStates.NoDowngradeIsPreorder | design/mode/states/ex_combine_v3/state_machine.h:99-106 | reflexive and transitive on all masks |
| DeviceStates.NoDowngradeIsOrderIff | design/mode/states/ex_combine_v3/state_machine.h:99-106 | antisymmetric on well-formed masks if and only if a device has at most 32 bits |
| DeviceStates.ClampNoDowngrade | design/mode/states/ex_combine_v3/state_machine.h:109-118 | the mask of the device-wise larger states |
| DeviceStates.ClampIsLeastUpperBound | design/mode/states/ex_combine_v3/state_machine.h:109-118 | which is well formed and the least upper bound of the two masks |
| DeviceStates.ClampKeepsAllowed | design/mode/states/ex_combine_v3/state_machine.h:99-118 | clamping leaves a desired mask as it is if and only if the transition is allowed |
| QuickSelect.QuickSelect | other/quick_select.hpp:9-38 | the element at position k of the range after sorting it by <=, rearranging only the range |
| QuickSelect.QuickSelectDecrease | other/quick_select.hpp:42-71 | the same after sorting by >= |
| QuickSelect.Select | other/quick_select.hpp:9-38 | the recursion, for either order; terminates |
| QuickSelect.Partition | other/quick_select.hpp:15-31 | splits at left <= r < right with nothing after r before anything up to r |
| QuickSelect.ScanRight | other/quick_select.hpp:20-22 | stays in the range and stops at the first element not before the pivot |
| QuickSelect.ScanLeft | other/quick_select.hpp:24-26 | the mirror image |
| QuickSelect.Round | other/quick_select.hpp:19-31 | one round of the loop keeps both sides parted, or ends it |
| QuickSelect.KthIsSorted | other/quick_select.hpp:8-38 | rank k means position k of every arrangement sorted by <=, or by >= |
| QuickSelect.Arrangements | other/quick_select.hpp:8-38 | such arrangements exist for all elements |
| QuickSelect.KthUnique | other/quick_select.hpp:8-38 | at most one value has rank k |
| QuickSelect.KthSplits | other/quick_select.hpp:33-37 | the rank is found on the side the recursion takes |
| EventMask.MaskAndStateMachine.Post | craft/states/multi_event/test.cpp:43-53 | collects the event, starts the clock for a first one and tries the rules |
| EventMask.MaskAndStateMachine.Tick | craft/states/multi_event/test.cpp:56-70 | drops the events exactly if a windowed rule of the state has timed out in whole milliseconds |
| EventMask.MaskAndStateMachine.TryTransition | craft/states/multi_event/test.cpp:73-108 | fires the first rule that is met, dropping expired events on the way |
| EventMask.TryExactly | craft/states/multi_event/test.cpp:73-108 | the first rule of the state that is met or expired decides: met in time it fires; expired, all events are dropped and only a later rule that requires none can fire, the first such; without one nothing changes |
| EventMaskPosts.MetInTimeFires | craft/states/multi_event/test.cpp:43-103 | the first rule of the state whose events are all collected or just posted fires if neither it nor an earlier one has run out of its window * 1000000 ns; the events left are none, or those it does not require, bit by bit |
| EventMaskPosts.LateDrops | craft/states/multi_event/test.cpp:78-103 | if the first such rule has run out instead, all events are dropped and only a later rule that requires none can fire |
| EventMaskPosts.UnmetWaits | craft/states/multi_event/test.cpp:43-53 | without such a rule the event is added to the collected ones and nothing else happens |
| EventMaskPosts.TickExactly | craft/states/multi_event/test.cpp:56-70 | a tick drops the events if and only if a rule of the state has a window over by a whole millisecond |
| EventMaskRuns.RunKeeps | craft/states/multi_event/test.cpp:43-108 | in every run the collected events are those the last transition left and those posted since, the clock started before the latter, and each left event was kept by a reachable rule that carries it |
| EventMaskRuns.OwnRun | craft/states/multi_event/test.cpp:126-155 | the run of the source's main: A, and B after 120 ms within 500, lead to Arming, B and C to Active |
| EventMaskRuns.FiresFreshIffReposted | craft/states/multi_event/test.cpp:43-108 | in every run a rule with a window fires on events of its own round, within its window, if and only if those it requires among the left ones were posted again |
| EventMaskRuns.AlwaysFreshIff | craft/states/multi_event/test.cpp:43-108 | it does so in every run if and only if the table, from the start state, does not leak |
| EventMaskRuns.LeakRun | craft/states/multi_event/test.cpp:73-103 | a leaky table has a run that fires a windowed rule on an event not posted again |
| EventMaskRuns.TightIsFresh | craft/states/multi_event/test.cpp:43-108 | a table that does not leak has none |
| EventMaskRuns.ClearingIsFresh | craft/states/multi_event/test.cpp:96-98 | in particular when every rule into a state with a windowed rule clears |
| EventMaskRuns.HarmlessLeftover | craft/states/multi_event/test.cpp:98-101 | a table that leaves events behind and yet does not leak |
| EventMaskRuns.LatePostIsLost | craft/states/multi_event/test.cpp:78-85 | an event posted after the window is dropped with the expired ones |
| EventMaskRuns.LateEventNeverFires | craft/states/multi_event/test.cpp:78-85 | two events within a window that do not fire the rule for both, because an expired one came before |
| EventMask.TickDropsOnlyExpired | craft/states/multi_event/test.cpp:56-86 | a tick drops only what an attempt at that time would find expired |
| EventMaskRuns.StaleEventFires | craft/states/multi_event/test.cpp:98-103 | a concrete run in which a rule that does not clear lets a ten-second-old event meet a half-second window |
| PriorityQueue.PriorityQueue.HeapifyUp | queue/priority_queue.hpp:18-30 | repairs a heap whose last element may be too low in the tree, keeping the contents |
| PriorityQueue.PriorityQueue.HeapifyDown | queue/priority_queue.hpp:35-52 | repairs a heap whose element at index may be too high, keeping the contents |
| PriorityQueue.PriorityQueue.Push | queue/priority_queue.hpp:58-62 | keeps the heap and adds exactly the value |
| PriorityQueue.PriorityQueue.Pop | queue/priority_queue.hpp:64-76 | takes out one element that no other is above, or reports an empty queue and changes nothing |
| PriorityQueue.PriorityQueue.Top | queue/priority_queue.hpp:78-83 | an element that no other is above, or the error |
| PriorityQueue.PriorityQueue.Drain | queue/priority_queue.hpp:64-83 | popping to empty yields a sorted permutation of what was stored |
| PriorityQueue.StepUp | queue/priority_queue.hpp:21-25 | one swap upwards moves the only defect to the parent |
| PriorityQueue.StepDown | queue/priority_queue.hpp:40-51 | one swap downwards moves it to the larger child |
| PriorityQueue.FirstIsTop | queue/priority_queue.hpp:78-83 | in a heap nothing is above the first element, for every strict weak order |

## Left out

- The other red-black variants under `data_struct/rb_tree/`, which deviate from the intended algorithm.
- The red-black tree's key type is `int` instead of a template parameter; `InOrder`, `Print` and `Destroy` are not modelled, and `delete` is modelled by dropping the node from the tree's node set.
- Integer widths where they are not the point: node keys, union-find indices, segment tree sums, `maxTotal`'s `long long` and the sieve's `i * i` are unbounded. `countPartitions`, the 32-bit masks and device states have their widths.
- Real threads, memory orders weaker than the modelled stale views of an index, and destruction of the pool while `AddTask` calls are in progress. Tasks are opaque: a task that itself adds tasks, or throws, is not modelled.
- `push_bulk` and `pop_bulk` of the ring, and a ring of capacity 0.
- `store`, `fetch_or`, `fetch_and`, `register_bitinfo` and `dump` of the mask machine; `set_field_atomic` where the check passes with a width of the whole word or more, which shifts by at least the word's size and is undefined. Compute functions, validators and observers are taken to return.
- `addMapping`, `findFinalState`, `getNextMask` (a call of `clampNoDowngrade`) and `printStateTable` of the device states.
- The ghost parameters of `DeleteFixup` name the parent and side of x, which the source reads from `x->parent`, because the sentinel has no place of its own in the tree.
- Loop bodies and branches that are long in one piece are methods of their own (`MaxTotal.Round`, `QuickSelect.Round`, the cases of the two fixups), called where the source has them inline.
- Files that have no faithful correct property or would only add easy members: loser tree, bloom filter, matrix code, smart pointers, codecs, pools, tries, demos, sockets, generated code.
