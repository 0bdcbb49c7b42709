# Verified cores of the Kobalt kernel

Kobalt is an x86_64 kernel in C. This project models its self-contained cores in Dafny and proves, for all
inputs and all runs, what they are for. Everything here is a statement about the models.

## What is modelled

- **Red-black tree** (`RbShape`, `RbTree`, `OrderedSeq`). Nodes are heap objects with left, right and parent pointers
  and a colour, rewritten in place by the methods of class `RbTree` just as rbtree.c does it. A ghost tree and a ghost
  path say what the pointers mean; insertion and erasure are specified by the in-order sequence.
- **Scheduler** (`SchedModel`, `SchedInv`, `SchedFair`, `SchedChoice`, `Scheduler`, `RunqueueTree`, `RunqueueForest`).
  Each locked section of sched.c is one step of a state machine over runqueues as sequences; the scans of load_balance
  and sched_thread_create, which take no lock, may choose any CPU. Class `Scheduler` does the same imperatively on one
  linked red-black tree per CPU, and every method keeps every tree in order with its queue. Virtual time is a
  mathematical integer; the `INT64_MAX` sentinel of the scans is an option; thread ids do not wrap.
- **Cryptography** (`Bits`, `BitLaws`, `Bytes`, `Poly1305Limbs`, `Poly1305`, `Sha256`, `Sha256Laws`, `Hmac`,
  `ChaCha20`, `ChaCha20Laws`, `Aead`). Machine words are numbers with explicit wrap-around, bit operations are
  functions on them. The references are sections 2.3 to 2.8 of RFC 8439, sections 5.1.1 and 6.2 of FIPS 180-4 and
  section 2 of RFC 2104. The SHA-256 length field is the bit count modulo 2^64, as the code keeps it.
- **Protocols** (`TicketLock`, `Ipi`, `IpiProgress`). Every atomic instruction, or every access to shared memory, is
  one step; runs are arbitrary interleavings of any number of CPUs. `g_ipi_lock` is a mutual-exclusion lock in `Ipi`.
  A TLB entry remembers when it was loaded and whether it is global; a CR3 reload keeps global entries, because the
  kernel runs with CR4.PGE.
- **Heap** (`KmallocLayout`, `Kmalloc`, `KmallocInv`, `KmallocFree`, `KmallocHeap`). Pointers are offsets into the
  pool; links live in the free objects; block ends are computed in 64-bit addresses. The steps of a run are the locked
  sections, so the calls of several CPUs interleave. Clients may write anything into blocks they hold.
- **Huge pages** (`Hugepage`, `HugepageMap`). Memory is the words of the table frames and the specification is the
  processor's four-level walk, 4K pages included. kmalloc is a parameter that yields an unused page-aligned frame or
  fails.
- **Virtqueues** (`Virtq`, `VirtqInv`, `VirtqSize`, `VirtqDriver`, `VirtqRx`). The device is a second party that takes
  heads in order and returns each one once, in any order.
- **Swap** (`Swap`, `SwapInv`, `SwapOverlap`, `SwapSystem`). Block devices are sector arrays; I/O and allocation
  failures are parameters. The steps of a run are the locked sections and the transfers, so the calls of several CPUs
  interleave.

Some promises turn out to need a condition, which is proved exact:

- The ticket lock excludes for up to and including 65536 CPUs, and for no more (`TicketLock.ExclusionBound`).
- A TLB shootdown leaves every CPU fresh exactly when it is ranged or no page is global; after a full flush, which
  only reloads CR3, global entries can survive everywhere (`Ipi.FreshExactly`, `Ipi.GlobalSurvives`). Asking for the
  page at address 0 is asking for a full flush.
- kmalloc_node hands out a block outside the pool exactly when the first node that does not refuse computes an end
  that wraps around 2^64 to an address it accepts (`KmallocInv.AllocExact`, `KmallocInv.CallExact`, and
  `KmallocInv.BumpExact` for one section). `NoWrap` is a condition on the size alone that rules this out, and
  `OversizeGranted` is such a request.
- hugepage_unmap does not look at the page-size bit, so inside a 1G page it clears a word of that page. Whatever that
  word is, exactly the addresses whose walks read it are lost (`HugepageMap.UnmapEffect`); the page asked for is gone
  exactly outside 1G pages or when all its addresses are among them (`HugepageMap.UnmapExact`,
  `HugepageMap.UnmapInside1G`).
- A huge-page mapping targets the page asked for exactly when the physical address has at most 52 bits
  (`Hugepage.TargetExact`).
- sched_migrate keeps the runqueues consistent exactly for threads that are neither running nor idle
  (`SchedInv.MigrateExact`, `SchedInv.MigrateRunning`); of a ready idle thread it loses every thread that waits on the
  old CPU (`SchedChoice.MigrateMoves`, `RbTrees.RbTree.EraseLoose`).
- A swap device keeps pages safe, in everything that may follow, exactly when its sectors are its own
  (`SwapOverlap.AddExact`, `SwapInv.OverlapLoses`).
- virtq_init takes any size the device offers, and the 16-bit ring index wraps in the middle of the ring. Transmitted
  frames are delivered in all runs exactly when 2^16 modulo the size is zero or at least half the size
  (`VirtqSize.SizeExact`); receive buffers stay apart exactly when it is zero (`VirtqRx.RxSizeExact`).
- kfree keeps the heap sound for every pointer but the address of a free object whose cache has one that is held
  (`KmallocFree.FreeExact`).
- A TLB shootdown or cross-CPU call in flight always has a next step, and ends after a bounded number of them. Only a
  call without a function never returns (`IpiProgress.AlwaysProgress`, `IpiProgress.NullCallWaits`).
- The key-stream block of the one-time key is used again exactly for messages over 64 (2^32 - 1) bytes
  (`Aead.KeyBlockReused`).

`dafny verify dfyconfig.toml` checks the whole project.

## Model

| member | source | states |
|---|---|---|
| `RbTrees.RbTree.Insert` | src/kern/rbtree.c:106-120 | for any total preorder, the links and colours are again those of a red-black tree, whose in-order sequence is the old one with the node put just after every node it does not compare below |
| `RbTrees.RbTree.Erase` | src/kern/rbtree.c:205-245 | for every valid tree and every node in it, the result is a red-black tree whose in-order sequence is the old one without exactly that node, in all three cases of the deletion |
| `RbTrees.RbTree.EraseLoose` | src/kern/rbtree.c:205-244 | erasing a node that was never linked empties the tree |
| `RbTrees.RbTree.FindPlace` | src/kern/rbtree.c:109-114 | the descent ends at the one free place with every node not above the new one on its left and the next node above it on its right |
| `RbTrees.RbTree.LinkNew` | src/kern/rbtree.c:116-118 | the new node, red and without children, is the leaf at that place and every other link is as before |
| `RbTrees.RbTree.InsertFixup` | src/kern/rbtree.c:58-104 | terminates from any tree whose only fault is a red node under a red parent, restores every red-black rule and keeps the in-order sequence |
| `RbTrees.RbTree.Flip` | src/kern/rbtree.c:72-76 | parent and uncle turn black and the grandparent red, nothing else |
| `RbTrees.RbTree.RotateCaseLeft` | src/kern/rbtree.c:77-84 | black uncle, parent on the left: one or two rotations end the fault |
| `RbTrees.RbTree.RotateCaseRight` | src/kern/rbtree.c:92-99 | black uncle, parent on the right: one or two rotations end the fault |
| `RbTrees.RbTree.BlackenRoot` | src/kern/rbtree.c:103-103 | painting the root black removes the last possible fault and keeps the sequence |
| `RbTrees.RbTree.RotateLeft` | src/kern/rbtree.c:24-39 | all parent, child and root pointers describe the left rotation of the subtree, wherever it sits |
| `RbTrees.RbTree.RotateRight` | src/kern/rbtree.c:41-56 | all parent, child and root pointers describe the right rotation of the subtree, wherever it sits |
| `RbTrees.RbTree.DeleteFixup` | src/kern/rbtree.c:134-203 | terminates from any tree one black short at one place, null places included, and ends in a red-black tree with the same in-order sequence |
| `RbTrees.RbTree.FixLeft` | src/kern/rbtree.c:139-170 | one round for a left child: the shortage is gone or has moved up by one, and the in-order sequence is kept |
| `RbTrees.RbTree.FixRight` | src/kern/rbtree.c:171-200 | one round for a right child: the shortage is gone or has moved up by one, and the in-order sequence is kept |
| `RbTrees.RbTree.Transplant` | src/kern/rbtree.c:122-132 | the place of one node is taken by another node or by nothing, and nothing else changes but the parent pointers concerned |
| `RbTrees.RbTree.Unlink` | src/kern/rbtree.c:210-241 | what is left after unlinking spells the sequence without the node, and is a red-black tree or one black short at the place reported to the fixup |
| `RbTrees.RbTree.UnlinkInner` | src/kern/rbtree.c:220-241 | a node with two children is replaced by its successor, which takes over its place, children and colour |
| `RbTrees.RbTree.First` | src/kern/rbtree.c:247-253 | the first node of the in-order sequence, null exactly for the empty tree |
| `RbTrees.RbTree.Next` | src/kern/rbtree.c:255-266 | the node at the next position of the in-order sequence, null exactly after the last |
| `RbTrees.RbTree.Last` | src/kern/sched.c:205-206 | the descent to the right ends at the last node of the in-order sequence, null exactly for the empty tree |
| `RbTrees.InsertUncle` | src/kern/rbtree.c:72-76 | recolouring under a red uncle moves the fault two levels up and leaves all black heights equal |
| `RbTrees.InsertRotated` | src/kern/rbtree.c:77-99 | after the rotations no red node has a red parent and all black heights are equal |
| `RbTrees.BlackSibling` | src/kern/rbtree.c:149-154 | painting a black sibling with black children red moves the shortage to the parent |
| `RbTrees.SpliceColours` | src/kern/rbtree.c:210-219 | taking out a node with at most one child leaves a red-black tree if it was red, and one black short at its place if it was black |
| `RbTrees.InnerColours` | src/kern/rbtree.c:220-241 | the same for a node with two children, by the colour of its successor |
| `RbTrees.InorderNoDup` | src/kern/rbtree.c:247-266 | the walk visits no node twice |
| `RbTrees.LogarithmicHeight` | src/kern/rbtree.c:58-104 | no path of an n-node red-black tree is longer than 2 log2(n + 1) |
| `OrderedSeq.InsertByOrdered` | src/kern/rbtree.c:106-120 | inserting in this way keeps a sequence ordered |
| `OrderedSeq.InsertByAt` | src/kern/rbtree.c:109-114 | the place found by comparisons is the place of the insertion |
| `OrderedSeq.WithoutKeeps` | src/kern/rbtree.c:205-245 | removal keeps the order and exactly the other elements |
| `SchedInv.PickIsLeftmost` | src/kern/sched.c:132-151 | the eligibility scan with its fallback scan picks the leftmost node, and idle exactly when the tree is empty, whenever the queue invariant holds |
| `SchedInv.StepInv` | src/kern/sched.c:96-221 | every step keeps the invariant: deadlines are start plus slice, starts are the runtime or not after the clock, queues are ordered and counted, every thread is where its state says |
| `SchedInv.RunInv` | src/kern/sched.c:96-495 | that invariant holds in every state of every run |
| `SchedInv.RunPicksLeftmost` | src/kern/sched.c:132-151 | in every reachable state pick_next returns the leftmost node, and idle exactly when the tree is empty |
| `SchedInv.RunConserves` | src/kern/sched.c:96-130 | in every reachable state each non-idle thread is in exactly one place, no idle thread is queued, and every counter equals its tree size |
| `SchedInv.PickIgnoresStates` | src/kern/sched.c:348-371 | the choice does not depend on thread states, so it may be made before or after the state is written |
| `SchedInv.TickInv` | src/kern/sched.c:453-495 | a tick keeps the invariant |
| `SchedInv.YieldInv` | src/kern/sched.c:380-403 | a yield keeps the invariant |
| `SchedInv.LeaveInv` | src/kern/sched.c:405-419 | blocking and exiting keep the invariant |
| `SchedInv.UnblockInv` | src/kern/sched.c:421-438 | waking keeps the invariant |
| `SchedInv.CreateInv` | src/kern/sched.c:303-346 | thread creation keeps the invariant, whichever CPU that is up the unlocked scan chose |
| `SchedInv.BalanceInv` | src/kern/sched.c:186-221 | load balancing keeps the invariant, whichever other CPU the unlocked scan of the counters chose |
| `SchedInv.MigrateExact` | src/kern/sched.c:558-587 | for every thread and CPU: the invariant survives exactly when the call has no effect or the thread is neither running nor idle |
| `SchedInv.MigrateRunning` | src/kern/sched.c:558-587 | a reachable state in which migrating the running boot thread breaks the invariant |
| `SchedInv.BringUpInv` | src/kern/sched.c:286-301 | bringing up a CPU keeps the invariant |
| `SchedFair.RunFair` | src/kern/sched.c:453-495 | in every run of ticks and creations, while a non-idle thread runs, every queued deadline is within one slice after its own and the clock within one slice before it |
| `SchedFair.TickEffect` | src/kern/sched.c:453-495 | a tick charges the running thread up to its deadline, puts it into the queue one slice later by the new deadlines and takes out and runs the leftmost thread; no other deadline or runtime changes and the clock stays between known bounds |
| `SchedFair.TickTouches` | src/kern/sched.c:453-495 | a tick changes nothing on other CPUs |
| `SchedFair.TickAhead` | src/kern/sched.c:453-495 | each tick brings every waiting thread exactly one turn closer |
| `SchedFair.BoundedWait` | src/kern/sched.c:453-495 | with n runnable threads on a CPU, a queued thread is dispatched there within any row of ticks, on whatever CPUs, that has at least 2(n - 1) on that one |
| `SchedFair.ClockMonotone` | src/kern/sched.c:122-130 | no step turns back the clock of a CPU that is up |
| `SchedChoice.MinVrLeast` | src/kern/sched.c:108-120 | rq_min_vr is the least runtime of the queue and the running non-idle thread, and the old clock if there is none |
| `SchedChoice.RaiseAdvances` | src/kern/sched.c:124-125 | the clock becomes the later of the old one and the earliest runtime of the queue and the running non-idle thread |
| `SchedChoice.AdvancedOnce` | src/kern/sched.c:124-125 | there is only one such clock |
| `SchedChoice.LeastLoadedFirst` | src/kern/sched.c:325-331 | the CPU chosen for a new thread is the first of those that are up with the fewest queued threads |
| `SchedChoice.BusiestFirst` | src/kern/sched.c:189-195 | the CPU balancing takes from is the first of the others with the most queued threads, if more than one |
| `SchedChoice.TickOtherwise` | src/kern/sched.c:453-495 | a tick on an idle CPU gives it to the leftmost thread if there is one, and else only charges the idle thread; a thread alone keeps the CPU and gets a new slice, and the clock is the later of the old one and the earliest runtime there; nothing else changes |
| `SchedChoice.TickHandsOver` | src/kern/sched.c:453-495 | while another thread waits, a tick charges the slice and the leftmost thread takes over; the other one waits again in deadline order from the later of its runtime and the new clock, which is the later of the old one and the earliest runtime there; nothing else changes |
| `SchedChoice.CreatePlaces` | src/kern/sched.c:303-346 | a new thread starts with no runtime and joins the queue of any chosen CPU that is up, in deadline order and not before the clock, which becomes the later of the old one and the earliest runtime there; nothing else changes |
| `SchedChoice.MigrateMoves` | src/kern/sched.c:558-587 | for every thread and CPU: a queued thread leaves one queue and joins the other in deadline order, with its runtime and not before the clock there; one that is not ready is only relabelled; a CPU that is not up changes nothing; an idle thread that is ready is queued on the new CPU, and every thread that waited on the old one is left ready but in no queue, with the counter one lower; no clock and no running thread changes |
| `SchedChoice.YieldHandsOver` | src/kern/sched.c:380-403 | a yield charges a full slice and the leftmost thread takes over; the other one waits again in deadline order from the later of its runtime and the new clock, which is the later of the old one and the earliest runtime there; alone it only renews the deadline; nothing else changes |
| `SchedChoice.LeaveHandsOver` | src/kern/sched.c:405-419 | a thread that blocks or exits leaves the CPU to the leftmost thread or to idle; nothing else changes, the clock included |
| `SchedChoice.UnblockWakes` | src/kern/sched.c:421-438 | a blocked thread joins the queue of its own CPU, in deadline order and not before the clock, which becomes the later of the old one and the earliest runtime there; nothing else changes; waking any other thread does nothing |
| `SchedChoice.BalanceMoves` | src/kern/sched.c:186-221 | the last thread of the chosen queue, if more than one waits there and both locks are free, leaves it and joins the other queue in deadline order, with its runtime and not before the clock there; nothing else changes, no clock and no running thread |
| `SchedChoice.InitStarts` | src/kern/sched.c:257-284 | the boot thread has CPU 0 to itself for one slice, its idle thread is ready, and no other CPU is up |
| `SchedChoice.BringUpIdles` | src/kern/sched.c:286-301 | a CPU comes up idle with a new thread, an empty queue and its clock at zero, and nothing else changes |
| `Schedulers.Scheduler.RqMinVr` | src/kern/sched.c:108-120 | the walk over the tree finds the least runtime of queue and running thread |
| `Schedulers.Scheduler.EnqueueThread` | src/kern/sched.c:122-130 | raises the clock and queues the thread: the tree of the CPU is in order with the new queue, every other tree untouched |
| `Schedulers.Scheduler.Pick` | src/kern/sched.c:132-151 | the two walks over the tree find the choice of pick_next, by the invariant the leftmost node or idle |
| `Schedulers.Scheduler.SchedTick` | src/kern/sched.c:453-495 | performs the tick step on the linked trees; afterwards every CPU's tree is again a red-black tree in order with its queue, and the scheduler invariant holds |
| `Schedulers.Scheduler.SchedYield` | src/kern/sched.c:380-403 | performs the yield step on the trees, for any running thread; the invariant survives unless the idle thread yields |
| `Schedulers.Scheduler.SchedBlock` | src/kern/sched.c:405-419 | performs the block step on the trees; the invariant survives unless the idle thread blocks |
| `Schedulers.Scheduler.SchedThreadExit` | src/kern/sched.c:348-371 | performs the exit step on the trees; the invariant survives unless the idle thread exits |
| `Schedulers.Scheduler.SchedUnblock` | src/kern/sched.c:421-438 | performs the wake step on the trees and keeps the invariant |
| `Schedulers.Scheduler.ChooseCpu` | src/kern/sched.c:325-330 | the loop over the counters finds the first CPU that is up with the fewest queued threads |
| `Schedulers.Scheduler.SchedThreadCreate` | src/kern/sched.c:303-346 | performs the create step for any CPU the scan chose; the new thread brings a new node; a failed allocation changes nothing |
| `Schedulers.Scheduler.BusiestCpu` | src/kern/sched.c:189-195 | the loop over the counters finds the first other CPU with the most queued threads, if more than one |
| `Schedulers.Scheduler.Balance` | src/kern/sched.c:186-221 | moves the rightmost node of the chosen tree to the other tree, under the counter test and both locks; every tree stays in order with its queue |
| `Schedulers.Scheduler.SchedMigrate` | src/kern/sched.c:558-587 | performs the migrate step on the trees for every thread, the idle thread with its unlinked node included, and the invariant survives exactly when nothing moved or the thread is neither running nor idle |
| `Schedulers.Scheduler.SchedApInit` | src/kern/sched.c:286-301 | clears the runqueue, adds its idle thread with a new node and keeps the other trees; the invariant holds if the CPU was not up |
| `Schedulers.Scheduler.constructor` | src/kern/sched.c:257-284 | start-up: sixteen empty trees, boot thread running on CPU 0, its idle thread ready, invariant included |
| `Schedulers.Scheduler.TreeOfQueue` | src/kern/sched.c:45-45 | on every CPU the tree, its order, its owners and its counter are those of the queue in the state machine |
| `RunqueueTrees.Runqueue.RqInsert` | src/kern/sched.c:96-100 | on the red-black tree, insertion does to the sequence of owners and the counter what the model does to its queue |
| `RunqueueTrees.Runqueue.RqRemove` | src/kern/sched.c:102-106 | on the red-black tree, removal does to the sequence of owners and the counter what the model does to its queue |
| `RunqueueTrees.Runqueue.RqRemoveLoose` | src/kern/sched.c:102-106 | removing a thread whose node was never linked empties the queue and counts down once, in 32 bits |
| `RunqueueTrees.Runqueue.LeastRuntime` | src/kern/sched.c:108-120 | the walk by rb_first and rb_next computes the least runtime of the queue |
| `RunqueueTrees.Runqueue.PickNext` | src/kern/sched.c:132-151 | the two walks over the tree compute the choice of the model |
| `RunqueueTrees.Runqueue.LastThread` | src/kern/sched.c:205-208 | the owner of the rightmost node is the last thread of the queue |
| `RunqueueForests.Forest.Insert` | src/kern/sched.c:96-100 | putting a thread's node into one tree changes that queue as the model does and leaves every other tree and queue as it was; each node is in at most one tree |
| `RunqueueForests.Forest.Remove` | src/kern/sched.c:102-106 | taking a thread's node out of one tree changes that queue as the model does and leaves every other tree and queue as it was |
| `RunqueueForests.Forest.RemoveLoose` | src/kern/sched.c:102-106 | that happens to one queue only: every other tree and queue is as it was |
| `Poly1305Limbs.Multiply` | src/net/crypto.c:570-611 | the new limbs are reduced and stand for the product modulo 2^130 - 5; no 64-bit column overflows |
| `Poly1305Limbs.ColumnsValue` | src/net/crypto.c:576-594 | the five columns stand for the product up to a multiple of 2^130 - 5 |
| `Poly1305Limbs.ColumnsBound` | src/net/crypto.c:576-594 | bounds on the columns that keep every sum below 2^64 |
| `Poly1305Limbs.CarryValue` | src/net/crypto.c:596-610 | carrying subtracts a multiple of 2^130 - 5 and leaves limbs 0, 2, 3, 4 below 2^26 and limb 1 below 2^26 + 2^10 |
| `Poly1305Limbs.CarryFits` | src/net/crypto.c:596-610 | every intermediate sum of the carry chain fits its machine word |
| `Poly1305Limbs.LoadBlockValue` | src/net/crypto.c:544-568 | the limbs cut out of a block stand for its little-endian value plus the padding bit at 2^128 |
| `Poly1305Limbs.Block` | src/net/crypto.c:613-628 | one block: the accumulator stands for (h + block) r modulo 2^130 - 5, with the limb bounds kept |
| `Poly1305Limbs.NormaliseValue` | src/net/crypto.c:717-728 | the second carry pass gives canonical limbs with the same residue |
| `Poly1305Limbs.ChooseValue` | src/net/crypto.c:736-751 | the masked choice between h and h + 5 - 2^130 is the canonical residue |
| `Poly1305Limbs.WordsValue` | src/net/crypto.c:754-760 | the repacked words are the residue modulo 2^128 |
| `Poly1305Limbs.Residue` | src/net/crypto.c:717-760 | the words are (h mod 2^130 - 5) mod 2^128 |
| `Poly1305Limbs.Finish` | src/net/crypto.c:717-770 | the tag is the little-endian encoding of (residue + s) mod 2^128 |
| `Poly1305.MacIsPolynomial` | src/net/crypto.c:613-774 | the authenticator is ((sum of padded blocks times powers of clamped r) mod 2^130 - 5 + s) mod 2^128, as in section 2.5 of RFC 8439 |
| `Poly1305.ClampKeyValue` | src/net/crypto.c:532-542 | the byte masks are the 128-bit clamp of section 2.5 of RFC 8439 |
| `Poly1305.Context.constructor` | src/net/crypto.c:630-663 | a fresh context has absorbed nothing under its key |
| `Poly1305.Context.Update` | src/net/crypto.c:665-698 | the context has absorbed the old bytes followed by the new ones, for every length and buffer state |
| `Poly1305.Context.Final` | src/net/crypto.c:700-774 | the tag is the authenticator of everything absorbed, however it was split into updates |
| `Sha256.Compress` | src/net/crypto.c:138-170 | the schedule and the 64 rounds of section 6.2 of FIPS 180-4 |
| `Sha256.WordValue` | src/net/crypto.c:144-148 | a word of the schedule is the big-endian number of its four bytes |
| `Sha256Laws.ConstantsAreCubeRoots` | src/net/crypto.c:102-121 | each round constant is the first 32 bits of the fractional part of the cube root of its prime |
| `Sha256Laws.InitialIsSquareRoots` | src/net/crypto.c:95-100 | each word of the initial hash value is the first 32 bits of the fractional part of the square root of its prime |
| `Sha256Laws.PrimesInOrder` | src/net/crypto.c:102-121 | these are the first 64 primes, in order |
| `Sha256Laws.RotrBit` | src/net/crypto.c:123-123 | rotation to the right moves every bit down, around the end |
| `Sha256Laws.ChBit` | src/net/crypto.c:125-125 | every bit is chosen from one of two words by the bit of a third |
| `Sha256Laws.MajBit` | src/net/crypto.c:126-126 | every bit is what at least two of three words say |
| `Sha256Laws.SumBits` | src/net/crypto.c:127-128 | every bit is the parity of the three bits that section 4.1.2 of FIPS 180-4 names |
| `Sha256Laws.SigmaBits` | src/net/crypto.c:129-130 | every bit is the parity of the bits that section 4.1.2 of FIPS 180-4 names |
| `Sha256Laws.ScheduleExpands` | src/net/crypto.c:147-152 | the schedule is the row of words that starts with the block and goes on by the recurrence of section 6.2.2 |
| `Sha256Laws.CompressRecurs` | src/net/crypto.c:138-170 | the new hash value is the old one plus the last four members of two sequences, each defined by a recurrence over its last four |
| `Sha256Laws.DigestWords` | src/net/crypto.c:254-258 | the digest is the eight words, most significant byte first |
| `Sha256Laws.PaddingShape` | src/net/crypto.c:218-252 | padding is a one bit, the fewest zeros that fit, and the length in bits |
| `Sha256Laws.PaddingInjective` | src/net/crypto.c:218-252 | different messages are never padded to the same blocks |
| `Sha256.Padding` | src/net/crypto.c:218-252 | padding fills up to a whole number of blocks |
| `Sha256.Padded` | src/net/crypto.c:218-252 | the one or two final blocks are the tail of the message followed by its padding |
| `Sha256.Context.constructor` | src/net/crypto.c:172-179 | a fresh context has absorbed nothing |
| `Sha256.Context.Update` | src/net/crypto.c:181-216 | the context has absorbed the old bytes followed by the new ones |
| `Sha256.Context.Final` | src/net/crypto.c:218-261 | the digest is that of the whole padded message, block by block, however it was split |
| `Hmac.DeriveKey` | src/net/crypto.c:283-300 | keys longer than a block are hashed, then zero-padded to a block |
| `Hmac.MacBytes` | src/net/crypto.c:283-336 | the two padded keys byte by byte, for short and long keys, and how the two hashes nest, as in section 2 of RFC 2104 |
| `Hmac.HashOnce` | src/net/crypto.c:263-270 | hashing in one call is the digest of the message |
| `Hmac.Context.constructor` | src/net/crypto.c:283-316 | the inner and outer hashes have absorbed the padded keys |
| `Hmac.Context.Update` | src/net/crypto.c:318-323 | the message grows by the data |
| `Hmac.Context.Final` | src/net/crypto.c:325-336 | the tag is H((K xor opad) || H((K xor ipad) || m)), for short and long keys, as in section 2 of RFC 2104 |
| `ChaCha20.Block` | src/net/crypto.c:397-427 | ten double rounds, the feed-forward and little-endian serialisation of section 2.3 of RFC 8439 |
| `ChaCha20Laws.MixBack` | src/net/crypto.c:382-388 | the quarter round is a permutation of four words, undone by rotations by 7, 8, 12 and 16 to the right |
| `ChaCha20Laws.RotlBit` | src/net/crypto.c:380-380 | rotation to the left moves every bit up, around the end |
| `ChaCha20Laws.QuarterAt` | src/net/crypto.c:382-388 | a quarter round changes only the four words it works on |
| `ChaCha20Laws.DoubleRoundMixes` | src/net/crypto.c:405-416 | a double round mixes every column of the matrix, then every diagonal |
| `ChaCha20Laws.TwentyRounds` | src/net/crypto.c:397-427 | a block of key stream is ten double rounds and the words they started from, added |
| `ChaCha20Laws.InitialBytes` | src/net/crypto.c:429-455 | the initial state is the text of the constant, the key, the block counter and the nonce, in the order of their bytes |
| `ChaCha20.XorStreamJoin` | src/net/crypto.c:457-482 | enciphering two pieces at consecutive stream positions is enciphering them joined |
| `ChaCha20.XorStreamInverse` | src/net/crypto.c:457-482 | enciphering twice at the same position gives the data back |
| `ChaCha20.Context.constructor` | src/net/crypto.c:429-455 | a fresh context stands at stream position 0 |
| `ChaCha20.Context.Xor` | src/net/crypto.c:457-482 | the output is the input xored with the key stream from the current position, in place or not, and the position advances; so chunking does not matter |
| `Aead.TagsEqual` | src/net/crypto.c:811-820 | 1 exactly if all sixteen bytes agree |
| `Aead.Feed` | src/net/crypto.c:822-833 | the MAC absorbs the data and zeros up to a multiple of 16 |
| `Aead.Authenticate` | src/net/crypto.c:854-876 | the tag is Poly1305 over padded data, padded ciphertext and lengths, under the one-time key |
| `Aead.MacDataInjective` | src/net/crypto.c:822-841 | different data and ciphertexts, shorter than 2^64 bytes, are never authenticated as the same bytes |
| `Aead.MacDataShape` | src/net/crypto.c:822-841 | where in the authenticated bytes the data, the ciphertext, the zeros and the two lengths are |
| `Aead.Encrypt` | src/net/crypto.c:843-877 | ciphertext from block counter 1, tag over the ciphertext, as in section 2.8 of RFC 8439 |
| `Aead.Decrypt` | src/net/crypto.c:879-919 | succeeds exactly if the tag is the recomputed one, and otherwise writes no plaintext |
| `Aead.RoundTrip` | src/net/crypto.c:843-919 | decrypting an encryption succeeds and returns the message, for every key, nonce, data and length; any other tag is refused |
| `Aead.OneTimeKeyIsBlockZero` | src/net/crypto.c:854-862 | the one-time key is the first half of key-stream block 0 |
| `Aead.KeyBlockReused` | src/net/crypto.c:863-864 | the block of the one-time key enciphers part of a message exactly when the message is longer than 64 (2^32 - 1) bytes |
| `TicketLock.SafeRun` | src/inc/spinlock.h:33-63 | for at most 65536 CPUs, every run of lock, trylock and unlock has at most one CPU inside, and grants follow the order of requests, across any number of counter wraps |
| `TicketLock.StepInv` | src/inc/spinlock.h:33-63 | every atomic step keeps the queue of tickets consistent with the two 16-bit counters |
| `TicketLock.ExclusionBound` | src/inc/spinlock.h:21-63 | mutual exclusion holds in all runs exactly when there are at most 65536 CPUs |
| `TicketLock.TryExact` | src/inc/spinlock.h:53-63 | in every run an undisturbed trylock takes the lock exactly when nobody is inside or waiting, and otherwise changes nothing |
| `TicketLock.NeverStuck` | src/inc/spinlock.h:33-51 | in every run, while anyone waits, some CPU is inside or may enter |
| `Ipi.StepInv` | src/kern/ipi.c:123-250 | every step of initiator or handler keeps the protocol invariant |
| `Ipi.RunInv` | src/kern/ipi.c:123-250 | that invariant holds in every state of every interleaving |
| `Ipi.ShootdownComplete` | src/kern/ipi.c:138-159 | when the initiator leaves its wait loop, and until it returns, every entry of any CPU for a page asked for was loaded after publication, unless it is global and everything was asked for; each other CPU has acknowledged exactly once, and none is in the handler |
| `Ipi.PublishedAfter` | src/kern/ipi.c:138-149 | whatever any CPU has cached when a request is published counts as loaded before it |
| `Ipi.FreshExactly` | src/kern/ipi.c:123-136 | for every request, number of CPUs and set of global pages: all CPUs are left fresh in all runs exactly when the request is ranged or no page is global |
| `Ipi.GlobalSurvives` | src/kern/ipi.c:123-128 | on any number of CPUs there is a run in which a global entry survives a full flush everywhere |
| `Ipi.CallComplete` | src/kern/ipi.c:189-210 | when the initiator leaves its wait loop every other CPU has run the function exactly once and the initiator not at all |
| `Ipi.PointersLive` | src/kern/ipi.c:218-250 | a CPU in a handler points at the published request, whose initiator is still waiting |
| `Ipi.LocalFlush` | src/kern/ipi.c:123-136 | the initiator drops exactly the entries for the pages asked for, except that a request for everything leaves global ones |
| `Ipi.HandlerFlush` | src/kern/ipi.c:218-238 | the handler drops exactly the entries for the pages asked for, except that a request for everything leaves global ones |
| `Ipi.CoversAsked` | src/kern/ipi.c:129-135 | for every address and count the pages covered are exactly those asked for: one page, or the given number from the page of the address on, going round after 2^52 pages |
| `Ipi.AskedRange` | src/kern/ipi.c:129-135 | short of the end of the address space these are the pages of an interval |
| `Ipi.StepsDrop` | src/kern/ipi.c:218-238 | the steps of one CPU together drop exactly the entries for the pages asked for |
| `IpiProgress.AlwaysProgress` | src/kern/ipi.c:123-250 | in every state of every run, while a request is in flight, some step of the protocol can be taken, and every such step leaves fewer to take |
| `IpiProgress.NullCallWaits` | src/kern/ipi.c:189-210 | a call without a function never returns: its initiator is never seen past the wait loop |
| `KmallocLayout.FullQuota` | src/mm/kmalloc.c:93-99 | with one to eight nodes every cache gets its full base quota |
| `KmallocLayout.OffFacts` | src/mm/kmalloc.c:106-132 | the nine regions follow one another and fill exactly the slab share |
| `KmallocLayout.NodeEnd` | src/mm/kmalloc.c:144-157 | for one to eight nodes the slabs fit inside the node and the node inside the pool |
| `KmallocLayout.SlotsApart` | src/mm/kmalloc.c:107-132 | different objects of any caches never overlap |
| `KmallocLayout.SlotTag` | src/mm/kmalloc.c:125-129 | the granule of a slab object carries the tag of the very cache it belongs to, also where nodes start inside a granule |
| `KmallocLayout.BumpTag` | src/mm/kmalloc.c:134-138 | the granule of a bump block carries the bump mark, or is the first granule of the next node or the invalid one after the last |
| `Kmalloc.CidxBest` | src/mm/kmalloc.c:85-91 | the cache chosen is the smallest whose objects are big enough, and none exactly above 4096 bytes |
| `Kmalloc.CidxTight` | src/mm/kmalloc.c:85-91 | an object is big enough and less than half of it is wasted, unless it is one of the smallest |
| `KmallocInv.RunSafe` | src/mm/kmalloc.c:166-272 | in every interleaving of the locked sections of any calls, until an end slips through: live blocks are disjoint, inside the pool; every freelist is an acyclic chain of free_count distinct objects no live block overlaps; and free plus live objects are all of them |
| `KmallocInv.RunExact` | src/mm/kmalloc.c:166-272 | for every run, with any sizes: the states up to a point are all safe exactly when no end slipped through before it |
| `KmallocInv.AllocExact` | src/mm/kmalloc.c:191-233 | kmalloc_node for every size: it fails exactly for size zero or when every node is out of objects of the best size and refuses to bump; it hands out a block outside the pool exactly when, of the nodes tried, the first that does not refuse has an end that wraps to an accepted address; otherwise the block is fresh |
| `KmallocInv.CallExact` | src/mm/kmalloc.c:191-233 | the heap stays sound across an undisturbed call exactly when that condition does not hold |
| `KmallocInv.AllocPrefers` | src/mm/kmalloc.c:191-233 | for every size the wanted node comes first: the head of its freelist, or its bump part when no object is left anywhere |
| `KmallocInv.ServedBySlab` | src/mm/kmalloc.c:191-216 | a small request is served by the freelist of the wanted node or else of the first other node with an object left, and that section is all the call does |
| `KmallocInv.ServedByBump` | src/mm/kmalloc.c:218-233 | any other request is served by the bump part of the wanted node or else of the first other node that does not refuse, and that section is all the call does |
| `KmallocInv.FreeInv` | src/mm/kmalloc.c:240-272 | freeing a live block gives exactly its object back to its cache, or gives up its bump piece |
| `KmallocInv.FreeSlot` | src/mm/kmalloc.c:248-269 | the owner tag of a live object leads to the cache that issued it, the alignment test passes and there is room |
| `KmallocInv.FreeBump` | src/mm/kmalloc.c:248-258 | kfree is a no-op on every live bump block |
| `KmallocFree.FreeExact` | src/mm/kmalloc.c:240-272 | for every pointer at all, kfree keeps the heap sound exactly when it does not push an object that nobody holds |
| `KmallocFree.FreeEffect` | src/mm/kmalloc.c:240-272 | kfree does something exactly with addresses of objects whose cache has room; null, foreign and interior pointers, bump blocks and objects of a cache that is all free are ignored |
| `KmallocFree.FreeTwice` | src/mm/kmalloc.c:266-268 | an object that is free already makes its freelist a circle |
| `KmallocInv.WriteInv` | src/mm/kmalloc.c:166-180 | whatever clients write into blocks they hold, the freelists survive |
| `KmallocInv.Conservation` | src/mm/kmalloc.c:166-272 | free_count plus live objects equals total, for every cache |
| `KmallocInv.LiveApart` | src/mm/kmalloc.c:166-233 | live blocks are pairwise disjoint |
| `KmallocInv.InitialInv` | src/mm/kmalloc.c:101-157 | the state after start-up is sound with nothing live |
| `KmallocInv.BumpExact` | src/mm/kmalloc.c:182-189 | the bump section keeps the heap sound exactly when the end of the block does not wrap around to an address within the node |
| `KmallocInv.BumpInv` | src/mm/kmalloc.c:182-189 | for every size: refusal, a block outside the pool and a fresh block, each under its exact condition; a fresh block is at the next multiple of 64, the bump part goes on right behind it, and nothing else changes |
| `KmallocInv.BumpNext` | src/mm/kmalloc.c:182-189 | a following request that fits behind the block is granted at the next multiple of 64 |
| `KmallocInv.SlabInv` | src/mm/kmalloc.c:166-180 | the head of the freelist is handed out and leaves the list, and nothing else changes |
| `KmallocInv.OversizeGranted` | src/mm/kmalloc.c:182-189 | right after start-up a request that reaches exactly around the address space is granted a block outside the pool |
| `KmallocHeap.Allocator.constructor` | src/mm/kmalloc.c:144-157 | start-up for any reported node count leaves full caches, linked objects, correct tags and bump bounds |
| `KmallocHeap.Allocator.InitNode` | src/mm/kmalloc.c:101-142 | one more node is laid out and the earlier ones are untouched |
| `KmallocHeap.Allocator.LinkObjects` | src/mm/kmalloc.c:117-123 | each object of the region links to the next and the last to null, with all other links unchanged |
| `KmallocHeap.Allocator.FillTags` | src/mm/kmalloc.c:128-129 | exactly the given range of owner entries is set |
| `KmallocHeap.Allocator.CacheFor` | src/mm/kmalloc.c:85-91 | the loop finds the best cache |
| `KmallocHeap.Allocator.TakeObject` | src/mm/kmalloc.c:166-180 | the slab section on a sound heap: nothing changes, or a block nobody held, in the pool and apart from the rest, is handed out; a freelist head outside the pool empties the list |
| `KmallocHeap.Allocator.TakeBump` | src/mm/kmalloc.c:182-189 | the bump section on a sound heap: refused exactly when there is no room and no slipping end; sound afterwards exactly without a slipping end, and then the block is one nobody held, at the next multiple of 64, and the bump part goes on right behind it |
| `KmallocHeap.Allocator.KmallocNode` | src/mm/kmalloc.c:191-233 | the row of sections of one undisturbed call: the block is new and held by the caller, and the heap stays sound exactly under the condition of AllocExact |
| `KmallocHeap.Allocator.Kfree` | src/mm/kmalloc.c:240-272 | performs the free step for every pointer; the heap stays sound exactly when no object that nobody held was pushed |
| `HugepageMap.PageTables.MapCr3` | src/mm/hugepage.c:188-218 | for every 64-bit physical address: success makes every address of the page walk to the low 52 bits of the physical page plus offset with the requested flags and leaves all other walks alone; failure changes no translation; and it succeeds exactly when the tables can be had |
| `HugepageMap.PageTables.EnsureTable` | src/mm/hugepage.c:172-186 | the table is followed or linked in empty, without changing any translation, and exactly when possible |
| `HugepageMap.PageTables.Clear` | src/mm/hugepage.c:182-182 | exactly the words of the frame become zero |
| `HugepageMap.PageTables.Unmap` | src/mm/hugepage.c:225-250 | for every page and all tables that form a tree: exactly the addresses fault afterwards, or did before, whose walks read the cleared entry; the page is gone exactly outside 1G pages, or when all its addresses are translated through that entry; a failure changes nothing |
| `HugepageMap.PutPage` | src/mm/hugepage.c:202-217 | a huge-page entry in the covering table maps exactly the page around the address |
| `HugepageMap.MapThenUnmap` | src/mm/hugepage.c:188-250 | mapping and unmapping leaves the page faulting and all other translations as before |
| `HugepageMap.UnmapExact` | src/mm/hugepage.c:242-248 | for every page: all its addresses fault afterwards exactly when it is not part of a 1G page, or the unmap cleared an entry all of them are translated through; where the covering table exists no other page is touched |
| `HugepageMap.UnmapEffect` | src/mm/hugepage.c:225-250 | whatever it takes for the covering table, a successful unmap makes exactly the addresses fault whose walks read the entry it clears |
| `HugepageMap.UnmapInside1G` | src/mm/hugepage.c:242-248 | tables on which the unmap of a 2M page inside a 1G page reports success and the page stays mapped |
| `Hugepage.LinkTable` | src/mm/hugepage.c:179-185 | linking a cleared unused frame under an absent entry changes no translation and keeps the tables a tree |
| `Hugepage.PutWalk` | src/mm/hugepage.c:202-217 | writing an entry leaves every walk alone that does not read it |
| `Hugepage.ClearEntry` | src/mm/hugepage.c:242-248 | clearing one entry of a table at any level makes exactly the addresses fault whose walks read it, and keeps the tables a tree |
| `Hugepage.FlagMeaning` | src/mm/hugepage.c:149-165 | each flag controls its attribute bit; write-combining is write-through, uncached also disables caching |
| `Hugepage.LeafEntryParts` | src/mm/hugepage.c:204-215 | for every 64-bit physical address the entry gives back the flags and the low 52 bits of the page address; bit 63 sets no-execute |
| `Hugepage.TargetExact` | src/mm/hugepage.c:204-215 | that is the page and the flags asked for exactly when the address has at most 52 bits |
| `Hugepage.TableEntryParts` | src/mm/hugepage.c:184-184 | the entry of a new table is present, writable, for user access, no leaf, and points at its frame |
| `Hugepage.IndexDigits` | src/mm/hugepage.c:39-41 | the indices of the four levels and the place in a page are the low 48 bits of the address, from the top down |
| `Hugepage.SamePageExact` | src/mm/hugepage.c:191-191 | two addresses are in the same page exactly when the low 48 bits say so |
| `VirtqInv.RunOwnership` | src/drivers/virtio/virtio_net.c:442-552 | at every size that fits (`VirtqSize.SizeExact`), in every run the heads unread in the avail ring, those with the device and those unreaped in the used ring, together with their data descriptors and the first num_free links, partition all descriptors, each in one place |
| `VirtqInv.RunDelivers` | src/drivers/virtio/virtio_net.c:481-484 | at every size that fits (`VirtqSize.SizeExact`), in every run, across index wraps, the device has something to read exactly when a frame waits, and finds the oldest one, byte for byte as far as it fits |
| `VirtqInv.RunInv` | src/drivers/virtio/virtio_net.c:442-552 | at every size that fits (`VirtqSize.SizeExact`), driver and device agree on every descriptor and both rings in every reachable state |
| `VirtqInv.SendInv` | src/drivers/virtio/virtio_net.c:442-490 | at any size a send is accepted exactly with two free descriptors and appends its head to the unread entries; driver and device stay in agreement exactly when no unread entry sat in that slot |
| `VirtqInv.TakeInv` | src/drivers/virtio/virtio_net.c:481-484 | what the device takes is the oldest posted head |
| `VirtqInv.ReturnInv` | src/drivers/virtio/virtio_net.c:533-536 | at any size a returned head is appended to the used ring; driver and device stay in agreement exactly when no unseen entry sat in that slot |
| `VirtqInv.ReapInv` | src/drivers/virtio/virtio_net.c:531-551 | what is reaped is the head returned longest ago, and both its descriptors become free |
| `VirtqInv.Ownership` | src/drivers/virtio/virtio_net.c:442-552 | num_free plus twice the pairs in flight is the queue size |
| `VirtqInv.InitialInv` | src/drivers/virtio/virtio_net.c:294-304 | the initial chain puts every descriptor on the free list once |
| `Virtq.SlotsMeet` | src/drivers/virtio/virtio_net.c:481-484 | entries less than a ring apart share a slot exactly when the 16-bit index wraps between them and their distance is 2^16 modulo the size |
| `Virtq.SlotExact` | src/drivers/virtio/virtio_net.c:481-484 | a 16-bit index selects the slot of the count it stands for exactly for sizes that divide 2^16 |
| `VirtqSize.SizeExact` | src/drivers/virtio/virtio_net.c:267-304 | for every size virtq_init can settle on: every frame is delivered, oldest first, in all runs exactly when 2^16 modulo the size is zero or at least half the size |
| `VirtqSize.Overwritten` | src/drivers/virtio/virtio_net.c:481-484 | for every other size a run in which the device finds a later frame in the place of the oldest one that waits |
| `VirtqSize.FiveAndSix` | src/drivers/virtio/virtio_net.c:267-304 | with five descriptors frames are lost, with six they are not |
| `VirtqDriver.TxQueue.constructor` | src/drivers/virtio/virtio_net.c:294-304 | all descriptors on the free list in order, and driver and device in agreement, for every size up to 256 |
| `VirtqDriver.VirtqInit` | src/drivers/virtio/virtio_net.c:267-304 | fails exactly when the device offers no queue; otherwise the queue has the smaller of 256 and the offered size, with driver and device in agreement |
| `VirtqDriver.TxQueue.SendFrame` | src/drivers/virtio/virtio_net.c:442-490 | performs the send step in place, byte copy included; the queue stays sound exactly when no unread entry sat in the slot, and always at sizes that fit |
| `VirtqDriver.TxQueue.Poll` | src/drivers/virtio/virtio_net.c:531-551 | takes back everything in the used ring and nothing else |
| `VirtqDriver.TxQueue.TakeBack` | src/drivers/virtio/virtio_net.c:538-549 | the inner loop walks the chain of a pair and stops |
| `VirtqRx.PopulateInv` | src/drivers/virtio/virtio_net.c:321-339 | after start-up all receive buffers are posted in order |
| `VirtqRx.RecycleInv` | src/drivers/virtio/virtio_net.c:497-529 | the buffer returned longest ago is posted again; the rings stay consistent exactly when the device had read what was in that slot |
| `VirtqRx.RxRunInv` | src/drivers/virtio/virtio_net.c:321-339 | at sizes that divide 2^16, in every run each receive buffer is in exactly one place and both rings are consistent |
| `VirtqRx.RxOwnership` | src/drivers/virtio/virtio_net.c:497-529 | posted, held and returned buffers are all of them, each once, and every descriptor leads to its own buffer of 1526 bytes |
| `VirtqRx.RxSizeExact` | src/drivers/virtio/virtio_net.c:321-339 | for every size: the device never holds a buffer twice, in all runs, exactly when the size divides 2^16 |
| `VirtqRx.HeldTwice` | src/drivers/virtio/virtio_net.c:522-525 | for every other size a run in which the device holds one buffer twice |
| `Swap.EncodeExact` | src/mm/swap.c:83-96 | decoding inverts encoding exactly for devices below 8 and slots below 2^52 |
| `Swap.ScanComplete` | src/mm/swap.c:58-80 | the rotated word scan succeeds exactly when some slot is free, wherever it starts |
| `Swap.ScanFirst` | src/mm/swap.c:58-80 | the slot found is the first free one in the order of the rotated scan |
| `Swap.ReadBack` | src/mm/swap.c:140-168 | sectors read back as written |
| `SwapInv.RunInv` | src/mm/swap.c:53-276 | in every interleaving of locked sections and transfers, free_count is the number of clear bits below nslots, g_free_slots the sum over active devices, and every reserved slot holds what was last written to it |
| `SwapInv.PageComesBack` | src/mm/swap.c:170-204 | whatever other calls do in between, a page read from an entry that stayed reserved is the page written to it, and swap_in_page returns it |
| `SwapInv.AllocEffect` | src/mm/swap.c:98-113 | allocation succeeds exactly when an active device has a free slot, and takes one of the first such device |
| `SwapInv.AllocDevExact` | src/mm/swap.c:53-81 | one device: success exactly with a positive counter, the slot was free, the counter stays exact |
| `SwapInv.AllocNextFit` | src/mm/swap.c:58-80 | the slot found is the first free one from the word of the hint on, around the end, and the hint moves behind it |
| `SwapInv.AllocInv` | src/mm/swap.c:98-113 | a new entry is reserved exactly when some active device has a free slot, and no page that is out changes |
| `SwapInv.WriteInv` | src/mm/swap.c:140-153 | a write changes what its own entry holds and nothing else |
| `SwapInv.WriteLands` | src/mm/swap.c:140-153 | the page of a slot lies in the eight sectors from the start of the device plus eight times the slot on, and a write touches no others |
| `SwapInv.OutInv` | src/mm/swap.c:170-186 | a page goes out exactly when a slot is free and the write succeeds, under a new entry; otherwise nothing that is out changes |
| `SwapInv.InInv` | src/mm/swap.c:188-204 | a page that is out comes back exactly when memory and device cooperate, and its slot becomes free |
| `SwapInv.FreeInv` | src/mm/swap.c:115-138 | freeing a held slot gives up exactly that page, keeps the counters exact and leaves the hint and everything else alone |
| `SwapInv.AddInv` | src/mm/swap.c:206-248 | a device whose sectors are nobody else's keeps the invariant |
| `SwapInv.AddEffect` | src/mm/swap.c:206-248 | an add succeeds exactly with a place in the table, at least one slot and memory for the bitmap; the device gets the next number, its slots are free and counted, and nothing else changes |
| `SwapOverlap.AddExact` | src/mm/swap.c:206-248 | an add succeeds exactly with a place in the table, at least one slot and memory; after it every entry reads back what was last written to it in everything that may follow, exactly when the sectors of the device are nobody else's |
| `SwapOverlap.OverlapFails` | src/mm/swap.c:206-248 | for every overlap there are allocations and writes after which a reserved entry reads back wrong |
| `SwapInv.OverlapLoses` | src/mm/swap.c:206-248 | with two devices on the same sectors the second page out is what the first entry returns |
| `SwapInv.RemoveInv` | src/mm/swap.c:250-276 | removing a device loses the pages on it and no others, and keeps the counters exact |
| `SwapInv.RemoveEffect` | src/mm/swap.c:250-276 | a removal succeeds exactly for an active device; its slots are no longer counted, and the other devices stay |
| `SwapInv.SlotsApart` | src/mm/swap.c:151-152 | different slots have different sectors |
| `SwapSystem.Swapper.FindFree` | src/mm/swap.c:58-80 | the nested loops compute the scan, with its full-word shortcut |
| `SwapSystem.Swapper.AllocSlot` | src/mm/swap.c:98-113 | the loop over devices reserves a new entry exactly when the counter says a slot is free, and leaves every page that is out intact |
| `SwapSystem.Swapper.ReleaseSlot` | src/mm/swap.c:115-138 | gives up exactly the entry and what it held; the counters stay exact and every other page that is out is intact |
| `SwapSystem.Swapper.WritePage` | src/mm/swap.c:140-153 | the slot of the entry holds the page, or anything if the device fails; every other page that is out is intact |
| `SwapSystem.Swapper.ReadPage` | src/mm/swap.c:155-168 | what was last written to a reserved entry, if the device delivers |
| `SwapSystem.Swapper.SwapOut` | src/mm/swap.c:170-186 | the page is out under a new entry, or nothing that is out has changed; a failed write gives the slot back |
| `SwapSystem.Swapper.SwapIn` | src/mm/swap.c:188-204 | returns the page as it went out |
| `SwapSystem.Swapper.Add` | src/mm/swap.c:206-248 | adds the device on any sectors, under exact conditions, with the next number and its slots counted; whatever follows, what is out reads back exactly when the sectors are nobody else's |
| `SwapSystem.Swapper.Remove` | src/mm/swap.c:250-276 | succeeds exactly for an active device, and loses the pages on it and no others |

## Left out

- Context switch assembly, FPU and AMX state, TSS and timer programming, and the reaping of exited threads after the switch.
- Signals, the thread list, and weights, which only set the length of the timer slice.
- SchedInv.RunInv: runs migrate only threads that are neither running nor idle, as `MigrateExact` asks, and idle threads only halt and balance.
- SchedChoice.UnblockWakes: sched_unblock and sched_migrate read the thread's CPU before they lock its queue; the model reads it in the same step, so a migration of the same thread in between is not covered.
- Wait queues: enqueueing and blocking are separate steps there, so a no-lost-wakeup claim is not made.
- Fairness of the interleaving: that a CPU which can take a step takes it, so progress is stated as steps that can be taken.
- KmallocInv.RunSafe: clients of a run free only what they hold; `FreeExact` says what happens otherwise.
- Sha256Laws.CompressRecurs: no digest of a particular message is computed.
- spin_unlock: its increment of the low half is one atomic step of the holder, as only the holder writes it.
- Scrubbing of secrets and constant-time behaviour in crypto.c.
- Interrupt masking and the statistics functions of kmalloc.c and swap.c.
- SwapInv.RunInv: the tests swap_free_slot, swap_write_page and swap_read_page make before they lock or transfer are one step with what follows, so a device removed in between is not covered; devices added in a run have sectors of their own, as `AddExact` asks.
- HugepageMap.PageTables.MapCr3: frames from kmalloc are taken to be page-aligned and unused.
- VirtqInv.RunOwnership: like `RunInv` and `RunDelivers` at the sizes that `SizeExact` names; at the others `Overwritten` shows what happens.
- Kmalloc.Free: a tag that names no cache, which start-up never writes, is treated as foreign.
- The huge-page pools (bitmap_alloc and bitmap_free): the same shape as the swap bitmap, on one word.
- SwapOverlap.AddExact: what may follow is any run as in `RunInv`, so further devices added there have sectors of their own.
- SwapInv.AddInv: a new device gets a bitmap only if it fits the kernel heap, so it has at most 2^27 slots.
- VirtIO feature negotiation, memory barriers, notification and calls before initialisation; frames received are handed on without interpretation.
- The page accounting swap.c reports to the reclaim code.
- Drivers for disks, graphics, sound and input, the file system tools, the shell, logging and power management.
