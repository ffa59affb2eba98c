# Verified models of the RT-Thread kernel core and the GMAC descriptor rings

This project models, in Dafny, the parts of the firmware whose correctness depends on invariants that span many
operations: the five IPC objects of `rt-thread/src/ipc.c`, the two heap allocators `rt-thread/src/mem.c` and
`rt-thread/src/memheap.c`, the intrusive circular lists of `rt-thread/include/rtservice.h`, the DMA descriptor rings of
`drivers/net/synopGMAC_Dev.c` with the loops of `drivers/net/synopGMAC.c` that drive them, the formatter of
`rt-thread/src/kservice.c`, and the weekday arithmetic of `libraries/ls1c_rtc.c`.

`dafny verify dfyconfig.toml` checks everything.

## How the models are built

**IPC objects and descriptor rings** come in two layers.

- A module `...Steps` holds a state machine over values: a `State`, the operations `Op`, when one is `Enabled`, and
  `Next`. Each section that runs with interrupts disabled is one step; an unprotected copy between two sections is a
  step of its own; a timeout (`Expire`) and, for the rings, the DMA engine closing a descriptor (`DmaClose`) are steps of
  the environment. `StepInv` proves that each step keeps the invariant, and an `EveryRun...` lemma draws the conclusion
  for every finite run from the initial state, whatever the interleaving.
- A class of the C structure's fields has one method per critical section. Its contract says that the new abstract state
  is `Next` of the old one, and that the links in memory still represent it. All wait lists are real rings of
  `next`/`prev` links, changed by the modelled `rt_list_*` functions; a mailbox or a message queue has two of them in the
  same thread nodes (`Waits`, with the changes of its crowd of threads as values in `WaitSteps`).

`rt_thread_suspend`, `rt_thread_resume` and the thread timer are primitives that put a thread on a wait list or take it
off. Each machine records the threads that were resumed and have not run yet, and the `error` field of every thread: reset
on suspension, RT_ETIMEOUT after a timeout, RT_ERROR after a reset. What a blocked call returns is read from that field,
and is proved to be RT_EOK exactly for the threads that were served.

What a run is about is counted from its operations and from what they return, not from a record that the steps keep: the
units of a semaphore, the nesting of a mutex, the bits of an event, the mails of a mailbox, the requests of message-queue
callers, the packets of a ring.

A change of a thread's priority from outside (`SetPriority`) may happen at any time. The kernel does not sort the wait list
again, so the order of service (`ServiceOrder`) is stated as an equivalence: a run keeps it throughout if and only if every
such change lets a waiting thread fit between its neighbours.

**Heaps.** `Tiling` and `TilingOps` describe block chains as values. A chain that tiles its range and has no two free
neighbours is determined by its set of used blocks (`CanonicalUnique`); freeing what was allocated, and freeing
everything in any order, follow from that. `SmallHeap.Heap` (mem.c) keeps the headers inside the heap memory itself,
linked by offsets, next to the payload bytes. `MemHeap.Heap` (memheap.c) keeps one map per header field and two rings,
the address-ordered one and the free list. In both, the class invariant `Valid()` states the whole global invariant, and
every public method keeps it and says which chain results. `SmallHeapThreads` runs `rt_realloc` among other threads, which
may use the heap whenever its lock is free.

**Formatter.** `FormatText` and `FormatSpec` define the text of a format and its arguments without any buffer;
`Formatter` is the in-place code with its moving pointer and its bound. `FormatLaws` says what each conversion prints in
terms of the conversion as it is written in the format, of its arguments and of the text alone.

Results worth knowing about the code, each with a proof or a concrete run:

- `rt_malloc` refuses exactly one kind of fitting block: an exact fit that ends at `heap_end`
  (`SmallHeap.Heap.Malloc`, predicate `Served`; a run: `SmallHeapRoundTrip.ExactFitRefused`).
- `rt_malloc` does not return on a heap of 8 bytes, which `rt_system_heap_init` accepts, when asked for 1 to 8 bytes, and
  returns in all other cases (`SmallHeap.EightByteHeapLoops`, `SmallHeap.TinyHeapReturns`, `SmallHeap.Heap.Malloc`).
- `rt_realloc` moves a block even to shrink it when the rest is too small to be a block, and can fail then
  (`SmallHeap.Heap.Realloc`, predicate `Branched`).
- On a FIFO mutex the new owner does not inherit from the threads still waiting; no waiter outranks the owner at any time
  of a run if and only if every hand-over goes to the most urgent waiter and no change of priority lets one overtake
  (`MutexSteps.EveryRunInherits`; a run where it fails: `MutexSteps.FifoHandOverCanInvert`).
- A change of a waiting thread's priority can put a PRIO list out of order (`SemaphoreSteps.PriorityChangeCanMisplace`).
- The error returns of `rt_eth_tx` leave `sem_lock` taken, and a packet is silently dropped when the DMA still owns the
  next descriptor (`DescriptorRing.Ring.EthTx`; runs: `DescriptorRing.FailedSendKeepsLock`,
  `DescriptorRing.BusySendDropsPacket`).
- A descriptor loaded with a length whose low eleven bits are zero counts as empty
  (`DescriptorSteps.LoadEmptyExactly`; length 2048: `DescriptorSteps.Length2048LooksEmpty`); this is why lengths 1 to 2047
  are required.
- `%o` prints the octal digits exactly for numbers below 8 (`FormatText.OctalExactly`). Precision 0 removes the digits but
  not their place in the padding (`FormatText.PrecisionZeroShowsNoDigits`), so that the text reads back if and only if
  the precision is not 0 or the number is (`FormatText.ReadsBackExactly`).
- `rt_realloc` can leave a block of eight payload bytes behind, below the minimum that `rt_malloc` keeps to; the chain
  invariant of mem.c therefore uses a least span of 24 bytes, not 32 (a run:
  `SmallHeapRoundTrip.ShrinkLeavesEightBytes`).

## Model

| member | source | states |
|---|---|---|
| WaitList.SuspendSorted | rt-thread/src/ipc.c:95-121 | suspending on a PRIO list keeps it sorted and puts the thread behind all that are as urgent and before all that are less urgent |
| ServiceOrder.SuspendInLine | rt-thread/src/ipc.c:82-128 | a newly suspended thread takes its place in the order of service: by urgency and waiting time on PRIO, by waiting time on FIFO |
| ServiceOrder.FirstServed | rt-thread/src/ipc.c:139-152 | the first of a list in line comes before all others |
| ServiceOrder.SetPriorityInLine | rt-thread/src/thread.c:644-685 | a change of priority, which does not sort the wait list again, keeps it in line if and only if the thread, if it waits there, still fits between its neighbours |
| ServiceOrder.SetPriorityCanMisplace | rt-thread/src/thread.c:668-671 | a list in line that a change of priority puts out of line |
| CircularList.InsertAfter | rt-thread/include/rtservice.h:58-65 | the four link writes turn the ring of a sequence into the ring of the sequence with the node inserted |
| CircularList.Remove | rt-thread/include/rtservice.h:86-92 | the two link writes turn the ring of a sequence into the ring of the sequence without the node |
| ListService.Lists.Init | rt-thread/include/rtservice.h:47-50 | the node becomes an empty ring; other rings are kept |
| ListService.Lists.InsertAfter | rt-thread/include/rtservice.h:58-65 | in-place insertion refines insertion into the sequence; rings elsewhere are kept |
| ListService.Lists.InsertBefore | rt-thread/include/rtservice.h:73-80 | the same, before a node or at the end |
| ListService.Lists.Remove | rt-thread/include/rtservice.h:86-92 | the node leaves the ring and becomes an empty ring of its own; rings elsewhere are kept |
| ListService.Lists.IsEmpty | rt-thread/include/rtservice.h:98-101 | true just if the sequence is empty |
| ListService.Lists.Len | rt-thread/include/rtservice.h:107-118 | terminates with the length of the sequence |
| ListService.Lists.SuspendOn | rt-thread/src/ipc.c:82-128 | the list walk and the insertion refine `WaitList.Suspend` for FIFO and PRIO; rings elsewhere are kept |
| ListService.Lists.ResumeFirst | rt-thread/src/ipc.c:139-152 | the first thread leaves the ring; rings elsewhere are kept |
| ListService.Lists.ResumeAll | rt-thread/src/ipc.c:162-190 | the loop empties the ring and gives every thread RT_ERROR; rings elsewhere are kept |
| ThreadError.FailAllAt | rt-thread/src/ipc.c:168-187 | exactly the threads that waited have RT_ERROR afterwards |
| WaitSteps.BlockReceiverKeeps | rt-thread/src/ipc.c:1644-1690 | a receiver that suspends at no mail keeps threads in one place, what they are told, and the wake-up counts |
| WaitSteps.BlockSenderKeeps | rt-thread/src/ipc.c:1498-1550 | the same for a sender at no free slot |
| WaitSteps.WakeReceiverKeeps | rt-thread/src/ipc.c:1570-1580 | one more mail is made up for by one more woken receiver |
| WaitSteps.WakeSenderKeeps | rt-thread/src/ipc.c:1718-1731 | one more free slot is made up for by one more woken sender |
| WaitSteps.ExpireKeeps | rt-thread/src/thread.c:829-851 | a timeout keeps all of this |
| WaitSteps.ResumeAllKeeps | rt-thread/src/ipc.c:162-190 | a reset keeps all of this |
| WaitSteps.TakenOffErrors | rt-thread/src/thread.c:829-851 | a thread taken off its list finds in its error whether a wake-up (RT_EOK), a timeout (RT_ETIMEOUT) or a reset (RT_ERROR) did it |
| WaitSteps.FailedErrorsStay | rt-thread/src/thread.c:829-851 | the error of a thread that failed stays until it runs |
| WaitSteps.SetPriorityInLines | rt-thread/src/thread.c:668-671 | a change of priority keeps both lists in line if and only if the thread still fits |
| Waits.WaitLists.constructor | rt-thread/src/ipc.c:1343-1344 | both lists are empty rings |
| Waits.WaitLists.BlockReceiver | rt-thread/src/ipc.c:1644-1690 | suspends on the ring of receivers, error reset; the ring of senders is kept |
| Waits.WaitLists.BlockSender | rt-thread/src/ipc.c:1498-1550 | suspends on the ring of senders, error reset; the ring of receivers is kept |
| Waits.WaitLists.WakeReceiver | rt-thread/src/ipc.c:1570-1580 | the first receiver of the ring is resumed |
| Waits.WaitLists.WakeSender | rt-thread/src/ipc.c:1718-1731 | the first sender of the ring is resumed |
| Waits.WaitLists.Awake | rt-thread/src/ipc.c:1538-1543 | the thread's error field decides: RT_EOK just if it may try again, else the error is returned |
| Waits.WaitLists.Expire | rt-thread/src/thread.c:829-851 | the thread leaves whichever ring it is on, with RT_ETIMEOUT |
| Waits.WaitLists.ResumeAll | rt-thread/src/ipc.c:1764-1767 | both rings are emptied, every thread gets RT_ERROR |
| MessageQueueSteps.InitialInv | rt-thread/src/ipc.c:1831-1853 | a freshly initialised queue satisfies the invariant |
| MessageQueueSteps.StepPartition | rt-thread/src/ipc.c:2104-2131 | each step of send, urgent, receive, timeout and reset keeps the nodes partitioned into free list, queue and nodes held by exactly one in-flight thread |
| MessageQueueSteps.StepThreads | rt-thread/src/ipc.c:2133-2144 | each step keeps threads in one place, tells resumed threads why they were resumed, and loses no wake-up: receivers wait only while all queued messages are left to woken receivers, senders only while all free nodes are left to woken senders |
| MessageQueueSteps.StepFilled | rt-thread/src/ipc.c:2110-2113 | a filled node starts with the bytes its sender gave until it is linked |
| MessageQueueSteps.StepInv | rt-thread/src/ipc.c:2000-2470 | the whole invariant is kept by every step of every thread |
| MessageQueueSteps.StepInLines | rt-thread/src/ipc.c:2041-2089 | a step keeps both wait lists in the order of service if and only if it is no change of priority that misplaces a waiting thread |
| MessageQueueSteps.TryExactly | rt-thread/src/ipc.c:2016-2108 | a call whose first section returns RT_EOK has a node in hand, and only that; one that blocks is on its wait list; nobody else is touched |
| MessageQueueRefinement.Simulate | rt-thread/src/ipc.c:2104-2386 | forward simulation of a deque driven by the operations alone: the message a sender called for goes to the end it called for (send appends, urgent prepends), a receive pops the head, a reset clears; bytes are carried along |
| MessageQueueRefinement.StepEachOnce | rt-thread/src/ipc.c:2364-2386 | each linked message is queued, was popped once or was dropped by a reset, never two of these |
| MessageQueueRefinement.EveryRunRefinesDeque | rt-thread/src/ipc.c:2000-2470 | every interleaved run is a run of the deque that the same operations drive: partition, no lost wake-up, errors that tell resumed threads why, each message delivered at most once with the bytes its caller gave, up to the shorter of the sizes the two callers gave |
| MessageQueueRefinement.EveryRunInLines | rt-thread/src/ipc.c:2000-2470 | threads are woken in the order of service throughout a run if and only if each change of priority in it lets the thread fit between its neighbours |
| MessageQueue.Queue.constructor | rt-thread/src/ipc.c:1831-1853 | the pool is cut into nodes and all of them are chained on the free list, last node first |
| MessageQueue.Queue.SendTry | rt-thread/src/ipc.c:2016-2108 | first section of rt_mq_send_wait: too long, a node taken, suspended on the ring in its place, or full |
| MessageQueue.Queue.Awake | rt-thread/src/ipc.c:2084-2089 | a resumed thread tries again just if its error is RT_EOK, else it returns the error |
| MessageQueue.Queue.UrgentTry | rt-thread/src/ipc.c:2191-2214 | first section of rt_mq_urgent |
| MessageQueue.Queue.SendCopy | rt-thread/src/ipc.c:2110-2113 | the unprotected copy changes only the sender's own node |
| MessageQueue.Queue.SendLink | rt-thread/src/ipc.c:2115-2149 | head, tail, next links and entry represent the queue with the node appended, or prepended for urgent, and the first receiver woken |
| MessageQueue.Queue.RecvTry | rt-thread/src/ipc.c:2287-2377 | first section of rt_mq_recv: the head popped, suspended on the ring in its place, or timed out |
| MessageQueue.Queue.RecvCopy | rt-thread/src/ipc.c:2379-2380 | the bytes handed out are the node's, up to the shorter of buffer and message size |
| MessageQueue.Queue.RecvFree | rt-thread/src/ipc.c:2382-2404 | the node goes to the front of the free list and the first sender is woken |
| MessageQueue.Queue.Reset | rt-thread/src/ipc.c:2431-2467 | the loops resume all waiters with RT_ERROR and return every queued node to the free list; nodes in flight stay with their threads |
| MessageQueue.Queue.Expire | rt-thread/src/thread.c:829-851 | a timeout takes just that thread off its ring, with RT_ETIMEOUT |
| MailboxSteps.StepInv | rt-thread/src/ipc.c:1486-1735 | each step keeps the bound, what resumed threads are told, and loses no wake-up |
| MailboxSteps.StepInLines | rt-thread/src/ipc.c:1498-1550 | a step keeps both wait lists in the order of service if and only if it is no change of priority that misplaces a waiting thread |
| MailboxSteps.EveryRunFifo | rt-thread/src/ipc.c:1486-1783 | every run, by the calls and what they return: mails sent = mails received, in the same order, and then those in the mailbox; entry never exceeds size, suspended threads imply that the mails (or free slots) are all left to woken threads, and a resumed thread has error RT_EOK just if it may try again |
| MailboxSteps.EveryRunInLines | rt-thread/src/ipc.c:1486-1783 | threads are woken in the order of service throughout a run if and only if its changes of priority are calm |
| Mailbox.Box.constructor | rt-thread/src/ipc.c:1336-1344 | the new mailbox is empty |
| Mailbox.Box.SendTry | rt-thread/src/ipc.c:1486-1585 | the ring buffer with in_offset, out_offset and entry represents the queue with the mail appended and the first receiver woken, or the sender is suspended in its place or refused |
| Mailbox.Box.RecvTry | rt-thread/src/ipc.c:1632-1738 | the oldest mail is taken out and the first sender woken, or the receiver is suspended in its place or refused |
| Mailbox.Box.Awake | rt-thread/src/ipc.c:1538-1543 | a resumed thread tries again just if its error is RT_EOK, else it returns the error |
| Mailbox.Box.Reset | rt-thread/src/ipc.c:1759-1780 | the mailbox is empty and all waiters are resumed with RT_ERROR |
| Mailbox.Box.Expire | rt-thread/src/thread.c:829-851 | a timeout takes just that thread off its ring, with RT_ETIMEOUT |
| SemaphoreSteps.StepInv | rt-thread/src/ipc.c:348-519 | each step, a change of priority included, allows waiters only at value 0 and tells resumed threads whether they were served |
| SemaphoreSteps.StepConserves | rt-thread/src/ipc.c:348-519 | each step conserves the units as counted from the calls and their results |
| SemaphoreSteps.StepErrors | rt-thread/src/ipc.c:402-408 | a thread taken off the list finds RT_EOK, RT_ETIMEOUT or RT_ERROR for a release, a timeout or a reset, and the error stays until it runs |
| SemaphoreSteps.StepInLine | rt-thread/src/ipc.c:348-466 | a step keeps the wait list in the order of service if and only if it is no change of priority that misplaces a waiting thread |
| SemaphoreSteps.ReleaseServesFirst | rt-thread/src/ipc.c:459-466 | the thread a release serves comes before every other waiter while the list is in line |
| SemaphoreSteps.EveryRunConserves | rt-thread/src/ipc.c:329-519 | every run, counted from the calls and what they return: units at the start or last reset + releases since = value + takes that returned RT_EOK since + units on their way; waiters imply value 0; a resumed thread has error RT_EOK just if a release gave it a unit |
| SemaphoreSteps.EveryRunInLine | rt-thread/src/ipc.c:329-519 | a run keeps the order of service throughout if and only if each change of priority in it lets the thread, if it waits, fit between its neighbours |
| SemaphoreSteps.PriorityChangeCanMisplace | rt-thread/src/thread.c:668-671 | a run of two takes and one change of priority that loses the order |
| Semaphore.Sem.constructor | rt-thread/src/ipc.c:204-225 | the new semaphore has its value and no waiters |
| Semaphore.Sem.Take | rt-thread/src/ipc.c:341-399 | takes a unit, refuses, or suspends the thread on the ring, error reset |
| Semaphore.Sem.Return | rt-thread/src/ipc.c:402-408 | returns the thread's error field, RT_EOK just if the thread was granted a unit |
| Semaphore.Sem.Release | rt-thread/src/ipc.c:452-475 | serves the first thread of the ring or raises the value |
| Semaphore.Sem.Reset | rt-thread/src/ipc.c:496-517 | the loop takes every thread off the ring with RT_ERROR and sets the value |
| Semaphore.Sem.Expire | rt-thread/src/thread.c:829-851 | a timeout takes just that thread off the ring, with RT_ETIMEOUT |
| MutexSteps.StepOwned | rt-thread/src/ipc.c:684-880 | each step keeps: no owner iff value 1 iff hold 0, waiters imply an owner that does not wait, resumed threads have RT_EOK just as owner |
| MutexSteps.StepErrors | rt-thread/src/ipc.c:760-776 | a thread taken off the list finds RT_EOK or RT_ETIMEOUT for a hand-over or a timeout, and the error stays until it runs |
| MutexSteps.StepRanked | rt-thread/src/ipc.c:684-880 | a step keeps lent priorities and, on a PRIO mutex, order and inheritance, if and only if it is no change of priority behind the back of the mutex |
| MutexSteps.FinalReleaseRestores | rt-thread/src/ipc.c:838-880 | the last release restores the priority the mutex remembers, which is the thread's own, and makes the first waiter the owner with hold 1 |
| MutexSteps.HandOverInherits | rt-thread/src/ipc.c:851-869 | after a hand-over no waiter outranks the owner if and only if the new owner was the most urgent waiter |
| MutexSteps.StepInherits | rt-thread/src/ipc.c:684-880 | FIFO or PRIO: a step keeps the owner as urgent as every waiter if and only if it hands over to the most urgent waiter, when it hands over, and lets no waiter overtake by a change of priority |
| MutexSteps.FifoHandOverCanInvert | rt-thread/src/ipc.c:851-869 | a run of a FIFO mutex that ends with a waiter more urgent than the owner |
| MutexSteps.EveryRunOwned | rt-thread/src/ipc.c:659-889 | every run, with changes of priority: ownership is consistent, and a resumed thread has error RT_EOK just as owner |
| MutexSteps.EveryRunNested | rt-thread/src/ipc.c:686-690 | every run, for every thread, counted from the calls and what they return: its successful takes less its successful releases are the hold count if it is the owner, and 0 otherwise |
| MutexSteps.EveryRunInherits | rt-thread/src/ipc.c:659-889 | FIFO or PRIO: no waiter outranks the owner at any time of a run if and only if every step of it is fair |
| MutexSteps.EveryRunRanked | rt-thread/src/ipc.c:659-889 | priorities are lent to the owner only and, on a PRIO mutex, the list stays sorted and led by the owner at all times of a run, if and only if every change of priority in it is calm |
| Mutex.Mutex.constructor | rt-thread/src/ipc.c:535-555 | the new mutex is unlocked |
| Mutex.Mutex.Take | rt-thread/src/ipc.c:684-740 | recursion, first take, refusal, or suspension with the owner's priority raised; error set on each path |
| Mutex.Mutex.Return | rt-thread/src/ipc.c:760-776 | returns the thread's error field, RT_EOK just as owner |
| Mutex.Mutex.Release | rt-thread/src/ipc.c:826-880 | refusal for others, inner release, hand-over to the first thread of the ring, or unlocking |
| Mutex.Mutex.Expire | rt-thread/src/thread.c:829-851 | a timeout takes just that thread off the ring, with RT_ETIMEOUT |
| EventSteps.WalkAtRest | rt-thread/src/ipc.c:1066-1116 | although serving a thread takes bits from those behind it, the walk leaves no thread whose condition holds |
| EventSteps.WalkConserves | rt-thread/src/ipc.c:1066-1116 | the walk takes away exactly what consuming receivers were told, no such bit is told twice, nobody is told a bit that was not set |
| EventSteps.AllBits | rt-thread/src/ipc.c:1073-1079 | an AND condition holds just if every single bit asked for is set |
| EventSteps.AnyBit | rt-thread/src/ipc.c:1081-1090 | an OR condition holds just if some single bit asked for is set |
| EventSteps.GotBits | rt-thread/src/ipc.c:1081-1090 | a served thread is told exactly the bits that it asked for and that are set |
| EventSteps.SendConserves | rt-thread/src/ipc.c:1058-1116 | a send adds its bits to those that are set; what it hands to consuming receivers is gone from the set, and all the rest stays |
| EventSteps.RecvConserves | rt-thread/src/ipc.c:1174-1203 | a receive that succeeds takes out of the set exactly what it reports, if it consumes, and nothing otherwise |
| EventSteps.BothPathsAgree | rt-thread/src/ipc.c:1174-1203 | with the same bits set, an immediate receiver and one that a send wakes are told the same bits and leave the same bits behind; `Event.Event.Return` ties what the woken one is told to its event_set |
| EventSteps.StepInv | rt-thread/src/ipc.c:1050-1224 | each step keeps every suspended thread's condition false |
| EventSteps.StepTold | rt-thread/src/ipc.c:1104-1116 | each step tells resumed threads whether they were served |
| EventSteps.StepErrors | rt-thread/src/ipc.c:1242-1253 | a thread taken off the list finds RT_EOK, RT_ETIMEOUT or RT_ERROR for a send, a timeout or a reset, and the error stays until it runs |
| EventSteps.StepQueued | rt-thread/src/ipc.c:1066-1116 | a step, walks that serve threads in the middle included, keeps the wait list in the order of service if and only if it is no change of priority that misplaces a waiting thread |
| EventSteps.EveryRunAtRest | rt-thread/src/ipc.c:1038-1298 | in every reachable state no suspended thread's AND/OR condition holds of the event set, and a resumed thread has error RT_EOK just if a send served it |
| EventSteps.EveryRunAccounted | rt-thread/src/ipc.c:1038-1298 | every run, by the calls and the deliveries: each bit sent since the last reset is set or was handed to a consuming receiver, and no other bit is; waiting threads wait for what their callers asked for, and served ones were told what they asked for |
| EventSteps.EveryRunQueued | rt-thread/src/ipc.c:1038-1298 | the wait list keeps the order of service throughout a run if and only if its changes of priority are calm |
| Event.Event.constructor | rt-thread/src/ipc.c:924-942 | the new event has no bits and no waiters |
| Event.Event.Send | rt-thread/src/ipc.c:1050-1126 | the send refines the walk over the sequence of waiters; it reports an error for no bits |
| Event.Event.WalkList | rt-thread/src/ipc.c:1066-1116 | the loop over the ring, which changes while it is walked, computes the same rest, bits and deliveries as the walk over the sequence |
| Event.Event.Recv | rt-thread/src/ipc.c:1159-1225 | error, immediate delivery, refusal or suspension on the ring in its place |
| Event.Event.Return | rt-thread/src/ipc.c:1242-1261 | returns the thread's error field, RT_EOK just if a send served it, and then the bits in its event_set, which are the bits that send delivered |
| Event.Event.Reset | rt-thread/src/ipc.c:1282-1298 | no bits, all waiters resumed with RT_ERROR |
| Event.Event.Expire | rt-thread/src/thread.c:829-851 | a timeout takes just that thread off the ring, with RT_ETIMEOUT |
| Tiling.CanonicalUnique | rt-thread/src/mem.c:156-194 | a chain without free neighbours is determined by its live blocks |
| Tiling.Apart | rt-thread/src/mem.c:305-311 | different blocks of a chain never overlap |
| Tiling.HeadersMissPayloads | rt-thread/src/memheap.c:187-258 | between two chains, no header of either and not the closing one shares an address with the payload of a block that is in both |
| Tiling.Conserved | rt-thread/src/mem.c:349-369 | used spans, free payloads and headers of free blocks add up to the whole range |
| TilingOps.AllocAtChain | rt-thread/src/mem.c:316-369 | allocating keeps the chain canonical, adds exactly the granted block to the live ones and moves its bytes between the accounts |
| TilingOps.FreeAtChain | rt-thread/src/mem.c:596-613 | freeing with both merges keeps the chain canonical, removes exactly that live block and returns its bytes, headers of merged blocks included |
| TilingOps.ResizeAtChain | rt-thread/src/memheap.c:330-491 | moving the end of a used block into or out of the free space behind it keeps the chain canonical, changes only that live block and keeps the accounts |
| TilingOps.AllocThenFree | rt-thread/src/mem.c:316-387 | freeing the block just allocated gives back the very chain from before |
| TilingOps.FreeAllInAnyOrder | rt-thread/src/mem.c:165-193 | whatever the order in which the live blocks are freed, one free block covering the heap is left |
| HeapCells.LinkedSplice | rt-thread/src/mem.c:329-347 | rewriting a stretch of headers and the back-link behind it leaves all links of the chain right |
| HeapCells.StretchKeepsLive | rt-thread/src/mem.c:329-347 | writing inside a stretch keeps the payload of every live block outside it |
| SmallHeap.SystemHeapInit | rt-thread/src/mem.c:204-255 | for every range: refused without room for two headers, left with no bytes, or made one free block between aligned bounds |
| SmallHeap.TinyHeapReturns | rt-thread/src/mem.c:277-300 | below 16 bytes rt_malloc gets as far as its search if and only if the heap has 8 bytes and is asked for 1 to 8; every other request is refused before |
| SmallHeap.EightByteHeapLoops | rt-thread/src/mem.c:299-311 | there the search never ends, for every request of 1 to 8 bytes and any number of turns, since its bound wraps around |
| SmallHeap.NeedLeast | rt-thread/src/mem.c:281-300 | the size searched for is the least multiple of 8 from the request and from 16 on |
| SmallHeap.GrantedTight | rt-thread/src/mem.c:316-369 | a block handed out is as large as needed, or less than 32 bytes larger |
| SmallHeap.Heap.constructor | rt-thread/src/mem.c:204-255 | one free block between aligned bounds, closed by heap_end, from 8 bytes on |
| SmallHeap.Heap.PlugHoles | rt-thread/src/mem.c:156-194 | merges with both neighbours, keeps lfree the lowest free block and writes nothing outside the merged stretch |
| SmallHeap.ExactFitAtEnd | rt-thread/src/mem.c:305-307 | when the scan stops early, only an exact fit ending at heap_end can be left |
| SmallHeap.Heap.Malloc | rt-thread/src/mem.c:272-409 | terminates, on every heap but the 8-byte one asked for 1 to 8; succeeds just if a fitting block exists that is not an exact fit ending at heap_end; the result is the lowest fitting block, cut to size; all other live payloads are untouched; on NULL nothing changed; max_mem is the maximum |
| SmallHeap.Heap.Grant | rt-thread/src/mem.c:316-387 | marks, splits, accounts and moves lfree on, keeping the invariant |
| SmallHeap.Heap.FindLowest | rt-thread/src/mem.c:380-397 | the loop stops at the lowest free block or heap_end |
| SmallHeap.Heap.Free | rt-thread/src/mem.c:552-615 | the chain with that block freed and merged; all other live payloads are untouched; foreign pointers are ignored |
| SmallHeap.Heap.Shrink | rt-thread/src/mem.c:471-503 | the block keeps its first bytes, the rest is freed and merged, accounts and lfree follow |
| Memory.MemCopy | rt-thread/src/kservice.c:213-280 | word loop and byte loop together copy exactly the range and change nothing else |
| SmallHeap.Heap.Move | rt-thread/src/mem.c:506-515 | the first fit is taken, the common bytes are copied and the old block freed, exactly; all other payloads are kept; max_mem counts both blocks; it fails just if malloc would, and then nothing changed |
| SmallHeap.Heap.Carry | rt-thread/src/mem.c:509-513 | copy and free: the bytes arrive and all other live payloads are untouched |
| SmallHeap.Heap.Realloc | rt-thread/src/mem.c:421-516 | which branch is taken, the resulting chain, exactly, and that only the moving branch can fail; a nonzero size keeps the first min(old capacity, new size) bytes on success; on NULL heap and bytes are intact; size 0 frees that block and touches no other payload; null and foreign pointers; max_mem in every case |
| SmallHeapRoundTrip.MallocThenFree | rt-thread/src/mem.c:272-615 | malloc and then free of the result restores block chain, lfree and used_mem exactly and keeps all live payloads |
| SmallHeapRoundTrip.FreeAllBlocks | rt-thread/src/mem.c:552-615 | freeing all live blocks in any order leaves one free block, lfree 0 and used_mem 0 |
| SmallHeapRoundTrip.ExactFitRefused | rt-thread/src/mem.c:305-307 | a run: a fresh heap with 32 bytes to give refuses a request for 32 |
| SmallHeapRoundTrip.ShrinkLeavesEightBytes | rt-thread/src/mem.c:471-503 | a run: 40 bytes allocated and shrunk to 8 leave a block below the minimum of rt_malloc |
| SmallHeapThreads.OtherThreads | rt-thread/src/mem.c:272-615 | any number of calls and writes of other threads leave the blocks that are not theirs live and their bytes untouched |
| SmallHeapThreads.MoveAmongOthers | rt-thread/src/mem.c:506-515 | with other threads at work whenever the heap lock is free between allocation, copy and free, the common bytes still arrive, the old block is freed, and on NULL nothing changed |
| MemHeapLists.AllocListsFree | rt-thread/src/memheap.c:187-258 | after an allocation the free list holds exactly the unused blocks, each once |
| MemHeapLists.FreeListsFree | rt-thread/src/memheap.c:535-591 | after a free with merges the free list holds exactly the unused blocks, each once |
| MemHeapLists.ResizeListsFree | rt-thread/src/memheap.c:350-396 | after a resize in place the free list holds exactly the unused blocks, each once |
| MemHeapLists.FreedIsFirst | rt-thread/src/memheap.c:575-591 | what was freed last, unless merged to the left, is the first block the next search finds |
| MemHeap.Heap.constructor | rt-thread/src/memheap.c:50-118 | one free block and the used tailer, on both rings |
| MemHeap.TinyPoolRefuses | rt-thread/src/memheap.c:149-160 | a pool of 48 or 56 bytes refuses every request by the first test |
| MemHeap.NeedLeast | rt-thread/src/memheap.c:147-150 | the size searched for is 12 for requests up to 8, and the least multiple of 8 from the request on for all others |
| MemHeap.GrantedTight | rt-thread/src/memheap.c:187-258 | a block handed out is as large as needed, or less than 36 bytes larger |
| MemHeap.Heap.Alloc | rt-thread/src/memheap.c:138-275 | succeeds just if the size is below available_size and a listed block has room; takes the first such block of the free list; keeps both rings, available_size and the peak |
| MemHeap.Heap.Free | rt-thread/src/memheap.c:495-596 | the chain with that block freed and merged on both sides, the free list and available_size to match |
| MemHeap.Heap.Grow | rt-thread/src/memheap.c:350-401 | growing in place moves the boundary to the free block behind and keeps the invariant and the peak |
| MemHeap.Heap.Shrink | rt-thread/src/memheap.c:418-491 | shrinking in place, with or without a merge, keeps the invariant and the accounts |
| MemHeap.Heap.Enlarge | rt-thread/src/memheap.c:315-416 | grows into the free block behind, or moves, with the same exact account of chain, free list, levels and bytes |
| MemHeap.Heap.Move | rt-thread/src/memheap.c:404-416 | the first listed fit is taken, the common bytes are copied and the old block freed, exactly, with free list and the two levels of use gone through; all other payloads are kept; it fails just if there is no room, and then nothing changed |
| MemHeap.Heap.Realloc | rt-thread/src/memheap.c:284-491 | which branch is taken (grow, move, stay, cut), with the resulting chain, free list and levels of use, exactly, so that max_used_size is the peak over the whole run; only the move can fail; the first min(old, new) bytes are kept, every other live block and payload is untouched; on NULL nothing changed; size 0 frees, null allocates or does nothing |
| DescriptorSteps.LoadEmptyExactly | drivers/net/synopGMAC_Dev.c:1537-1541 | a loaded descriptor counts as empty if and only if the low eleven bits of the length are zero |
| DescriptorSteps.Length2048LooksEmpty | drivers/net/synopGMAC_Dev.c:1537-1541 | a descriptor loaded with length 2048 is owned by the DMA and counts as empty |
| DescriptorSteps.LoadFacts | drivers/net/synopGMAC_Dev.c:1920-2014 | loading gives the descriptor to the DMA with the packet's DMA address, own address and length in their fields and the control bits set, and keeps its place in the ring |
| DescriptorSteps.SetRefusedExactly | drivers/net/synopGMAC_Dev.c:1928-1932 | a set is refused if and only if the ring is full |
| DescriptorSteps.StepInv | drivers/net/synopGMAC_Dev.c:1837-2346 | every driver and DMA step keeps indices, pointers, busy count, ring marks and the window of non-empty descriptors in step |
| DescriptorSteps.EveryRunInStep | drivers/net/synopGMAC_Dev.c:1837-2346 | every run: next = busy + count modulo the ring size, exactly that window is non-empty, and, by the calls and what they return, submitted = returned + window, so each buffer comes back once and in order |
| DescriptorRing.Ring.constructor | drivers/net/synopGMAC.c:110-130 | the set-up loop leaves a fresh ring, its last descriptor marked |
| DescriptorRing.Ring.SetQptr | drivers/net/synopGMAC_Dev.c:1920-2014 | is the set step; returns the index used or -1 |
| DescriptorRing.Ring.GetQptr | drivers/net/synopGMAC_Dev.c:1837-1898 | is the get step; returns the index and packet closed or -1 |
| DescriptorRing.Ring.DmaMayClose | drivers/net/synopGMAC_Dev.c:1502-1505 | any number of descriptors the DMA owns are closed, as DMA steps, and nothing else changes |
| DescriptorRing.Ring.Fill | drivers/net/synopGMAC.c:332-350 | the fill loop terminates and submits the first buffers, as many as fit and could be allocated |
| DescriptorRing.Ring.EthRx | drivers/net/synopGMAC.c:558-608 | a buffer is received just if the busy descriptor is closed and not empty; it goes back to the ring at once, with its full size, and is never refused; otherwise nothing changes; the lock is free again |
| DescriptorRing.Ring.EthTx | drivers/net/synopGMAC.c:457-537 | when the packet is queued, dropped or refused and with which result, exactly; on success no closed descriptor is left at the busy place; the lock stays taken just on the error returns |
| DescriptorRing.Ring.Reclaim | drivers/net/synopGMAC.c:493-530 | the loop terminates while the DMA goes on, returns buffers in order, and stops only at a descriptor that is empty or still the DMA's |
| DescriptorRing.FailedSendKeepsLock | drivers/net/synopGMAC.c:460-466 | a run: a send without a buffer returns -1 and leaves the lock taken |
| DescriptorRing.BusySendDropsPacket | drivers/net/synopGMAC.c:457-537 | a run: with the only descriptor still the DMA's a send returns 0 and its packet is not queued |
| FormatText.NumberTextLength | rt-thread/src/kservice.c:646-777 | for precision other than 0 the text has exactly max(width, sign + max(digits, precision)) characters |
| FormatText.NumberReadsBack | rt-thread/src/kservice.c:571-777 | for base 10 or 16 and precision other than 0 the text without its padding reads back as the number |
| FormatText.PrecisionZeroShowsNoDigits | rt-thread/src/kservice.c:762-768 | with precision 0 the text is sign and padding only, in the three layouts, and the padding is as if the digits were there |
| FormatText.ReadsBackExactly | rt-thread/src/kservice.c:571-777 | for every 32-bit number, base 10 or 16, width and flags the text reads back as the number if and only if the precision is not 0 or the number is |
| FormatText.OctalExactly | rt-thread/src/kservice.c:571-588 | base 8 prints the octal digits if and only if the number is below 8 |
| Formatter.SplitDigits | rt-thread/src/kservice.c:679-686 | the division loop stores the digits, last first, and at most ten of them |
| Formatter.PrintNumber | rt-thread/src/kservice.c:646-778 | for every width, precision and flag set the characters put out are the number's text, stored only below the end |
| Formatter.SkipAtoi | rt-thread/src/kservice.c:591-598 | the decimal value of the longest run of digits, and the place behind it |
| Formatter.ScanConversion | rt-thread/src/kservice.c:823-886 | flags, width, precision and qualifier as the format gives them |
| Formatter.PrintConversion | rt-thread/src/kservice.c:888-1028 | each conversion puts out its text and says where format and arguments go on |
| FormatLaws.ConversionRead | rt-thread/src/kservice.c:823-886 | a conversion written with any flags, width, precision and qualifier is read back out of a format as what it says |
| FormatLaws.NumberPrinted | rt-thread/src/kservice.c:902-1028 | for every numeric conversion, flag set, width and precision other than 0: the text is sign, zeros and digits of the base and case, padded as the flags say, of the number the argument means (32 bits, 16 with h, with or without sign), and reads back as it; the format goes on behind it |
| FormatLaws.StringPrinted | rt-thread/src/kservice.c:919-948 | %s shows its string up to the terminator, or (NULL), cut to a precision above 0 and padded to the width on the side the flags say |
| FormatLaws.CharPrinted | rt-thread/src/kservice.c:893-917 | %c shows its character, padded to the width on the side the flags say |
| FormatLaws.OtherPrinted | rt-thread/src/kservice.c:967-1004 | %% shows a percent sign and an unknown conversion shows itself |
| Formatter.Vsnprintf | rt-thread/src/kservice.c:780-1042 | for every format and arguments: capacity n > 0 stores the first n-1 characters of the unbounded text and a terminator, nothing at or past n is written, cells behind the terminator are kept, and the result is the unbounded length |
| Formatter.StoredReadsBack | rt-thread/src/kservice.c:1030-1037 | read as a C string, the buffer gives back the text, cut to what leaves room for the terminator |
| Formatter.PlainFormat | rt-thread/src/kservice.c:813-821 | a format without conversions is put out as it is |
| Weekday.WeekdayCountsDays | libraries/ls1c_rtc.c:84-102 | the closed form is the number of days since 2000-01-01, a Saturday (6), modulo 7, for every date from 2000 on |
| Weekday.WeekdayAdvances | libraries/ls1c_rtc.c:62-102 | each calendar day, across month ends, leap days and year ends, advances the weekday by one modulo 7 |
| Weekday.DayAfterCounts | libraries/ls1c_rtc.c:84-102 | n days after 2000-01-01 the weekday is (6 + n) modulo 7 |
| Weekday.EveryDateReached | libraries/ls1c_rtc.c:62-82 | stepping day by day from 2000-01-01 reaches every date, so the count covers all of them |

## Left out

- Signals: `rt_mutex_take` retries after a signal (rt-thread/src/ipc.c:693-695, 764-767); runs are those without it.
- Machine width: sizes are assumed not to wrap when rounded up, the semaphore value stays at most 65535, the owner's hold
  count at most 255, tick arithmetic and widths parsed by `skip_atoi` are unbounded.
- Timeouts: remaining waiting time is not counted; `wait` says whether any is left, and `Expire` may happen at any time.
- Detach, delete and create of IPC objects, object and hook bookkeeping, `rt_mutex_control`.
- SMP locking and the scheduler itself; the error field and the priority of a thread are modelled per object, so a thread
  that another object changes meanwhile is covered only through `SetPriority`.
- Waits.WaitLists.Awake: the error field that a mailbox or message-queue call leaves behind when it returns without
  waiting is not modelled; nothing reads it before it is reset.
- MutexSteps.EveryRunOwned: one mutex; a thread holding several mutexes is not modelled.
- Event.Event.Recv: a receive with neither AND nor OR is excluded, as the source asserts.
- SmallHeap.Heap.Malloc: requests of 1 to 8 bytes on a heap of 8 are excluded; the source loops for ever there, as
  `EightByteHeapLoops` shows. A heap of no bytes is an outcome of `SystemHeapInit` without an object.
- SmallHeap.Heap.constructor: a heap of no bytes is excluded, see above.
- SmallHeap.Heap.Free: a pointer into the heap that is not a live payload is excluded; the source logs it and asserts.
- SmallHeap.Heap.Realloc: one step here; the moving branch among other threads is `SmallHeapThreads.MoveAmongOthers`, in
  which the copy is one step, and a thread does not use a block that another thread is reallocating.
- Header fields in `HeapCells` are whole numbers in the cell of their first byte, not split into bytes; `heap_end->prev`
  is not described, since the source lets it go stale.
- MemHeap.Heap.Realloc: the headers of memheap.c are kept apart from the payload bytes, so that header writes leave
  payloads alone is part of the model and not a theorem as for mem.c; `Tiling.HeadersMissPayloads` says why they do. The
  lock semaphore is not modelled. Payload alignment is not claimed: the minimum of 12 bytes breaks it.
- MemHeap.Heap.constructor: pools of 48 and 56 bytes, whose only block is smaller than any that is ever split off, are
  excluded; they refuse every request, as `TinyPoolRefuses` says. Smaller pools are outside what the source can set up.
- MemHeap.Heap.Free: magic-number assertions and the pool back-link of each header are not modelled.
- `rt_calloc`, memory statistics and tracing, `rt_memory_info`, slab and memory pools.
- DescriptorSteps.StepInv: chain mode, enhanced descriptors, a second buffer and checksum bits are not modelled; nor is
  recovery from fatal DMA errors, which resets indices but not the matching descriptor pointers.
- DescriptorRing.Ring.EthRx: the frame copied to the network stack, statistics and the null-device returns are left out.
- Formatter.Vsnprintf: the buffer does not wrap around the address space; `%ll`, `0x` prefixes and 64-bit numbers are not
  compiled in.
- `RTC_SetTime` and `RTC_GetTime`, which pack and unpack register fields.
- Register-level drivers, CAN frame packing, the applications, and the build tools.
