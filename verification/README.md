# Verified models of the RT-Thread kernel core

Dafny models of the RT-Thread 4.0.4 kernel vendored under `rt-thread/`: its two heap allocators, the IPC
objects, the memory pool, the uniprocessor scheduler with its time slices, the bounded formatter, and the
intrusive lists and bitmaps below them. `dafny verify dfyconfig.toml` checks the project.

How the parts are modelled:

- **Heaps** (`Tiling`, `Contents`, `SmallHeap`, `MemHeap`). Both allocators work in place on one array of
  4-byte words in which headers and payloads lie side by side; methods follow the C functions write by write.
  `Tiling` is the value they are proved against: the address-ordered blocks, with the live blocks (payload
  address to payload size) and the used and free totals as functions of it. `Valid()` of each heap says that
  the words spell out a layout without adjacent free blocks, that the free list or `lfree` matches it, and
  that the counters are exact; every operation keeps it, so it holds after every sequence of operations on
  live blocks. `Contents` states which words an operation may change: every live payload is kept.
- **IPC and the pool** (`WaitList`, `Wakeup`, `MessageQueue`, `Mailbox`, `Mutex`, `Event`, `Semaphore`, `MemPool`). Each
  region between `rt_hw_interrupt_disable` and `rt_hw_interrupt_enable` is one atomic step of a state machine;
  timeouts and resets are steps too. Invariants are proved for every run of any number of threads. A class
  beside each machine has the fields of the C object and methods that compute the steps; the rings, links and
  offsets in memory are proved to spell out the machine's state.
  A thread resumed without error is "woken" until it is back at the head of its retry loop; a thread resumed
  with an error (timeout, reset) returns.
  `Wakeup` is the waiting protocol that mailbox, message queue and memory pool have in common.
  What the objects do is also counted from the calls and their results alone, beside the machines: the messages
  sent, the mails posted, the takes and releases of a semaphore, the depth of a mutex, the critical sections open.
  In these machines a wait list is a sequence of threads; `WaitRing` proves that suspending, resuming and timing
  out on the rings in memory do what the sequences say.
- **Scheduler** (`Bitmap`, `Scheduler`). Ready lists, group word, current thread, lock nest and time slices,
  with the state changes `thread.c` makes through them. A run begins where `rt_system_scheduler_start` leaves any
  number of started threads; on the way threads start, exit, are closed, suspended and resumed in any order.
- **Formatter** (`Printf`) and **lists** (`IntrusiveList`, on heap nodes).

Things the proofs brought out:

- `rt_malloc` stops scanning one word early: the last block is refused when its payload is exactly the wanted
  size (`ScanRefusesExactLastFit`).
- `rt_realloc` to a slightly smaller size moves the block and can fail (`ShrinkFailsIff`);
  `rt_memheap_realloc` cannot (`ShrinkStaysPut`).
- The branch of `plug_holes` that moves `lfree` back when the *following* block is the lowest free one is dead
  code whenever the heap is well formed: the block itself is then lower and free (`LfreeNotBehind`).
- `rt_memheap_alloc` refuses a request for every available word (`RefusedThoughLargeEnough`).
- `rt_memheap_realloc` tests for growing in place with sums that wrap: with a free item behind, a request for more
  than 0xFFFF_FFF0 bytes passes the test although nothing that large fits, and the next item would be built inside
  the block's own header. The test is right iff the item behind is in use or the request is no larger than that
  (`TestAgreesIff`, `WrappedCut`, `TestWraps`); `MemHeap.Heap.Realloc` is specified wherever the test is right.
- A waiter that gives up leaves the mutex owner's boost in place until the release: the owner runs more urgently than
  it and its waiters call for iff some thread that asked and gave up was more urgent than all of them
  (`BoostOutlivesIff`, with a run in `BoostOutlivesWaiter`).
- `rt_mp_alloc` serves waiting threads last come, first served.
- `%s` with a width cuts longer texts, and precision 0 does not cut (`TextFieldExact`); with precision 0 no digit
  of a number is printed, but its digits still count for the padding (`NumberLength`); `%o` prints hexadecimal
  digits (`OctalPrintsHex`).
- A YIELD flag set by a tick survives iff the scheduler is locked or no thread is ready (`StaleYieldIff`); a later
  `rt_schedule` then takes it as a reason to switch to an equally urgent thread. With ticks alone this does no
  harm: the round-robin wait is exact.

## Model

| member | source | states |
|---|---|---|
| `Tiling.CarveTiled` | rt-thread/src/mem.c:316-372 | Splitting a fitting free block, or taking it whole, keeps the blocks tiling the pool with no two free neighbours. |
| `Tiling.CarveLive` | rt-thread/src/mem.c:316-372 | Allocation adds exactly one live block, at an address that was not live; every other live block keeps address and size. |
| `Tiling.CarveTotals` | rt-thread/src/memheap.c:299-345 | Allocation moves the granted words, and one header when it splits, from the free total to the used total. |
| `Tiling.MergeTiled` | rt-thread/src/mem.c:156-194 | Combining a block with its free neighbours restores "no two neighbours are both free". |
| `Tiling.MergeLive` | rt-thread/src/mem.c:156-194 | Combining free blocks touches no live block. |
| `Tiling.MergeTotals` | rt-thread/src/memheap.c:668-706 | Every absorbed header becomes payload of the free total; the used total stays. |
| `Tiling.ReleaseLive` | rt-thread/src/mem.c:553-616 | Freeing removes exactly the freed block from the live blocks. |
| `Tiling.TrimLive` | rt-thread/src/mem.c:471-504 | Shrinking in place leaves the block at its address with exactly the new size, all others as they were. |
| `Tiling.GrowLive` | rt-thread/src/memheap.c:438-516 | Growing in place leaves the block at its address with exactly the new size, all others as they were. |
| `Tiling.SpansFillPool` | rt-thread/src/mem.c:203-256 | Used plus free spans, headers included, equal the pool up to the sentinel (mem_size_aligned + SIZEOF_STRUCT_MEM), for every layout. |
| `Tiling.LayoutDetermined` | rt-thread/src/mem.c:156-194 | The live blocks alone determine the whole layout: fragmentation depends on no history. |
| `Tiling.CarveReleaseRestores` | rt-thread/src/mem.c:271-409 | Freeing what was just allocated restores the layout exactly, in both heaps. |
| `Contents.Memcpy` | rt-thread/src/kservice.c:216-286 | rt_memcpy between disjoint stretches copies n words and changes no other. |
| `Contents.MoveKeeps` | rt-thread/src/mem.c:507-513 | Allocation, copy and release together keep every other block and carry the first min(old, new) words over. |
| `SmallHeap.Heap.constructor` | rt-thread/src/mem.c:235-253 | A fresh heap is one free block; the invariant holds. |
| `SmallHeap.Heap.SystemHeapInit` | rt-thread/src/mem.c:203-256 | The heap covers the aligned region less two headers; there is no heap iff the region cannot hold them. |
| `SmallHeap.Want` | rt-thread/src/mem.c:287-299 | The size served is the request rounded up to a word, 12 bytes at least: never fewer bytes than asked for, less than a word more. |
| `SmallHeap.Heap.Absorb` | rt-thread/src/mem.c:165-193 | One free block taking over the next keeps offsets, back links and the lowest-free cursor in order. |
| `SmallHeap.Heap.PlugHoles` | rt-thread/src/mem.c:156-194 | plug_holes computes the merge of the layout and writes no payload. |
| `SmallHeap.LfreeNotBehind` | rt-thread/src/mem.c:174-177 | In a well-formed heap lfree is never the block behind a free one, so this branch is dead. |
| `SmallHeap.Heap.Scan` | rt-thread/src/mem.c:304-311 | The scan from lfree stops at the lowest block that fits, counted from the bottom of the heap, or shows that none fits; it terminates. |
| `SmallHeap.Heap.AdvanceLfree` | rt-thread/src/mem.c:379-386 | lfree moves on to the lowest free block, or to the sentinel. |
| `SmallHeap.Heap.Malloc` | rt-thread/src/mem.c:271-409 | Null iff no block fits, with nothing changed; otherwise a fresh live block of at least the bytes asked for, and less than one header and one minimal block more, all live bytes kept, used_mem exact, max_mem the peak. |
| `SmallHeap.AllocatedLive` | rt-thread/src/mem.c:271-409 | What a successful allocation means for the live blocks. |
| `SmallHeap.ScanRefusesExactLastFit` | rt-thread/src/mem.c:304-311 | The strict bound of the scan refuses exactly one kind of fitting block: the last one, filled to the word. |
| `SmallHeap.FreshHeapRefusesItsWholeSize` | rt-thread/src/mem.c:304-311 | A concrete case of it: a fresh heap cannot hand out its whole payload. |
| `SmallHeap.Heap.Free` | rt-thread/src/mem.c:553-616 | The freed block, and no other, stops being live; it is merged with its free neighbours; all other bytes are kept; the counters stay exact. |
| `SmallHeap.Heap.Shrink` | rt-thread/src/mem.c:471-504 | Shrinking in place: exact new size, tail merged and counted, contents kept. |
| `SmallHeap.Heap.Move` | rt-thread/src/mem.c:505-515 | A moved block gets at least the wanted size elsewhere with its old words; a failure changes nothing. |
| `SmallHeap.Heap.Realloc` | rt-thread/src/mem.c:421-516 | All outcomes of rt_realloc: free, refusal, allocation, same block, shrunk in place, moved. A non-null result owns at least the bytes asked for, its first min(old, new) words are the old ones and every other block is as before; a null result for a nonzero size leaves heap and block as they were. |
| `SmallHeap.ReallocatedOwns` | rt-thread/src/mem.c:421-516 | Whatever the outcome, the live blocks change for the block resized only, and it owns at least the words asked for. |
| `SmallHeap.ShrinkFailsIff` | rt-thread/src/mem.c:463-515 | Giving up words returns null iff the words given up cannot hold a block and no block fits: the slightly smaller block is allocated anew. |
| `SmallHeap.ShrinkFails` | rt-thread/src/mem.c:463-515 | A concrete case of it: a fresh payload of 10 words serves 9 words whole, and asking for 9 words again gives null. |
| `SmallHeap.Heap.MallocAlign` | rt-thread/src/kservice.c:1306-1343 | The address handed out is a multiple of the alignment, all the bytes asked for behind it lie within one fresh live block, and the word in front of it holds that block. |
| `SmallHeap.Heap.FreeAlign` | rt-thread/src/kservice.c:1352-1358 | Frees the block noted in front of the aligned address. |
| `MemHeap.Heap.constructor` | rt-thread/src/memheap.c:116-191 | A fresh memheap is one free item on the free list and a used tail; the invariant holds. |
| `MemHeap.Want` | rt-thread/src/memheap.c:233-236 | The size served is the request rounded up to a word, 12 bytes at least: never fewer bytes than asked for, less than a word more. |
| `MemHeap.UnlinkRing` | rt-thread/src/memheap.c:305-309 | Two writes take any item off the circular free list. |
| `MemHeap.PushRing` | rt-thread/src/memheap.c:311-315 | Four writes put an item at the front of the circular free list. |
| `MemHeap.Heap.Search` | rt-thread/src/memheap.c:255-266 | The search stops at the first listed item that is large enough, or shows that no free block is. |
| `MemHeap.NothingListedFits` | rt-thread/src/memheap.c:255-269 | Since the list holds every free block, an unsuccessful search means that none fits. |
| `MemHeap.Heap.Alloc` | rt-thread/src/memheap.c:224-378 | Served iff some free block is large enough and the request is below the available size; a fresh live block of at least the bytes asked for, and less than one header and one minimal block more, all live bytes kept, both lists exact, available_size exact, max_used_size the peak; a refusal changes nothing. |
| `MemHeap.AllocatedLive` | rt-thread/src/memheap.c:224-378 | What a successful allocation means for the live blocks. |
| `MemHeap.RefusedThoughLargeEnough` | rt-thread/src/memheap.c:241 | With a block that is large enough, the request is refused iff it asks for every available word. |
| `MemHeap.FreshHeapRefusesItsWholeSize` | rt-thread/src/memheap.c:241 | A concrete case of it: a fresh memheap refuses every request for its whole available size. |
| `MemHeap.Heap.MergeBoth` | rt-thread/src/memheap.c:668-719 | The freed item merges left, then right; the free list stays exactly the free blocks, in a stated order; the available size gains one header for each merge. |
| `MemHeap.Heap.Free` | rt-thread/src/memheap.c:619-727 | The freed block, and no other, stops being live; layout, free list and available_size are exactly those of the merge; all other bytes are kept. |
| `MemHeap.Heap.Grow` | rt-thread/src/memheap.c:438-516 | Growing in place into the free item behind: exact size, contents kept, smaller free item rebuilt and listed, accounting exact. |
| `MemHeap.Heap.Shrink` | rt-thread/src/memheap.c:533-609 | Shrinking in place: tail split off, merged with a free item behind, listed and counted; contents kept. |
| `MemHeap.Heap.Move` | rt-thread/src/memheap.c:522-530 | A moved block gets at least the wanted size elsewhere with its old words; a failure changes nothing. |
| `MemHeap.Heap.Realloc` | rt-thread/src/memheap.c:393-610 | All outcomes of rt_memheap_realloc for up to 0xFFFF_FFFC bytes, or 0xFFFF_FFF0 if a free item follows the live block. A non-null result owns at least the bytes asked for, its first min(old, new) words are the old ones and every other block is as before; a null result for a nonzero size leaves heap and block as they were. |
| `MemHeap.ReallocatedOwns` | rt-thread/src/memheap.c:393-610 | Whatever the outcome, the live blocks change for the block resized only, and it owns at least the bytes asked for. |
| `MemHeap.ShrinkStaysPut` | rt-thread/src/memheap.c:533-609 | Giving up words never fails and never moves the block. |
| `MemHeap.TestAgreesIff` | rt-thread/src/memheap.c:438-460 | The wrapping test for growing in place agrees with the true one iff the item behind is in use (or the tail) or the request is of 0xFFFF_FFF0 bytes or less; beyond that growing is never possible. |
| `MemHeap.WrappedCut` | rt-thread/src/memheap.c:480-488 | Where the new item is then built: inside the header of the block that was to grow. |
| `MemHeap.TestWraps` | rt-thread/src/memheap.c:460 | A concrete heap and request for which the wrapping test passes with far too few words. |
| `WaitList.FindPlace` | rt-thread/src/ipc.c:118-147 | The search of _ipc_list_suspend finds the place behind every thread at least as urgent. |
| `WaitList.SuspendSorted` | rt-thread/src/ipc.c:109-156 | A list sorted by priority stays sorted, equals in order of arrival. |
| `WaitList.SuspendTakesPlace` | rt-thread/src/ipc.c:109-156 | A suspended thread joins in front of the first less urgent thread, at the end with the FIFO flag; the order of the others stays. |
| `MessageQueue.ConservedStep` | rt-thread/src/ipc.c:2714-3237 | In every state each node of the pool is on the queue, on the free list, or in the hands of one half-finished send or receive. |
| `MessageQueue.StepInv` | rt-thread/src/ipc.c:2714-3237 | Every region, timeout and reset keeps node conservation, the bytes of held nodes, the wait lists and the wakeup invariant. |
| `MessageQueue.RunInv` | rt-thread/src/ipc.c:2714-3237 | The same over every interleaving of any number of threads. |
| `MessageQueue.QuietMeansBlockedForAReason` | rt-thread/src/ipc.c:2714-3237 | No lost wakeup: once no woken thread is on its way, a suspended receiver means an empty queue and a suspended sender means no free node. |
| `MessageQueue.ReceiversStay` | rt-thread/src/ipc.c:2714-3237 | Over every interleaving a suspended receiver stays on its list, in its place before or behind any other, until it is the first at a wakeup, times out, or the queue is reset. |
| `MessageQueue.SendersStay` | rt-thread/src/ipc.c:2714-3237 | The same for a suspended sender. |
| `MessageQueue.NoOverflow` | rt-thread/src/ipc.c:2844-2853 | The entry overflow branches are unreachable. |
| `MessageQueue.OrderKept` | rt-thread/src/ipc.c:2829-3139 | Each step acts on the queued messages as on a double-ended queue: links append or, urgently, prepend, receives take the head, nothing else changes it. |
| `MessageQueue.TakenIsHead` | rt-thread/src/ipc.c:3123-3146 | Whatever other threads do between the two regions of a receive, the held message is the one that was at the head. |
| `MessageQueue.ReceiveYieldsHead` | rt-thread/src/ipc.c:3123-3142 | So the copy yields the head message, cut to the caller's buffer. |
| `MessageQueue.RunGiven` | rt-thread/src/ipc.c:2714-2872 | Over every interleaving: what a send holds until it links the message is the message its caller passed, with its urgency. |
| `MessageQueue.RunHoldsSent` | rt-thread/src/ipc.c:2714-3237 | Over every interleaving: the queued nodes hold, in the same order, the messages of an ideal queue driven by the calls alone. |
| `MessageQueue.ReceivedAsSent` | rt-thread/src/ipc.c:2714-3171 | End to end: a receive finds a message iff the ideal queue has one, and copies out the bytes its sender passed, up to their number or the size of the buffer. |
| `MessageQueue.Queue.constructor` | rt-thread/src/ipc.c:2454-2504 | All nodes are free and linked; msg_size is the aligned size and max_msgs what fits, both cut to 16 bits. |
| `MessageQueue.Queue.SendRegion` | rt-thread/src/ipc.c:2730-2822 | The first region of a send: oversize refusal, node taken, suspension in its place on the list of senders with all others left there, or refusal. |
| `MessageQueue.Queue.UrgentRegion` | rt-thread/src/ipc.c:2934-2957 | The first region of an urgent send. |
| `MessageQueue.Queue.FillNode` | rt-thread/src/ipc.c:2824-2827 | The copy between the regions writes the thread's own node only. |
| `MessageQueue.Queue.LinkRegion` | rt-thread/src/ipc.c:2829-2872 | The node is linked at the tail; the first receiver, and no other, leaves the list and is woken; head, tail and entry stay coherent, the result is never the overflow error. |
| `MessageQueue.Queue.UrgentLinkRegion` | rt-thread/src/ipc.c:2962-3001 | The node is linked at the head, likewise. |
| `MessageQueue.Queue.RecvRegion` | rt-thread/src/ipc.c:3046-3139 | The first region of a receive: head taken, suspension in its place on the list of receivers with all others left there, or refusal. |
| `MessageQueue.Queue.CopyOut` | rt-thread/src/ipc.c:3141-3142 | The caller gets the message it took, cut to size. |
| `MessageQueue.Queue.ReleaseRegion` | rt-thread/src/ipc.c:3144-3171 | The node returns to the free list; the first sender, and no other, leaves the list and is woken. |
| `MessageQueue.Queue.ResetRegion` | rt-thread/src/ipc.c:3197-3234 | Reset empties both wait lists and frees the queued nodes; nodes in hands stay there. |
| `MessageQueue.Queue.TimeOutSender` | rt-thread/src/thread.c:903-932 | A suspended sender that times out, and no other, leaves its list. |
| `MessageQueue.Queue.TimeOutReceiver` | rt-thread/src/thread.c:903-932 | A suspended receiver that times out, and no other, leaves its list. |
| `Mailbox.StepInv` | rt-thread/src/ipc.c:1970-2393 | Every region, timeout and reset keeps the wait lists and the wakeup invariant. |
| `Mailbox.RunInv` | rt-thread/src/ipc.c:1970-2393 | No lost wakeup over every interleaving: with no woken thread on its way, a suspended receiver means an empty mailbox, a suspended sender a full one. |
| `Mailbox.RunHoldsPosted` | rt-thread/src/ipc.c:1970-2393 | Over every interleaving the mails are those of an ideal bounded mailbox driven by the calls alone: sends append, urgent sends prepend, receives take the oldest, resets empty it. |
| `Mailbox.ReceiversStay` | rt-thread/src/ipc.c:1970-2393 | Over every interleaving a suspended receiver stays on its list, in its place, until it is the first at a wakeup, times out, or the mailbox is reset. |
| `Mailbox.SendersStay` | rt-thread/src/ipc.c:1970-2393 | The same for a suspended sender. |
| `Mailbox.PrependRing` | rt-thread/src/ipc.c:2160-2174 | Stepping out_offset back and storing there prepends to the ring, around the end of the pool too. |
| `Mailbox.PopRing` | rt-thread/src/ipc.c:2308-2320 | Reading at out_offset and stepping it forward takes the oldest mail. |
| `Mailbox.SlotIsModular` | rt-thread/src/ipc.c:2062-2067 | The wrap tests compute positions modulo the size, so in_offset = (out_offset + entry) mod size. |
| `Mailbox.Box.SendRegion` | rt-thread/src/ipc.c:1990-2097 | Appends when there is room and wakes the first receiver and no other, else suspends in its place or refuses; the overflow return is never taken. |
| `Mailbox.Box.UrgentRegion` | rt-thread/src/ipc.c:2141-2193 | Prepends when there is room and wakes the first receiver and no other, else refuses. |
| `Mailbox.Box.RecvRegion` | rt-thread/src/ipc.c:2233-2343 | Takes the oldest mail and wakes the first sender and no other, else suspends in its place or refuses. |
| `Mailbox.Box.ResetRegion` | rt-thread/src/ipc.c:2361-2393 | Empties the mailbox and both wait lists. |
| `Mutex.StepInv` | rt-thread/src/ipc.c:893-1184 | Take, release and timeout keep the mutex protocol: counters and owner agree, waiters imply an owner, queue stably sorted, priorities inherited and restored. |
| `Mutex.RunInv` | rt-thread/src/ipc.c:893-1184 | Over every run the owner is at least as urgent as every waiter and everybody else runs at its own priority. |
| `Mutex.RunDepth` | rt-thread/src/ipc.c:893-1184 | Over every run hold is the number of takes the owner was granted since it got the mutex less its releases, counted from the calls and what they returned. |
| `Mutex.ChangesHandsIff` | rt-thread/src/ipc.c:1076-1172 | The owner changes iff the owner releases at depth 1, whoever else calls; then the first waiter, if any, owns the mutex and the others stay in order. |
| `Mutex.RunOutcomes` | rt-thread/src/ipc.c:893-1184 | What each call returns, from the owner and the depth alone. |
| `Mutex.TakenTwiceReleasedOnce` | rt-thread/src/ipc.c:921-926 | A concrete run: taken twice and released once, the mutex is still held by its owner. |
| `Mutex.WaitersStay` | rt-thread/src/ipc.c:893-1184 | Over every run a waiter stays on the list, in its place, until it is handed the mutex or times out. |
| `Mutex.RunCalled` | rt-thread/src/ipc.c:893-1184 | Over every run the owner runs exactly at the most urgent of its own priority and those of the threads that asked since it got the mutex, still waiting or not; threads that waited before ask for nothing more. |
| `Mutex.BoostOutlivesIff` | rt-thread/src/ipc.c:978-1021 | Over every run: the owner is never less urgent than it and its waiters call for, and is more urgent iff a thread that asked and gave up was more urgent than the owner by itself and than every waiter. |
| `Mutex.BoostOutlivesWaiter` | rt-thread/src/ipc.c:978-1021 | A concrete run of it: take, a more urgent wait, its timeout with the boost in place, and the release that ends it. |
| `Mutex.LastRelease` | rt-thread/src/ipc.c:1108-1172 | The last release restores the owner's own priority and hands over to the most urgent, earliest waiter; without waiters the mutex is free. |
| `Mutex.OverflowIff` | rt-thread/src/ipc.c:921-957 | The overflow result appears iff the owner recurses beyond 255, and changes nothing; the other three tests (953-957, 1146-1150, 1164-1168) never fail. |
| `Mutex.MutexObject.Take` | rt-thread/src/ipc.c:893-1038 | The region of rt_mutex_take: granted when free, one deeper for the owner, the boost and the place on the list for a waiter, refused otherwise. |
| `Mutex.MutexObject.Release` | rt-thread/src/ipc.c:1076-1184 | rt_mutex_release: refused for anyone but the owner, one less deep, or handed over with the old owner back at its own priority. |
| `Mutex.MutexObject.TimeOut` | rt-thread/src/thread.c:903-932 | A waiter that times out leaves the list; the owner keeps its boost. |
| `Event.DrainSettles` | rt-thread/src/ipc.c:1448-1499 | One pass in list order is enough: what later threads clear satisfies no earlier one. |
| `Event.DrainAccounts` | rt-thread/src/ipc.c:1448-1499 | The waiters are dealt out, in order and one to one, to those who stay and those who are resumed; a resumed one got a nonempty part of what it asked for, all of it with AND, and nothing that had not happened. |
| `Event.DealtThreads` | rt-thread/src/ipc.c:1448-1499 | So the threads left and the threads resumed partition the threads that waited. |
| `Event.DrainInTurn` | rt-thread/src/ipc.c:1448-1499 | In list order each waiter whose bits are all set (AND) or one of whose bits is set (OR) leaves with them, taking them out of the set with CLEAR, and every other stays: stated on the bits. |
| `Event.SatisfiedBits` | rt-thread/src/ipc.c:1457-1476 | What AND and OR ask of the event set, in bits. |
| `Event.RunDealt` | rt-thread/src/ipc.c:1423-1512 | For every send of every run: the threads on the list before it are dealt out, in turn and by their bits, to the list after it and to those resumed, none lost or doubled. |
| `Event.StepSettled` | rt-thread/src/ipc.c:1423-1667 | After every operation no suspended thread's condition is satisfied by the event set. |
| `Event.RunSettled` | rt-thread/src/ipc.c:1423-1713 | The same over every run. |
| `Event.RunLacksBits` | rt-thread/src/ipc.c:1423-1713 | In bits, over every run: a thread suspended with AND lacks a bit it asks for, one suspended with OR all of them. |
| `Event.EventObject.Send` | rt-thread/src/ipc.c:1423-1512 | The loop of rt_event_send: each thread in list order is served or passed over by its bits, for every mix of AND, OR and CLEAR, with exactly the bits left that no CLEAR took. |
| `Event.EventObject.Recv` | rt-thread/src/ipc.c:1548-1667 | In bits: the immediate path, taken iff AND has all or OR has some, with the set that CLEAR leaves; otherwise the refusal, or the suspension in its place. |
| `Event.EventObject.ResetEvent` | rt-thread/src/ipc.c:1685-1713 | Reset clears the set and sends all waiters away. |
| `Semaphore.StepInv` | rt-thread/src/ipc.c:464-684 | Take, release, timeout and reset keep that waiters imply value 0, and the order of waiters. |
| `Semaphore.RunInv` | rt-thread/src/ipc.c:464-684 | Over every run waiters imply value 0, and they stand in wake order. |
| `Semaphore.RunBalanced` | rt-thread/src/ipc.c:464-684 | Over every run the value is what was put in (initial or reset value, releases that reached nobody) less the takes granted, and as many threads wait as calls blocked and were not served, both counted from calls and results alone. |
| `Semaphore.RunOutcomes` | rt-thread/src/ipc.c:464-684 | What each call returns, from the value and the number of blocked calls. |
| `Semaphore.WaitersStay` | rt-thread/src/ipc.c:464-684 | Over every run a waiter stays on the list, in its place, until a release reaches it, it times out, or the semaphore is reset. |
| `Semaphore.ReleaseWakesFirst` | rt-thread/src/ipc.c:586-634 | A release wakes the most urgent, earliest waiter (the earliest with the FIFO flag); a full semaphore refuses unchanged. |
| `Semaphore.Sem.Take` | rt-thread/src/ipc.c:464-549 | rt_sem_take: one taken, suspension in its place, or refusal. |
| `Semaphore.Sem.Release` | rt-thread/src/ipc.c:586-634 | rt_sem_release: the first waiter, and no other, leaves the list; without waiters the value rises, or the call is refused at the limit. |
| `Semaphore.Sem.ResetValue` | rt-thread/src/ipc.c:652-684 | Reset keeps the low 16 bits of its argument and sends all waiters away. |
| `MemPool.StepInv` | rt-thread/src/mempool.c:311-457 | Alloc, free and timeout keep block conservation and the wakeup invariant. |
| `MemPool.RunInv` | rt-thread/src/mempool.c:311-457 | Over every run no block is lost or doubled, and with no woken thread on its way a suspended thread means that every block is allocated. |
| `MemPool.WaitersStay` | rt-thread/src/mempool.c:311-457 | Over every run a suspended thread stays on the list, in its place, until it is the first at a free or times out. |
| `MemPool.RefusedJoinsFront` | rt-thread/src/mempool.c:327-346 | Over every run a thread that finds no block joins the list in front of all others, which stay in order. |
| `MemPool.BlocksApart` | rt-thread/src/mempool.c:98-125 | Blocks are disjoint and lie within the pool. |
| `MemPool.Pool.constructor` | rt-thread/src/mempool.c:81-128 | The free list runs through all blocks in address order. |
| `MemPool.Pool.AllocRegion` | rt-thread/src/mempool.c:311-399 | Hands out the first free block with the pool noted in its header, or suspends in front of all waiters, or refuses. |
| `MemPool.Pool.Free` | rt-thread/src/mempool.c:407-457 | The block's header leads back to its own pool; the block becomes the first free one; the first waiter, and no other, leaves the list and is woken. |
| `Bitmap.EntryIsLowest` | rt-thread/src/kservice.c:1363-1381 | Every entry of the table is the lowest bit of its index. |
| `Bitmap.Ffs` | rt-thread/src/kservice.c:1393-1407 | __rt_ffs returns the lowest set bit plus one for every 32-bit word, 0 for 0. |
| `Bitmap.SetBitBits` | rt-thread/src/scheduler.c:736-740 | Setting a bit changes that bit only. |
| `Bitmap.ClearBitBits` | rt-thread/src/scheduler.c:821-834 | Clearing a bit changes that bit only. |
| `Bitmap.ReadyTable.Insert` | rt-thread/src/scheduler.c:736-740 | Group word and table describe the ready priorities after an insertion. |
| `Bitmap.ReadyTable.Remove` | rt-thread/src/scheduler.c:821-834 | The same after a removal. |
| `Bitmap.ReadyTable.Highest` | rt-thread/src/scheduler.c:162-184 | The two-level lookup yields the most urgent ready priority. |
| `Scheduler.InsertQueues` | rt-thread/src/scheduler.c:711-745 | An inserted thread is on exactly the list of its priority and its bit is set. |
| `Scheduler.RemoveQueues` | rt-thread/src/scheduler.c:808-838 | A removed thread is on no list; the bit goes with the last thread. |
| `Scheduler.TopIsLowest` | rt-thread/src/scheduler.c:162-184 | The lowest bit of the group word is the most urgent nonempty list. |
| `Scheduler.ScheduleBest` | rt-thread/src/scheduler.c:416-538 | After rt_schedule, unlocked and with a runnable thread, the current thread runs, no ready thread is more urgent, and the runnable threads are conserved. |
| `Scheduler.StepInv` | rt-thread/src/scheduler.c:416-991 | Every scheduler operation, threads starting, exiting and being closed included, keeps lists, bits, the single running thread and the time slices in order. |
| `Scheduler.BootedReady` | rt-thread/src/thread.c:323-355 | However many threads are started before the scheduler runs, each is ready on the list of its priority, with the bits set. |
| `Scheduler.LaunchedInv` | rt-thread/src/scheduler.c:241-265 | rt_system_scheduler_start runs the first thread of the most urgent list and leaves the others waiting in order. |
| `Scheduler.RunInv` | rt-thread/src/scheduler.c:416-991 | The invariant over every run from a launched system, with any number of threads started, exiting and closed on the way. |
| `Scheduler.RunBest` | rt-thread/src/scheduler.c:416-538 | Over every run: a step that calls rt_schedule, a slice-ending tick and the outermost unlock included, and leaves the scheduler unlocked, leaves a most urgent runnable thread current; starting adds one runnable thread, exiting removes the current one, the others conserve them. |
| `Scheduler.RunNest` | rt-thread/src/scheduler.c:884-973 | Over every run the lock nest is the number of critical sections entered and not left, counted from those calls alone, never below 0. |
| `Scheduler.NoSwitchInside` | rt-thread/src/scheduler.c:416-538 | While a critical section is open the current thread does not change, whatever is called. |
| `Scheduler.SuspendTakesOff` | rt-thread/src/thread.c:810-849 | A ready or running thread is suspended and on no list, the runnable threads lose exactly it, and every other thread, list and place is as before; any other thread is refused unchanged. |
| `Scheduler.ResumePutsOn` | rt-thread/src/thread.c:860-894 | A suspended thread becomes ready at the end of the list of its priority, the runnable threads gain exactly it, and nothing else changes; any other thread is refused unchanged. |
| `Scheduler.PriorityMoves` | rt-thread/src/thread.c:706-745 | The thread has the new priority and its old status; a ready one moves from its place to the end of the list of that priority, and no list changes otherwise. |
| `Scheduler.CloseTakesOff` | rt-thread/src/thread.c:477-513 | A closed thread is on no list and not runnable; every other thread, list and place is as before. |
| `Scheduler.YieldPassesOn` | rt-thread/src/thread.c:525-538 | With a ready thread at least as urgent, yielding makes the first of the most urgent list current, refills the slice and puts the old thread at the end of its list. |
| `Scheduler.YieldGoesOn` | rt-thread/src/thread.c:525-538 | With none, or in a critical section, the thread goes on with its slice refilled. |
| `Scheduler.TickCounts` | rt-thread/src/clock.c:65-99 | A tick takes one from the slice of the current thread, and the last one yields. |
| `Scheduler.StartupWaits` | rt-thread/src/thread.c:323-355 | A thread started below the current one, or equal to it without the YIELD flag, or in a critical section, waits at the end of its list. |
| `Scheduler.StartupTakesOver` | rt-thread/src/thread.c:323-355 | A thread started with nobody as urgent waiting takes over from a less urgent current thread, or an equally urgent one with the YIELD flag, which joins the end of its list. |
| `Scheduler.ExitPassesOn` | rt-thread/src/thread.c:100-136 | A thread that exits is closed and leaves the processor to the first of the most urgent list. |
| `Scheduler.SecondThreadRuns` | rt-thread/src/thread.c:323-355 | A concrete run: a second thread becomes ready, is switched to, exits, and the first goes on. |
| `Scheduler.RoundRobin` | rt-thread/src/clock.c:65-99 | Exact round-robin wait: with ticks only, the thread at position k becomes current after exactly the ticks left to the current thread and to the k threads ahead, not before. |
| `Scheduler.StaleYieldIff` | rt-thread/src/clock.c:86-92 | The last tick of a slice leaves the YIELD flag set iff the scheduler is locked or nobody is ready. |
| `Scheduler.StaleYieldSwitches` | rt-thread/src/clock.c:86-92 | A concrete run of it: the flag left by a tick lets an equally urgent thread take over in the middle of a slice. |
| `Scheduler.Kernel.Schedule` | rt-thread/src/scheduler.c:416-538 | rt_schedule computes the step, through the bitmap lookup. |
| `Scheduler.Kernel.constructor` | rt-thread/src/scheduler.c:190-235 | All lists empty, no bit set, nobody current. |
| `Scheduler.Kernel.Launch` | rt-thread/src/scheduler.c:241-265 | rt_system_scheduler_start, through the bitmap lookup, gives the state every run begins with. |
| `Scheduler.Kernel.ThreadStartup` | rt-thread/src/thread.c:323-355 | Before the scheduler runs the thread only joins its list; afterwards it also schedules. |
| `Scheduler.Kernel.ThreadExit` | rt-thread/src/thread.c:100-136 | _thread_exit, as the scheduler sees it. |
| `Scheduler.Kernel.CloseThread` | rt-thread/src/thread.c:477-513 | rt_thread_delete (and rt_thread_detach, 367-408), as the scheduler sees it: the thread is on no list and no longer runnable; closing a closed thread does nothing. |
| `Scheduler.Kernel.Suspend` | rt-thread/src/thread.c:810-849 | rt_thread_suspend: true iff the thread was ready or running; then it is suspended, on no list, no longer runnable, and all else is as before. |
| `Scheduler.Kernel.Resume` | rt-thread/src/thread.c:860-894 | rt_thread_resume: true iff the thread was suspended; then it is runnable again, at the end of its list, and all else is as before. |
| `Scheduler.Kernel.ChangePriority` | rt-thread/src/thread.c:706-745 | A ready thread moves to the end of the list of its new priority; any other only changes priority. |
| `Scheduler.Kernel.TickIncrease` | rt-thread/src/clock.c:65-99 | The slice is counted down; at its end it is refilled and the thread yields. |
| `Scheduler.Kernel.YieldThread` | rt-thread/src/thread.c:525-538 | Yielding refills the slice and lets an equally urgent thread run. |
| `Scheduler.Kernel.EnterCritical` | rt-thread/src/scheduler.c:884-899 | The nest goes up by one and nothing else changes. |
| `Scheduler.Kernel.ExitCritical` | rt-thread/src/scheduler.c:948-973 | The nest goes down by one, not below 0; leaving the outermost critical section schedules. |
| `Printf.TmpHolds` | rt-thread/src/kservice.c:689-738 | tmp never overflows: at most ten digits of sixteen. |
| `Printf.DigitsParse` | rt-thread/src/kservice.c:623-640 | The digits read back as the number, in bases 10 and 16. |
| `Printf.OctalPrintsHex` | rt-thread/src/kservice.c:623-640 | divide knows bases 10 and 16 only: base 8 prints the hexadecimal digits. |
| `Printf.NumberLength` | rt-thread/src/kservice.c:661-830 | print_number emits exactly max(width, sign + max(precision, digits)) characters; with precision 0 the digits are counted but not printed. |
| `Printf.NumberSides` | rt-thread/src/kservice.c:661-830 | Where the padding goes: blanks in front, zeros behind the sign, blanks behind with "-", leading zeros up to the precision, each only and exactly there. |
| `Printf.DigitsCase` | rt-thread/src/kservice.c:693-700 | Digits are decimal in base 10, and letters are capitals or small as asked. |
| `Printf.NumberParses` | rt-thread/src/kservice.c:661-830 | The digit part, leading zeros included, reads back as the magnitude. |
| `Printf.SignTells` | rt-thread/src/kservice.c:706-719 | Sign and magnitude give the signed value back, the most negative one included. |
| `Printf.TextFieldExact` | rt-thread/src/kservice.c:981-1011 | A width is exact for %s: it also cuts longer texts. |
| `Printf.TextFieldSides` | rt-thread/src/kservice.c:981-1011 | The text is at the left with "-", at the right otherwise, with blanks on the other side. |
| `Printf.TextCut` | rt-thread/src/kservice.c:985-988 | A text is cut exactly by its width or a positive precision, whichever is shorter. |
| `Printf.FlagsRead` | rt-thread/src/kservice.c:888-901 | Each flag is set iff its character stands among the flag characters, in any order and number. |
| `Printf.AtoiParses` | rt-thread/src/kservice.c:643-650 | skip_atoi yields the number its digits read as and stops at the first other character. |
| `Printf.WidthAndPrecision` | rt-thread/src/kservice.c:903-932 | Width and precision come from digits or from the next argument; a negative width is a "-" flag, a negative precision is 0. |
| `Printf.OperandValue` | rt-thread/src/kservice.c:1068-1087 | What an integer argument counts as with and without the h qualifier, signed and unsigned. |
| `Printf.ConversionOf` | rt-thread/src/kservice.c:956-1093 | Which base, case, sign and field each conversion character prints, and which arguments it uses up. |
| `Printf.PlainDirective` | rt-thread/src/kservice.c:878-1093 | Anywhere in a format %d, %u and %x print the next argument, and the rest goes on with the arguments left. |
| `Printf.LiteralCopied` | rt-thread/src/kservice.c:878-886 | Text between directives goes out as it is. |
| `Printf.PlainDecimal` | rt-thread/src/kservice.c:1045-1093 | %d prints what reads back as the signed value of every 32-bit argument. |
| `Printf.PlainHexadecimal` | rt-thread/src/kservice.c:1041-1093 | %x prints what reads back as every 32-bit argument. |
| `Printf.Sink.Digitise` | rt-thread/src/kservice.c:731-738 | The digit loop fills tmp with the digits, least significant first. |
| `Printf.Sink.PrintNumber` | rt-thread/src/kservice.c:661-830 | print_number puts the number's text, whatever the room in the buffer. |
| `Printf.VsnPrintf` | rt-thread/src/kservice.c:845-1108 | Truncation is a prefix: the returned length does not depend on the size; the buffer gets the first min(length, size - 1) characters of the unbounded output and a NUL, and nothing beyond is written. |
| `IntrusiveList.Init` | rt-thread/include/rtservice.h:47-50 | A fresh head is a ring of its own. |
| `IntrusiveList.InsertAfter` | rt-thread/include/rtservice.h:58-65 | The node follows the given one; the ring stays a ring. |
| `IntrusiveList.InsertBefore` | rt-thread/include/rtservice.h:73-80 | The node precedes the given one; in front of the head is the end of the list. |
| `IntrusiveList.Remove` | rt-thread/include/rtservice.h:86-92 | The rest stays a ring and the node becomes a ring of its own. |
| `IntrusiveList.RemoveAlone` | rt-thread/include/rtservice.h:86-92 | Removing a node that is on no list changes nothing. |
| `IntrusiveList.IsEmpty` | rt-thread/include/rtservice.h:98-101 | True iff the ring is the head alone. |
| `IntrusiveList.Len` | rt-thread/include/rtservice.h:107-118 | Counts the elements behind the head. |
| `WaitRing.WaitRing.constructor` | rt-thread/src/ipc.c:71-77 | A fresh list head is an empty wait list. |
| `WaitRing.WaitRing.FindBelow` | rt-thread/src/ipc.c:124-147 | The loop along the ring stops at the node of the first less urgent thread, or back at the list head. |
| `WaitRing.WaitRing.Suspend` | rt-thread/src/ipc.c:109-156 | On the ring in memory a suspended thread takes exactly the place WaitList gives it, FIFO or by priority. |
| `WaitRing.WaitRing.Resume` | rt-thread/src/ipc.c:178-191 | The first thread of the list, and no other, leaves the ring. |
| `WaitRing.WaitRing.WakeFirst` | rt-thread/src/ipc.c:178-191 | The guarded wakeup: on an empty list nothing happens, otherwise the first thread leaves the ring and the others stay in order. |
| `WaitRing.WaitRing.ResumeAll` | rt-thread/src/ipc.c:207-234 | All threads leave, in list order. |
| `WaitRing.WaitRing.Unlink` | rt-thread/src/thread.c:903-932 | A thread that times out leaves the ring; the others stay in order. |

## Left out

- Waiting on the heaps' own semaphores: each allocator call is one atomic step. `rt_realloc` and
  `rt_memheap_realloc` release the lock between allocating, copying and freeing; other threads' calls in those
  gaps are not interleaved.
- Requests above 0xFFFFFFFC bytes, for which `RT_ALIGN` wraps, and small heaps with fewer than
  `MIN_SIZE_ALIGNED` bytes, whose scan bound wraps.
- Pointers handed back that are not live (double frees, foreign pointers), which the C code only asserts
  against; `rt_realloc` alone accepts addresses outside the heap and is modelled doing so.
- SmallHeap.Heap.Realloc: states the live blocks after a move, not the address chosen beyond that it is the
  lowest fit at that moment.
- MemHeap.Heap.Realloc: states that the free list holds exactly the free blocks afterwards, not their order; and
  resizing a block to more than 0xFFFF_FFF0 bytes with a free item behind it is promised nothing, because the code's
  test for growing in place wraps there (`MemHeap.TestAgreesIff` says exactly when it misleads). Pools are smaller than 2^32 bytes.
- Printf.NumberParses: base 8 is read back in base 16, as it is printed.
- Printf.VsnPrintf: reading an argument that is missing or of the wrong kind is undefined in C and yields 0 or
  "(NULL)" here; widths and precisions are unbounded integers; a size that wraps the address space, for which
  the code moves `end` to the top of memory, is not modelled.
- Scheduler.RunInv: threads created with a time slice of 0 ticks, whose counter wraps at the first tick, are not
  started; a thread that was never started is not part of the state, and what `_thread_exit` does beyond the
  scheduler (timer, cleanup, defunct list) is left out.
- Scheduler.Kernel.ExitCritical: the lock nest is unbounded, as the code's own comment assumes.
- MessageQueue.ReceivedAsSent: bytes behind the sent ones, which a receive copies too, are whatever the node held.
- MessageQueue.Queue.SendRegion: the remaining timeout is reduced to whether the thread may still wait.
- Event.EventObject.Recv: the caller's `recved` pointer is the result; a thread that waits reads its event_set
  after it is resumed, as the model's wake list states it.
- Mutex.RunInv: covers one mutex; a thread holding several mutexes and priority changes made by others are not
  modelled, since the code inherits no further and re-sorts nothing.
- Semaphore.RunInv: priorities of waiting threads are fixed, for the same reason.
- Deleting and detaching objects, the object registry, hooks, debug logging, memory tracing, signals, SMP
  branches, stack checks and the context switch itself.
- The timer wheel: a timeout is a step that may happen at any time to a suspended thread.
- `rt_tick_from_millisecond`, `rt_calloc` and the string functions of `kservice.c`, which would add only easy
  members.
- The application, the drivers and the STM32 HAL.
