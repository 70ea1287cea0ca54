# Verified models of a network library, its tools and some algorithms

Each module models one component and proves what it is for, for every input, state or run.

- **Byte stream of CppNet** (`Ring`, `BufferBlock`, `RingLaws`, `BlockSearch`, `BufferQueue`,
  `ScatterGather`, `QueueRuns`, `RWSocket`; `Basics`, `Bytes` and `Streams` are their vocabulary). A queue
  of fixed-size ring buffers, with a write block in the middle of the list and empty blocks after
  it, is one flat FIFO of bytes, also when it is used through raw spans. A ring tells full from
  empty by a flag that may be stale while its cursors differ. The socket on top neither loses nor
  reorders bytes over any partial writes, and sends what the system takes.
- **`PoolAlloter`** (`PoolAlloter`, `PoolRuns`). Memory is regions of numbered addresses with the
  links of the free lists in it. While a chunk is replaced, two free lists share nodes; the invariant has one list as a hole
  until it is rebuilt. No byte of a chunk leaks. `PoolRuns` drives it: blocks are reused last in,
  first out, the pool grows only with what is held at a time, and what the program stores stays.
- **`MinHeapTimer`** (`MinHeapTimer`, `TimerRuns`). A heap whose nodes know their places, with a
  map of ids; runs are related to a plain map of timers.
- **`threeSum`** (`ThreeSum`). The two-pointer search, where skipping a duplicate can put one
  pointer past the other.
- **The module reloader** (`Reloader`). A depth-first walk of a dependency graph whose entries are
  deleted and rebuilt on the way, and the order of its run. Modules that are loaded for the first
  time while a source runs are part of the model.
- **The reactor** (`Reactor`, `ReactorRuns`). Doubly linked lists of nodes on the heap that mirror
  the interest set of epoll. A set of `In` and `Out` stands for a mask, and its union for the OR.
- **The UTF-8 codec** (`Utf8`). Forms of one to six bytes, as in section 2 of RFC 2279, on bit vectors.
- **`automem`** (`Automem`). A buffer that grows by doubling, with an amortised bound.
- **The dispatcher's tasks** (`Dispatcher`). Each critical section is a step, and a run is any
  interleaving of steps. None is lost, and each is executed if the dispatcher's thread goes on.

The classes have the fields of the source's objects, and their methods its loops and branches; a
method is proved against a ghost view of the object (`Stream`, `Content`, `Timers`, `Contents`,
`Table`, or the regions of the pool). The methods named `Run`, and `Serve`, `Answer` and
`ReloadOnce`, make an object and drive it, so that their contracts speak of all runs.

What the outside world does is a parameter: the answers of `writev`, `recv`, `send` and `accept`,
the addresses of new chunks, the time, what sources import, and the order of the threads' steps.
Where the script of `writev` answers ends, the system blocks.

Where a property has a limit, the exact limit is proved: moving a read cursor back undoes moving it
forward just below the readable length, or when the content is the last cells of the block
(`RingLaws.UndoRead`), codes come back from UTF-8 just up to
31 bits (`Utf8.RoundTripExactly`), and ids of timers are new just until a 32-bit counter goes round
(`Dispatchers.IdsRepeat`). The comment of `reload` says that any known dependencies are reloaded
too; dependencies behind a blacklisted module are not, and the model follows the code.

## Model

| member | source | states |
|---|---|---|
| `BufferBlocks.BufferBlock.DoRead` | c-c++test/CppNet/common/buffer/buffer_block.cpp:501-560 | `_Read`: the first min(len, readable) bytes of the wrapped content; moving takes just them off the content, peeking changes nothing |
| `BufferBlocks.BufferBlock.DoWrite` | c-c++test/CppNet/common/buffer/buffer_block.cpp:562-622 | `_Write`: appends the first min(len, free) bytes to the content, in one copy or around the end |
| `BufferBlocks.BufferBlock.MoveReadPt` | c-c++test/CppNet/common/buffer/buffer_block.cpp:134-228 | both signs: forward drops bytes off the content, backward brings back the bytes behind it |
| `BufferBlocks.BufferBlock.MoveWritePt` | c-c++test/CppNet/common/buffer/buffer_block.cpp:230-325 | both signs: forward appends what lies in the room, backward gives the last bytes back to the room |
| `BufferBlocks.BufferBlock.Clear` | c-c++test/CppNet/common/buffer/buffer_block.cpp:129-132 | empties the ring, both cursors at the start |
| `BufferBlocks.BufferBlock.GetCanReadLength` | c-c++test/CppNet/common/buffer/buffer_block.cpp:368-383 | the length of the content; with the free length it is the block size, whatever the stale flag |
| `BufferBlocks.BufferBlock.GetCanWriteLength` | c-c++test/CppNet/common/buffer/buffer_block.cpp:351-366 | the length of the room |
| `BufferBlocks.BufferBlock.GetUseMemoryBlock` | c-c++test/CppNet/common/buffer/buffer_block.cpp:409-431 | at most two spans that hold the content in order |
| `BufferBlocks.BufferBlock.GetFreeMemoryBlock` | c-c++test/CppNet/common/buffer/buffer_block.cpp:385-407 | at most two spans that are the room in the order writes fill it |
| `Ring.DropFront` | c-c++test/CppNet/common/buffer/buffer_block.cpp:134-180 | moving the read cursor by k drops the first k bytes of the content and adds k to the room |
| `Ring.Commit` | c-c++test/CppNet/common/buffer/buffer_block.cpp:230-280 | moving the write cursor by k appends the first k bytes of the room to the content |
| `Ring.StoreCommit` | c-c++test/CppNet/common/buffer/buffer_block.cpp:562-622 | bytes stored into the room and committed are appended to the content |
| `RingLaws.UndoWrite` | c-c++test/CppNet/common/buffer/buffer_block.cpp:230-325 | moving the write cursor back by k undoes moving it by k, for every 0 < k <= free |
| `RingLaws.UndoRead` | c-c++test/CppNet/common/buffer/buffer_block.cpp:134-228 | moving the read cursor back by k undoes moving it by k if and only if k is less than the readable length, or the content happens to be the last k cells of the block, which is what comes back after draining |
| `RingLaws.WriteThenUnwrite` | c-c++test/CppNet/common/buffer/buffer_block.cpp:230-325 | the same for two calls on a block |
| `RingLaws.ReadThenUnread` | c-c++test/CppNet/common/buffer/buffer_block.cpp:134-228 | the same for two calls on a block, in both directions, and what becomes of the room |
| `RingLaws.DrainIsNotUndone` | c-c++test/CppNet/common/buffer/buffer_block.cpp:134-228 | a block for which draining it and moving back does not restore the content |
| `BlockSearch.FindStr` | c-c++test/CppNet/common/buffer/buffer_block.cpp:433-468 | the answer is positive just when the string lies inside one stretch of the content; then it ends there, and nowhere before inside a stretch |
| `BlockSearch.FindStrInMem` | c-c++test/CppNet/common/buffer/buffer_block.cpp:474-499 | the loop that skips with memchr ends, at the first occurrence or when there is none |
| `BufferQueues.BufferQueue.Write` | c-c++test/CppNet/common/buffer/buffer_queue.cpp:199-221 | appends all its bytes to the stream, over as many blocks as it takes and no more |
| `BufferQueues.BufferQueue.Read` | c-c++test/CppNet/common/buffer/buffer_queue.cpp:168-197 | takes the first min(len, length) bytes off the stream; stopping at an empty block loses nothing |
| `BufferQueues.BufferQueue.ReadNotMovePt` | c-c++test/CppNet/common/buffer/buffer_queue.cpp:27-42 | the first min(len, length) bytes of the stream, which stays |
| `BufferQueues.BufferQueue.MoveReadPt` | c-c++test/CppNet/common/buffer/buffer_queue.cpp:228-259 | for len >= 0 drops the first min(len, length) bytes |
| `BufferQueues.BufferQueue.MoveWritePt` | c-c++test/CppNet/common/buffer/buffer_queue.cpp:261-283 | for len >= 0 appends the first min(len, free) bytes of the room from the write block on, over ring wraps and blocks |
| `BufferQueues.BufferQueue.GetFreeMemoryBlock` | c-c++test/CppNet/common/buffer/buffer_queue.cpp:329-381 | spans that are the room from the write block on, of at least the size asked for, and without the last block of less; blocks are appended only as needed, for size 0 just one where there is no write block; the stream stays |
| `BufferQueues.BufferQueue.GetUseMemoryBlock` | c-c++test/CppNet/common/buffer/buffer_queue.cpp:383-411 | spans that hold a prefix of the stream, the whole of it or at least the maximum asked for; the blocks before the last one hold less than the maximum, so that less than a block more is collected |
| `BufferQueues.BufferQueue.Append` | c-c++test/CppNet/common/buffer/buffer_queue.cpp:445-453 | a new empty block at the end, which becomes the write block if there is none |
| `BufferQueues.BufferQueue.Reset` | c-c++test/CppNet/common/buffer/buffer_queue.cpp:440-443 | no blocks and no bytes |
| `BufferQueues.BufferQueue.Clear` | c-c++test/CppNet/common/buffer/buffer_queue.cpp:223-226 | an empty stream |
| `ScatterGather.ScatterCommit` | c-c++test/CppNet/common/buffer/buffer_queue.cpp:261-381 | k bytes stored in order through the spans of GetFreeMemoryBlock and committed with MoveWritePt(k) are appended to the stream, for every k up to the total, which is at least the size |
| `ScatterGather.Deliver` | c-c++test/CppNet/common/buffer/buffer_queue.cpp:329-381 | storing through the offered spans leaves the stream as it is and puts the bytes at the front of the room |
| `QueueRuns.Run` | c-c++test/CppNet/common/buffer/buffer_queue.cpp:27-411 | every run of calls on a queue, offers, stores and commits at any time included, answers and leaves what one flat FIFO of bytes does, whatever the block size; less than a block is offered or collected beyond what is asked for |
| `QueueRuns.FilledIsCommitted` | c-c++test/CppNet/common/buffer/buffer_queue.cpp:261-381 | bytes stored through the spans of an offer are appended by a later commit of as many, when nothing but looks came between |
| `QueueRuns.NothingLost` | c-c++test/CppNet/common/buffer/buffer_queue.cpp:27-411 | in a run that skips and clears nothing, the bytes read and then those left are the bytes put in, each once and in order |
| `QueueRuns.Do` | c-c++test/CppNet/common/buffer/buffer_queue.cpp:27-411 | one call keeps the invariant of the blocks, and answers and leaves what the FIFO does |
| `RWSockets.RWSocket.Send` | c-c++test/CppNet/cppnet/socket/rw_socket.cpp:304-340 | each call of writev takes the next bytes of the queue, as many as the system answers of the whole queue or of at least 4096, and less than a block more; Drained just when nothing is left, and otherwise the first error or would-block says why it stopped |
| `RWSockets.RWSocket.Write` | c-c++test/CppNet/cppnet/socket/rw_socket.cpp:94-117 | queues the buffer unless over 4 MiB wait, and sends it just when nothing waits |
| `RWSockets.Run` | c-c++test/CppNet/cppnet/socket/rw_socket.cpp:94-340 | in every run of writes and send events every event does what the answers of writev make it do, and the bytes sent are those the calls took |
| `RWSockets.WireConserved` | c-c++test/CppNet/cppnet/socket/rw_socket.cpp:94-340 | in every such run the bytes on the wire followed by the bytes queued are the buffers accepted, in order |
| `RWSockets.Conserved` | c-c++test/CppNet/cppnet/socket/rw_socket.cpp:94-340 | an event moves bytes from the front of the queue to the wire, and loses none |
| `PoolAlloters.PoolAlloter.Malloc` | c-c++test/CppNet/common/alloter/pool_alloter.cpp:32-49 | a block of the aligned size that was not in use: the first of its free list, with no memory taken, if that has one, and else the first of a new run; no word in a live block changes, and no other block changes or comes into use |
| `PoolAlloters.PoolAlloter.Free` | c-c++test/CppNet/common/alloter/pool_alloter.cpp:63-83 | the block goes to the front of its free list, and no word of another live block changes; null and large blocks change nothing |
| `PoolAlloters.PoolAlloter.ReFill` | c-c++test/CppNet/common/alloter/pool_alloter.cpp:85-113 | a new block, and a free list of all the other blocks of the run, one behind the other; the list that shared nodes with a smaller class is overwritten before anybody sees it |
| `PoolAlloters.PoolAlloter.ChunkAlloc` | c-c++test/CppNet/common/alloter/pool_alloter.cpp:115-147 | room for all the blocks asked for, from the pool or from a new chunk, or for as many as fit in what is left and no fewer; all free lists stay right but the one of the requested class |
| `PoolAlloters.PoolAlloter.FileLeftover` | c-c++test/CppNet/common/alloter/pool_alloter.cpp:136-140 | filing the leftover under the requested class breaks that list only |
| `PoolAlloters.PoolAlloter.NewChunk` | c-c++test/CppNet/common/alloter/pool_alloter.cpp:142-145 | what is left of the old chunk, less than 256 bytes, is abandoned, and the pool goes on with the new one |
| `PoolAlloters.PoolAlloter.Store` | c-c++test/CppNet/common/alloter/pool_alloter.cpp:85-113 | what the program stores in a live block harms no free list |
| `PoolAlloters.PoolAlloter.Safe` | c-c++test/CppNet/common/alloter/pool_alloter.cpp:32-147 | live blocks, free nodes, leftovers and the unused pool are disjoint, lie in chunks and add up to them; leftovers are at most 248 bytes for every chunk but the first |
| `PoolAlloters.PoolAlloter.LinkNodes` | c-c++test/CppNet/common/alloter/pool_alloter.cpp:101-111 | every other block of the run becomes a node of the new free list |
| `PoolRuns.Accounts` | c-c++test/CppNet/common/alloter/pool_alloter.cpp:32-147 | chunk bytes are the bytes of the blocks held, of free nodes, of leftovers and of the pool, so that none leaks; leftovers are at most 248 bytes for every chunk but the first; blocks held are apart and in chunks |
| `PoolRuns.HeldIsInUse` | c-c++test/CppNet/common/alloter/pool_alloter.cpp:32-83 | the bytes in use are just those of the blocks the program holds |
| `PoolRuns.Run` | c-c++test/CppNet/common/alloter/pool_alloter.cpp:32-147 | over every run of requests, with chunks anywhere, the program holds a block of each size it asked for and did not return, with what it stored there, nothing else in the pool is in use, and the pool is the plain heap that the runs' laws below are about |
| `PoolRuns.Serve` | c-c++test/CppNet/common/alloter/pool_alloter.cpp:32-147 | what the program sees of that: its blocks do not overlap and lie in chunks |
| `PoolRuns.LastReturnedFirst` | c-c++test/CppNet/common/alloter/pool_alloter.cpp:40-82 | in any run the block of a class that was returned last is given out first: a request that comes when all blocks of the class taken since were returned gives that block back, and takes no memory from the pool |
| `PoolRuns.StackKept` | c-c++test/CppNet/common/alloter/pool_alloter.cpp:40-82 | as long as no more blocks of a class are held than at first, its free list only grows in front |
| `PoolRuns.NeverFarBeyondPeak` | c-c++test/CppNet/common/alloter/pool_alloter.cpp:32-113 | the pool never has more than 19 blocks of a class, held and free, beyond the most that were held at one time |
| `PoolRuns.ClassStep` | c-c++test/CppNet/common/alloter/pool_alloter.cpp:32-83 | a request gives a class more blocks only if one is asked for when none is free, and then at most 20 |
| `PoolRuns.StoredStays` | c-c++test/CppNet/common/alloter/pool_alloter.cpp:32-147 | a word the program stores in a block is there until it stores in the block again or returns it, whatever is allocated and freed meanwhile |
| `PoolAlloters.TakenNew` | c-c++test/CppNet/common/alloter/pool_alloter.cpp:85-147 | without a free block the program gets the first of twenty, of as many as fit in the pool, or of twenty that are a whole new chunk; the others are the free list, side by side behind it |
| `PoolAlloters.UsesAddUp` | c-c++test/CppNet/common/alloter/pool_alloter.cpp:115-147 | bytes carved are bytes live, on free lists and abandoned |
| `PoolAlloters.BuildOn` | c-c++test/CppNet/common/alloter/pool_alloter.cpp:97-112 | a block linked behind the others extends the free list by just that block |
| `PoolAlloters.PopNode` | c-c++test/CppNet/common/alloter/pool_alloter.cpp:41-47 | taking the head off a list leaves the list of the rest |
| `PoolAlloters.PushNode` | c-c++test/CppNet/common/alloter/pool_alloter.cpp:63-83 | a block pushed on a list heads it |
| `PoolAlloters.ListsKept` | c-c++test/CppNet/common/alloter/pool_alloter.cpp:85-147 | the other free lists survive changes to regions and links that are not theirs |
| `PoolAlloters.FreeListIndex` | c-c++test/CppNet/common/alloter/pool_alloter.h:33-35 | the least class whose blocks are large enough |
| `PoolAlloters.Align` | c-c++test/CppNet/common/alloter/alloter_interface.h:28-30 | the least multiple of 8 that is large enough |
| `TimerHeaps.MinHeapTimer.AddTimer` | c-c++test/timer.cpp:45-59 | one more timer, under an id not given out before |
| `TimerHeaps.MinHeapTimer.DelTimer` | c-c++test/timer.cpp:61-68 | just that timer is gone; the answer says whether it was there |
| `TimerHeaps.MinHeapTimer.DelNode` | c-c++test/timer.cpp:155-168 | any node, ties included: heap order, places and the map of ids are kept, and just that id is gone |
| `TimerHeaps.MinHeapTimer.ShiftDown` | c-c++test/timer.cpp:111-133 | sifting over all but the last slot leaves a heap but for the edge above the start |
| `TimerHeaps.MinHeapTimer.ShiftUp` | c-c++test/timer.cpp:135-153 | mends the one edge that is out of order |
| `TimerHeaps.MinHeapTimer.Resign` | c-c++test/timer.cpp:169-174 | after both, the first size - 1 slots are a heap, with the same nodes in their places |
| `TimerHeaps.MinHeapTimer.ExpireTimer` | c-c++test/timer.cpp:70-102 | fires exactly the timers with expire <= now that have a callback, each once and in order of expiry, and leaves exactly the later ones |
| `TimerHeaps.StepDown` | c-c++test/timer.cpp:111-133 | one swap with the least child moves the gap in the heap order down |
| `TimerHeaps.StepUp` | c-c++test/timer.cpp:135-153 | one swap with the parent moves it up |
| `TimerHeaps.LastInto` | c-c++test/timer.cpp:155-168 | putting the last node in the place of any other breaks only the edges there |
| `TimerHeaps.RootFirst` | c-c++test/timer.cpp:70-102 | the root of a heap is the least |
| `TimerHeaps.FireNext` | c-c++test/timer.cpp:70-102 | firing the least timer keeps the order and the account of what has fired |
| `TimerRuns.Run` | c-c++test/timer.cpp:45-102 | every run of calls gives answers that a plain map of timers allows |
| `TimerRuns.FiresOnce` | c-c++test/timer.cpp:61-102 | no id fires twice in a run, nor after it was deleted |
| `TimerRuns.Accounted` | c-c++test/timer.cpp:61-102 | a timer with a callback that is no longer set was deleted or fired |
| `TimerRuns.Gone` | c-c++test/timer.cpp:40-59 | an id that is gone never comes back |
| `TimerRuns.FiresOnTime` | c-c++test/timer.cpp:45-102 | in any run a timer that is set and not deleted fires at the first call that comes when its time has come |
| `TimerRuns.NeverEarly` | c-c++test/timer.cpp:45-102 | and none fires before its time, or without a callback |
| `ThreeSums.ThreeSum` | pythontest/mytest2.py:1-29 | sorts the list and returns exactly the ordered triples of members that sum to zero, each once |
| `ThreeSums.Answer` | pythontest/mytest2.py:1-29 | the same for any sequence |
| `ThreeSums.Search` | pythontest/mytest2.py:1-29 | the search over the sorted list finds them all, in ascending order |
| `ThreeSums.SearchFrom` | pythontest/mytest2.py:11-28 | one first member: every triple that starts with it, with a third pointer that only goes down |
| `ThreeSums.Passed` | pythontest/mytest2.py:13-28 | when a skipped duplicate has put second past third, there is no triple left for it and the sum at third is positive, so no wrong one is added |
| `ThreeSums.Met` | pythontest/mytest2.py:25-26 | when the two pointers meet no later second member has a triple |
| `ThreeSums.SkipSecond` | pythontest/mytest2.py:15-16 | a second member equal to the one before adds no triple |
| `ThreeSums.SkipFirst` | pythontest/mytest2.py:8-9 | nor does such a first member |
| `ThreeSums.InPlaces` | pythontest/mytest2.py:1-29 | three members in order of size are three places in the sorted list |
| `ThreeSums.SortedUp` | pythontest/mytest2.py:3 | sorting keeps the members and puts them in order |
| `ThreeSums.OneAnswer` | pythontest/mytest2.py:1-29 | there is only one such ascending list of triples |
| `Reloaders.Reloader.Import` | pythontest/proj/onlinereload/reloader.py:124-163 | records the import for the module that runs and for no other, runs a module not loaded yet, and restores the parent |
| `Reloaders.Reloader.Execute` | pythontest/proj/onlinereload/reloader.py:98-111 | running a source rebuilds the entry of that module, and those of modules loaded for the first time |
| `Reloaders.Reloader.WalkFrom` | pythontest/proj/onlinereload/reloader.py:63-111 | ends on any graph; reloads modules that m reaches, each once, their dependencies first but for cycles, and in the order of a walk from the last dependency to the first |
| `Reloaders.Reloader.Reload` | pythontest/proj/onlinereload/reloader.py:114-121 | reloads exactly the modules m reaches along modules that are not blacklisted, the dependencies of m from the last to the first; just their entries are rebuilt |
| `Reloaders.ReloadOnce` | pythontest/proj/onlinereload/reloader.py:63-121 | the same as one call on a given graph and given sources |
| `Reloaders.PostLaterFirst` | pythontest/proj/onlinereload/reloader.py:72-83 | of two dependencies the later one is reloaded first, unless a later one still brings the other in; for every module and whatever was visited before |
| `Reloaders.WalkWithin` | pythontest/proj/onlinereload/reloader.py:72-111 | every module further down ends such a walk of its own, with those left out that come before it in the run and those on the way to it |
| `Reloaders.PostReach` | pythontest/proj/onlinereload/reloader.py:72-83 | a walk reloads only what is reached past the modules visited before |
| `Reloaders.WalkOver` | pythontest/proj/onlinereload/reloader.py:63-121 | a walk that has left every dependency visited has reached everything |
| `Reloaders.Leave` | pythontest/proj/onlinereload/reloader.py:72-111 | a module joins the run after its dependencies or in a cycle with them |
| `Reloaders.DependenciesFirst` | pythontest/proj/onlinereload/reloader.py:80-111 | on an acyclic graph everything a module reaches is reloaded before it |
| `Reloaders.GrownMore` | pythontest/proj/onlinereload/reloader.py:124-163 | the records of one import after another add up |
| `Reactors.Reactor.ReventAdd` | c-c++test/reactor_thread2.c:246-297 | the event heads its list; the mask is the OR of the list and the pointer its head, by ADD or, on EEXIST, by MOD |
| `Reactors.Reactor.ReventDel` | c-c++test/reactor_thread2.c:299-346 | the event is unlinked from any place; the mask and pointer follow, or the descriptor is deleted |
| `Reactors.Unlink` | c-c++test/reactor_thread2.c:311-319 | taking a node out keeps prev and next inverse |
| `Reactors.Push` | c-c++test/reactor_thread2.c:256-265 | so does putting one in front |
| `Reactors.Collect` | c-c++test/reactor_thread2.c:281-286 | the loop computes the OR of the events from a node on |
| `Reactors.Reactor.Find` | c-c++test/reactor_thread2.c:178-193 | the first event of the list for reading or writing |
| `Reactors.Reactor.AcceptCallback` | c-c++test/reactor_thread2.c:348-392 | a descriptor that is accepted is open and has one event |
| `Reactors.Reactor.RecvCallback` | c-c++test/reactor_thread2.c:394-441 | bytes queue one answer in front; would-block changes nothing; and otherwise the list, the registration and the descriptor go |
| `Reactors.Reactor.SendCallback` | c-c++test/reactor_thread2.c:443-495 | an answer that is sent or fails is taken off; on a closed pipe everything goes; the descriptor is closed just if no event is left |
| `Reactors.Reactor.RemoveAll` | c-c++test/reactor_thread2.c:413-417 | the loop ends with an empty list and no registration |
| `Reactors.Reactor.Ready` | c-c++test/reactor_thread2.c:172-197 | a report with the live head of its list keeps the mirror, and changes no list but of its descriptor and of one accepted |
| `Reactors.Reactor.HandleBatch` | c-c++test/reactor_thread2.c:154-198 | for the distinct descriptors of one epoll_wait every pointer that was captured is still the live head of its list when its turn comes |
| `Reactors.Reactor.AddListener` | c-c++test/reactor_thread2.c:206-224 | the listener has one event, which accepts |
| `Reactors.MirroredOne` | c-c++test/reactor_thread2.c:246-346 | changing one descriptor's list, head and registration together keeps the mirror of all |
| `Reactors.PastChain` | c-c++test/reactor_thread2.c:311-319 | nodes linked past one of them are the list without it |
| `ReactorRuns.Run` | c-c++test/reactor_thread2.c:140-495 | in every run of batches of reports, with any results, the interest set is the OR of the lists, and the open descriptors are those with events |
| `ReactorRuns.ClientsAreRead` | c-c++test/reactor_thread2.c:348-495 | an open descriptor is always registered for reading, and for writing just when an answer waits |
| `ReactorRuns.ReportDone` | c-c++test/reactor_thread2.c:154-495 | in any run, what the report on an open descriptor does: one answer more if and only if recv gave bytes, none if it would block, everything gone if the peer is; one answer fewer when it is writable; and that stays for the rest of the batch |
| `ReactorRuns.AcceptDone` | c-c++test/reactor_thread2.c:154-392 | in any run a client that is accepted has one event, which receives, for the rest of the batch too |
| `ReactorRuns.OthersStay` | c-c++test/reactor_thread2.c:154-198 | reports on other descriptors leave a list that has events as it is |
| `Utf8.Encode` | luatest/luagbk/ldbcs.h:23-68 | writes the bytes of the encoding, and no others |
| `Utf8.Decode` | luatest/luagbk/ldbcs.h:70-113 | the code at s, with all fallbacks; advances at least one byte and never past the NUL |
| `Utf8.DecodeLong` | luatest/luagbk/ldbcs.h:93-108 | the loop for four to six bytes, which ends at a byte that is missing, at the NUL at the latest |
| `Utf8.FromUtf8` | luatest/luagbk/ldbcs.h:173-184 | the scan ends on any bytes and uses each of them once, in order |
| `Utf8.ToUtf8` | luatest/luagbk/ldbcs.h:186-197 | each code of the double-byte string is encoded, in order, also when the last one ends behind the string |
| `Utf8.DbcsDecode` | luatest/luagbk/ldbcs.h:121-136 | one byte for a code of the table of single bytes, and otherwise two |
| `Utf8.CleanCodes` | luatest/luagbk/ldbcs.h:121-145 | codes written as add_dbcschar does are read back, if their first bytes are told apart by the table |
| `Utf8.ThereAndBack` | luatest/luagbk/ldbcs.h:173-197 | a string of such codes converted to UTF-8 and back is the same, where the tables are inverse on its codes |
| `Utf8.RoundTrip` | luatest/luagbk/ldbcs.h:23-113 | decoding the concatenated encodings of any codes gives the codes, with U+FFFD for those of 32 bits |
| `Utf8.RoundTripExactly` | luatest/luagbk/ldbcs.h:23-113 | they come back if and only if all have at most 31 bits |
| `Utf8.FirstEncoded` | luatest/luagbk/ldbcs.h:23-113 | one code comes back whatever bytes follow it |
| `Utf8.Shortest` | luatest/luagbk/ldbcs.h:23-113 | any whole form of a code is longer than its encoding, or is its encoding |
| `Utf8.LeadTest` | luatest/luagbk/ldbcs.h:96 | the loop's test says whether the first byte announces more |
| `Utf8.AsInTheTable` | luatest/luagbk/ldbcs.h:23-68 | the length of each code's form and the marks of its bytes are those of the table in section 2 of RFC 2279 |
| `Utf8.Rfc2279Examples` | luatest/luagbk/ldbcs.h:23-68 | the examples of section 4 of RFC 2279 are encoded as they are there |
| `Automems.Automem.Append` | c-c++test/libuv-lua/libuv-lua/src/automem.c:106-112 | the contents grow by the bytes, in place or moved |
| `Automems.Automem.EnsureNewspace` | c-c++test/libuv-lua/libuv-lua/src/automem.c:47-66 | room for the bytes; the contents stay |
| `Automems.Automem.NewSize` | c-c++test/libuv-lua/libuv-lua/src/automem.c:49-56 | the doubling of 32-bit numbers ends at the first size that is enough, as long as that fits in 32 bits |
| `Automems.DoubledTimes` | c-c++test/libuv-lua/libuv-lua/src/automem.c:49-56 | the size is doubled just as often as it has to be |
| `Automems.Automem.Alloc` | c-c++test/libuv-lua/libuv-lua/src/automem.c:97-105 | room for the bytes after the old contents; a size that is not positive changes nothing |
| `Automems.Automem.Erase` | c-c++test/libuv-lua/libuv-lua/src/automem.c:114-125 | drops the first bytes, or all |
| `Automems.Automem.EraseEx` | c-c++test/libuv-lua/libuv-lua/src/automem.c:126-158 | the same, and gives back a buffer with too much to spare |
| `Automems.Automem.constructor` | c-c++test/libuv-lua/libuv-lua/src/automem.c:14-24 | an empty buffer, of 128 bytes if none are asked for |
| `Automems.Run` | c-c++test/libuv-lua/libuv-lua/src/automem.c:14-158 | every run of calls without overflow leaves what they leave of a plain sequence |
| `Automems.AppendsAmortised` | c-c++test/libuv-lua/libuv-lua/src/automem.c:47-112 | in a run of appends the contents are their concatenation, the capacity is at most max(c0, 2 * size), and all reallocs move fewer bytes than twice those appended |
| `Automems.AppendAmortised` | c-c++test/libuv-lua/libuv-lua/src/automem.c:47-66 | one append keeps that account |
| `Automems.AppendsWithin` | c-c++test/libuv-lua/libuv-lua/src/automem.c:47-112 | that holds of every run of appends of together at most 2^31 bytes |
| `Automems.ModestFits` | c-c++test/libuv-lua/libuv-lua/src/automem.c:47-158 | no size overflows in a run that adds at most 2^31 bytes, with limits below 2^31 |
| `Dispatchers.Dispatcher.PostTask` | c-c++test/CppNet/cppnet/dispatcher.cpp:123-129 | appends to the list of tasks |
| `Dispatchers.Dispatcher.AddTimer` | c-c++test/CppNet/cppnet/dispatcher.cpp:131-151 | on the dispatcher's thread: a new id, with its timer |
| `Dispatchers.Dispatcher.StopTimer` | c-c++test/CppNet/cppnet/dispatcher.cpp:175-197 | on the dispatcher's thread: the timer is gone |
| `Dispatchers.Dispatcher.MakeTimerID` | c-c++test/CppNet/cppnet/dispatcher.cpp:211-214 | the next 32-bit number |
| `Dispatchers.Dispatcher.DoTask` | c-c++test/CppNet/cppnet/dispatcher.cpp:199-209 | with nobody posting meanwhile, executes the whole list, once and in order |
| `Dispatchers.Run` | c-c++test/CppNet/cppnet/dispatcher.cpp:123-214 | an interleaving of the threads' critical sections does what its steps do to a plain state |
| `Dispatchers.Kept` | c-c++test/CppNet/cppnet/dispatcher.cpp:123-209 | in every interleaving the tasks posted are those executed, then the rest of the batch, then the list; while fewer than 2^32 ids were made none is used twice, and timers are as the executed tasks say |
| `Dispatchers.AddThenStop` | c-c++test/CppNet/cppnet/dispatcher.cpp:131-209 | a timer added and then stopped from outside is gone once both tasks have run, whatever happens in between, while fewer than 2^32 ids were made |
| `Dispatchers.Progress` | c-c++test/CppNet/cppnet/dispatcher.cpp:123-209 | in every interleaving in which the dispatcher's thread does what is left of its batch, swaps, and does what it got, all that was posted at first has been executed |
| `Dispatchers.Drained` | c-c++test/CppNet/cppnet/dispatcher.cpp:199-209 | with nobody posting, one DoTask on an empty batch executes all that was posted |
| `Dispatchers.AddedThenGone` | c-c++test/CppNet/cppnet/dispatcher.cpp:131-209 | so a timer added and then stopped from outside is gone after that, whatever the other threads do |
| `Dispatchers.AddedIsSet` | c-c++test/CppNet/cppnet/dispatcher.cpp:131-209 | and one that was added from outside and nobody stops is set |
| `Dispatchers.AddFromOutside` | c-c++test/CppNet/cppnet/dispatcher.cpp:131-151 | on another thread AddTimer posts the timer with the id it was given, whatever happens between its two locks |
| `Dispatchers.HandedNext` | c-c++test/CppNet/cppnet/dispatcher.cpp:123-209 | each step keeps that no task is lost, doubled or reordered |
| `Dispatchers.IdsRepeat` | c-c++test/CppNet/cppnet/dispatcher.cpp:211-214 | two ids handed out in a run are equal if and only if the 32-bit counter went all the way round between them |

## Left out

- The nodes of common/structure/list.h: the queue's list of blocks is a sequence with the place of the write block, so that links and shared pointers are not modelled.
- Null arguments of the buffers, and destination buffers: bytes read are returned.
- Widths of 32 bits in the buffers, the heap's clock and the socket; there the numbers do not wrap.
- The buffer-to-buffer Read and Write of BufferBlock and BufferQueue, BufferQueue::FindStr, and the queue's moves by negative lengths.
- ReadUntil with a search string.
- RWSocket::Recv, events, connecting and disconnecting; an error of writev other than would-block counts as a broken connection.
- BlockMemoryPool: a block's memory is a new array.
- PoolAlloter's large blocks: they are passed straight through to the system, and their reuse is not tracked.
- MallocZero, PoolNew, PoolDelete and the other wrappers of the allocator.
- BufferQueues.BufferQueue.MoveReadPt: does not cover len < 0, where the source adds to the length what it should take off.
- BufferQueues.BufferQueue.MoveWritePt: does not cover len < 0, for the same reason.
- TimerContainer and Bitmap.
- Callbacks of MinHeapTimer that add or delete timers while they run.
- TimerHeaps.MinHeapTimer.AddTimer: does not model the wrap-around of times and ids at 32 bits.
- ThreeSums.Sorted: stands for the list's own sort, which is not shown.
- Reloaders.Reloader.Import: leaves out import errors, dotted names that need a walk of attributes.
- `__reload__` callbacks, enable and disable.
- A module object is its name, so that removing a module and importing a new one of that name is not modelled.
- The branch of revent_add in which epoll_ctl fails for another reason than EEXIST, and failing allocations.
- The contents of the reactor's buffers, its addresses and times; descriptors of 1024 and more, which its table has no room for.
- The tables of double-byte codes: functions stand for them.
- automem_attach, automem_init_by_ptr and automem_detach; a source of an append that lies in the buffer itself.
- Automems.Automem.EnsureNewspace: has nothing to say of a size over 32 bits, where the doubling overflows.
- Automems.Automem.NewSize: the same.
- Automems.Automem.Alloc: the same.
- Automems.Automem.EraseEx: excludes that what is left and the limit are together over 32 bits, where the new buffer is too small for what is left.
- Dispatchers.Dispatcher.AddTimer: leaves out intervals, parameters, callbacks and expiry; the map of events and the timer itself are one set of ids.
- Dispatchers.Dispatcher.StopTimer: takes an id out of that one set.
- Dispatchers.Dispatcher.DoTask: nobody posts while it runs; in Dispatchers.Run others post between its steps.
- CBuffer and CLoopBuffer, lpinyin, the JIS tables, the Lua and libuv bindings, threads, logging, files and sockets.
