# libkngin: a model and its proofs

libkngin is an asynchronous network library. Its difficult parts are pointer
structures, chunked-buffer arithmetic and small concurrent protocols. This
project models them in Dafny and proves what they promise; `dafny verify
dfyconfig.toml` checks everything.

| file | models |
|---|---|
| KernelList.dfy | the circular intrusive list: adding, deleting, moving, replacing, rotating, cutting, splicing |
| ObjMgr.dfy | the pool of intrusive nodes on a live and a free ring, its growth policy and its safe iteration |
| OutQueue.dfy | the output queue as a value: bytes in 40960-byte chunks behind a read and a write index, and the books of any run |
| OutSchedule.dfy | what a schedule of appends, calls and socket answers does to the indices, the flags and the record of sends |
| Ostream.dfy | the TCP output stream: appending, writing, any mix of both |
| OutputProgress.dfy | who is responsible for queued output, over interleavings of posters and the loop |
| Session.dfy | writing to and closing a TCP session through the loop's task queue |
| TaskLoop.dfy | task posting, the eventfd wakeup and task order, as interleaved steps |
| EventLoop.dfy | one pass over the task queue, one batch of events with removal from handlers |
| StopHandshake.dfy | how `stop` and the end of `run` meet at a two-party barrier |
| Barrier.dfy | the mutex and condition variable barrier, one round |
| Logger.dfy | the asynchronous logger: producers, one writer, shutdown |
| Timers.dfy | the monotonic timer queue |
| Codec.dfy | typed values in byte buffers, and the hexadecimal dump |
| Wrappers.dfy | `Option`, `Result`, `byte` |

How to read it:

- Code that updates objects in place is a class, or a method on heap objects,
  with the source's fields. Ghost fields hold the abstract value (the sequence
  of objects, the queued bytes) and `Valid()` ties it to the real fields.
- A protocol between threads is a state machine; `Reaches` relates two states by a
  run, and the main lemmas speak about every run. A step is one critical section,
  one access to an atomic, or a few accesses that no other thread can tell apart
  because only the stepping thread writes what they read or reads what they write
  (`complete_` and `rindex_` are written by the loop alone; a stop from inside the
  loop is one step, as nobody else may call it then). An append is one step. For
  the barrier and the logger the classes `WinBarrier` and `AsyncLogger` hold the
  code of each step, and `PlayRound` and `PlayLogger` play any schedule on them.
- The socket's answers, readiness, wakeups, the schedule and the clock are
  parameters.

Where the code needs care:

- `posix_tcp_ostream.cpp:159` subtracts the size of the last send only, although
  line 158 rewinds the read index over everything sent from the chunk. With the
  read index at 0 before each send this is right. An append between the snapshot
  of the window (line 115) and the commit (lines 153-163) is harmful unless the
  window filled its chunk, and a partial send (line 149) is retried without moving
  the read index. Nothing is assumed away: `RunExact` and `Serve` give the exact
  condition under which the stream survives, `RunLedger` how many bytes go out
  twice otherwise, and `RepeatedByte` and `RepeatedPrefix` the smallest failing runs.
- `event_loop.cpp:310` reads the slot of the event again after its handler has
  thrown. A handler that removes its own event and throws has nulled the slot
  (`ProcessEvents`, `CrashWitness`), except in slot 0, which the scan from index 1
  never nulls: there the event is removed from the reactor twice.
- `event_loop.cpp:102` looks at `looping_` before anything else. A `stop` from
  another thread that comes before `run` has set it returns having done nothing,
  and the loop then runs with nothing left to stop it (`ReturnsUnmet`,
  `NothingStartsExactly`, `UnmetRunsOn`, `UnmetStop`).
- A task that posts to its own loop writes no eventfd (`event_loop.cpp:125`), and
  the queue is only swapped out before the wait, so such a task waits until
  the next event or the timeout (`StrandedExactly`, `StrandedTask`).
- `assert(n = free_to_list(ptr))` (`obj_mgr.h:98`) is modelled as executed.
- `obj_entry::node_` is not initialised in the source (`obj_mgr.h:65`); the model
  takes it as null at construction.

## Model

| member | source | states |
|---|---|---|
| `ObjMgr.Manager.Run` | libkngin/detail/core/base/obj_mgr.h:92-226 | any legal script of inserts, removes, clears, resizes and shrinks does to the two rings what it does to a plain sequence; afterwards both rings are well formed and disjoint, the counters are the ring lengths, each live object and its node point at each other, and an object has a node exactly while it is held; a script of inserts and removes allocates at most two nodes an operation beyond the initial imbalance |
| `ObjMgr.Manager.ForEach` | libkngin/detail/core/base/obj_mgr.h:139-146 | a pass whose callback removes any chosen subset visits every object held at its start once, in insertion order, although the node under the cursor is moved or released; exactly the objects not chosen remain, none when all are chosen |
| `ObjMgr.Manager.ForEachActing` | libkngin/detail/core/base/obj_mgr.h:139-146 | callbacks that remove the object they are given or not and then insert others: the pass visits the objects it starts with, in order, and then what was inserted on the way, in order, except for what the callback of the last one visited inserts; what is left are the visited objects whose callbacks kept them, in order, and then what the last one inserted |
| `ObjMgr.Manager.VisitActing` | libkngin/detail/core/base/obj_mgr.h:143-145 | after such a callback the saved cursor is the node of the next object if there was one before the callback, and otherwise still the anchor, whatever was inserted |
| `ObjMgr.PassVisits` | libkngin/detail/core/base/obj_mgr.h:139-146 | an inserted object is visited by the pass unless the last object visited inserted it |
| `ObjMgr.PassLeaves` | libkngin/detail/core/base/obj_mgr.h:139-146 | from any position on, the list at the end is what stood before, the visited objects whose callbacks did not remove them, and what the last of them inserted |
| `ObjMgr.WholePass` | libkngin/detail/core/base/obj_mgr.h:139-146 | the two together for a pass over a whole list |
| `ObjMgr.Manager.Visit` | libkngin/detail/core/base/obj_mgr.h:143-145 | whatever the callback removes, the saved successor is still the node of the next object, or the anchor |
| `ObjMgr.AllocationBound` | libkngin/detail/core/base/obj_mgr.h:92-122 | however inserts and removes are mixed on a pool built with n nodes, at most 2 * (n + operations) nodes are ever allocated |
| `ObjMgr.RunCost` | libkngin/detail/core/base/obj_mgr.h:92-122 | over any run, nodes allocated plus the imbalance of the two rings grows by at most two an operation |
| `ObjMgr.OperationCost` | libkngin/detail/core/base/obj_mgr.h:210-216 | one insert or remove raises allocated nodes plus imbalance by at most two, doubling and shrinking included |
| `ObjMgr.Manager.constructor` | libkngin/detail/core/base/obj_mgr.h:78-83 | a new pool holds no object, has n free nodes, and is well formed |
| `ObjMgr.Manager.Insert` | libkngin/detail/core/base/obj_mgr.h:92-106 | appends the object, links both ways, and takes one free node or, without one, makes as many as are live and one more |
| `ObjMgr.Manager.InsertReusing` | libkngin/detail/core/base/obj_mgr.h:97-98 | the first free node becomes the last live one |
| `ObjMgr.Manager.MakeLast` | libkngin/detail/core/base/obj_mgr.h:101-103 | a new node stands at the end of the live ring and both rings and the counter stay right |
| `ObjMgr.Manager.InsertMaking` | libkngin/detail/core/base/obj_mgr.h:99-105 | one node is made and becomes the last live one |
| `ObjMgr.Manager.Remove` | libkngin/detail/core/base/obj_mgr.h:108-122 | deletes exactly the given object, unlinks it, keeps the order of the others; one node more is free, or 15 when that is more than 15 and more than twice the live ones, and the pool stays well formed |
| `ObjMgr.Manager.Detach` | libkngin/detail/core/base/obj_mgr.h:112-119 | the object loses its node, which becomes the last free one |
| `ObjMgr.Manager.Exist` | libkngin/detail/core/base/obj_mgr.h:124-137 | the linear search succeeds exactly when the link is a live node; for a null or genuine link that is membership in the sequence |
| `ObjMgr.Manager.Clear` | libkngin/detail/core/base/obj_mgr.h:164-172 | empties the live ring into the free one and unlinks every object |
| `ObjMgr.Manager.DetachFirst` | libkngin/detail/core/base/obj_mgr.h:168-170 | moving the first live node away leaves the saved cursor at the new first node |
| `ObjMgr.Manager.ShrinkToFix` | libkngin/detail/core/base/obj_mgr.h:218-226 | releases every free node; live objects stay |
| `ObjMgr.Manager.Resize` | libkngin/detail/core/base/obj_mgr.h:179-199 | the live size stays and the total becomes the wanted one, or stays when that is below the live size; the growth, if any, is made, and nothing else; live objects stay |
| `ObjMgr.Manager.ReleaseFirst` | libkngin/detail/core/base/obj_mgr.h:192-195 | unlinks the first free node for good and keeps both rings |
| `ObjMgr.Manager.AutoFix` | libkngin/detail/core/base/obj_mgr.h:210-216 | a pool without free nodes gets as many as it has live ones; more than twice the live ones and more than 15 shrink to 15; otherwise nothing changes; the pool stays well formed |
| `ObjMgr.Manager.MoveToFree` | libkngin/detail/core/base/obj_mgr.h:228-233 | a live node moves to the end of the free ring; both rings and both counters stay right |
| `ObjMgr.Manager.FreeToList` | libkngin/detail/core/base/obj_mgr.h:235-248 | null exactly when no node is free; otherwise the first free node is the last live one and carries the object |
| `ObjMgr.Manager.Apply` | libkngin/detail/core/base/obj_mgr.h:92-226 | one operation changes the objects as the sequence model says and keeps the link invariant for every object a caller owns |
| `ObjMgr.Manager.RemoveUser` | libkngin/detail/core/base/obj_mgr.h:108-122 | seen from outside, removal drops one object and leaves every other object linked as it was |
| `ObjMgr.Manager.OnePlace` | libkngin/detail/core/base/obj_mgr.h:92-106 | no object is held twice |
| `KernelList.ListAddBetween` | libkngin/detail/core/base/kernel_list.h:50-57 | a new entry between two neighbours gives the ring with it at that position |
| `KernelList.InsertedAt` | libkngin/detail/core/base/kernel_list.h:50-57 | what the ring with entries inserted holds at each position |
| `KernelList.WithoutAt` | libkngin/detail/core/base/kernel_list.h:67-74 | what the ring without a position holds at each other one |
| `KernelList.ListAdd` | libkngin/detail/core/base/kernel_list.h:59-61 | the entry becomes the first of the ring |
| `KernelList.ListAddTail` | libkngin/detail/core/base/kernel_list.h:63-65 | the entry becomes the last of the ring |
| `KernelList.ListUnlink` | libkngin/detail/core/base/kernel_list.h:67-74 | the ring without that position; the entry keeps its own pointers |
| `KernelList.ListDel` | libkngin/detail/core/base/kernel_list.h:76-80 | the ring without that position; the entry is poisoned |
| `KernelList.ListDelInit` | libkngin/detail/core/base/kernel_list.h:99-102 | the ring without that position; the entry is an empty ring |
| `KernelList.ListMove` | libkngin/detail/core/base/kernel_list.h:107-110 | an entry becomes the first of another ring or of its own |
| `KernelList.ListMoveTail` | libkngin/detail/core/base/kernel_list.h:115-119 | an entry becomes the last of another ring or of its own |
| `KernelList.ListReplace` | libkngin/detail/core/base/kernel_list.h:82-88 | the new entry stands at the old position |
| `KernelList.ListReplaceInit` | libkngin/detail/core/base/kernel_list.h:90-94 | an entry gives its place to the new one; a whole list of any length, also an empty one, passes to the new anchor; the old one is an empty ring |
| `KernelList.QueriesAreExact` | libkngin/detail/core/base/kernel_list.h:121-169 | the pointer tests answer "empty", "one entry" and "last entry" exactly, on every ring |
| `KernelList.ListRotateLeft` | libkngin/detail/core/base/kernel_list.h:155-162 | the first entry becomes the last, an empty list stays |
| `KernelList.RotateTimes` | libkngin/detail/core/base/kernel_list.h:155-162 | n rotations bring entry n to the front; as many as there are entries are the identity |
| `KernelList.ListCutBefore` | libkngin/detail/core/base/kernel_list.h:171-180 | splits a ring after the given entry into two rings |
| `KernelList.ListCutPosition` | libkngin/detail/core/base/kernel_list.h:190-204 | splits at any entry, splits nothing off at the anchor, and does nothing for an empty list or a foreign entry of a singleton |
| `KernelList.ListSpliceBetween` | libkngin/detail/core/base/kernel_list.h:206-217 | the entries of one ring stand between two neighbours of the other, in order |
| `KernelList.ListSplice` | libkngin/detail/core/base/kernel_list.h:222-227 | concatenation in front |
| `KernelList.ListSpliceTail` | libkngin/detail/core/base/kernel_list.h:232-237 | concatenation behind |
| `KernelList.ListSpliceInit` | libkngin/detail/core/base/kernel_list.h:244-250 | concatenation in front; the emptied list is an empty ring |
| `KernelList.ListSpliceTailInit` | libkngin/detail/core/base/kernel_list.h:257-263 | concatenation behind; the emptied list is an empty ring |
| `KernelList.CutThenSplice` | libkngin/detail/core/base/kernel_list.h:190-227 | cutting at any entry into an empty list and splicing back restores the list |
| `Ostream.OutStream.Serve` | libkngin/detail/net/tcp/impl/posix_tcp_ostream.cpp:34-168 | any mix of async_write and on_write calls, with appends from other threads between and in the midst of the sends and a socket that takes any part of a window, leaves the indices, the flags and the record of sends that the schedule says; accepted grows by exactly what the calls and the turns played bring; nothing sent is taken back; what was sent followed by what is queued is what was accepted if and only if the sends of the schedule are orderly, and every calm schedule (nothing in the midst of a send, all or nothing taken) is in order; complete_ is set at the end if and only if the last round of any event that got past its tests was answered EAGAIN, and is as before if there was none |
| `Ostream.OutStream.InOrderExactly` | libkngin/detail/net/tcp/impl/posix_tcp_ostream.cpp:97-168 | at any time, on every stream: in order if and only if the sends so far were orderly, and orderly sends have sent a prefix of what was accepted |
| `Ostream.OutStream.OnWrite` | libkngin/detail/net/tcp/impl/posix_tcp_ostream.cpp:97-168 | one call plays the turns of the schedule up to the one that ends it: the sends recorded, the bytes accepted, indices and flags are what the schedule makes of them; nothing is sent once the session is stopped; the call ends only with nothing to do, complete_ set, an error or a stop; complete_ is set at the end if and only if the last round past its tests was answered EAGAIN, and is as before if there was none |
| `Ostream.OutStream.WriteOnce` | libkngin/detail/net/tcp/impl/posix_tcp_ostream.cpp:99-167 | one round that gets past its tests offers the front window, sends as much as the socket takes, records the send with whether its commit rewinds, and accepts the late append; complete_ is set exactly by EAGAIN, on_complete is called exactly for a hard failure or a whole window; another round changes nothing; it goes on unless there is a reason to stop |
| `Ostream.OutStream.TakeAnswer` | libkngin/detail/net/tcp/impl/posix_tcp_ostream.cpp:124-166 | the socket takes the window or the part of it there is room for; complete_ is set exactly by EAGAIN; only success and EINTR go on; a whole window or a hard failure is reported, nothing else; the books and the flags change as the answer says |
| `Ostream.OutStream.TakeSnapshot` | libkngin/detail/net/tcp/impl/posix_tcp_ostream.cpp:113-119 | the window is the front of the queue and bytes appended meanwhile stay behind it; its commit will rewind if and only if nothing was appended or the window reached the end of its chunk |
| `Ostream.OutStream.FrontWindow` | libkngin/detail/net/tcp/impl/posix_tcp_ostream.cpp:115-119 | the window does not cross the front chunk and is what is to be sent next |
| `Ostream.OutStream.Finish` | libkngin/detail/net/tcp/impl/posix_tcp_ostream.cpp:152-164 | the whole window counts as sent and the books stay right, rewinding or not |
| `Ostream.OutStream.Commit` | libkngin/detail/net/tcp/impl/posix_tcp_ostream.cpp:153-164 | the locked commit on chunks, indices and next_buffer_ |
| `Ostream.OutStream.AppendBuffer` | libkngin/detail/net/tcp/impl/posix_tcp_ostream.cpp:213-249 | the given bytes stand at the write index, across chunks, everything before them is as it was, and there are max(1, ceil(windex_ / 40960)) chunks where there were |
| `Ostream.OutStream.Fill` | libkngin/detail/net/tcp/impl/posix_tcp_ostream.cpp:224-237 | the copy loop changes exactly the bytes at the new logical indices |
| `Ostream.OutStream.Reserve` | libkngin/detail/net/tcp/impl/posix_tcp_ostream.cpp:221-222 | room for the new bytes and no chunk more than that; earlier chunks stay |
| `Ostream.OutStream.AsyncWrite` | libkngin/detail/net/tcp/impl/posix_tcp_ostream.cpp:34-57 | appends one buffer and asks for an on_write exactly when complete_ is clear |
| `Ostream.OutStream.AsyncWriteAll` | libkngin/detail/net/tcp/impl/posix_tcp_ostream.cpp:59-81 | appends all buffers in order, with one request |
| `Ostream.OutStream.Clear` | libkngin/detail/net/tcp/impl/posix_tcp_ostream.cpp:83-95 | the chunks are gone and the read index is 0; the write index is left as it was |
| `Ostream.OutStream.constructor` | libkngin/detail/net/tcp/impl/posix_tcp_ostream.cpp:14-26 | one chunk, nothing accepted, nothing sent |
| `OutSchedule.AcceptsGiven` | libkngin/detail/net/tcp/impl/posix_tcp_ostream.cpp:34-168 | a run of calls accepts exactly what it is given: the buffers written and what arrives during the turns played, in order |
| `OutSchedule.AcceptsArrivals` | libkngin/detail/net/tcp/impl/posix_tcp_ostream.cpp:97-168 | one on_write accepts what comes before each turn played and in the midst of each that got past its tests, and nothing else |
| `OutSchedule.EndsExactly` | libkngin/detail/net/tcp/impl/posix_tcp_ostream.cpp:97-168 | every round but the last was answered by bytes or EINTR; on_write ends by itself exactly when the last one did not get past its tests or was answered by another failure |
| `OutSchedule.CompleteExactly` | libkngin/detail/net/tcp/impl/posix_tcp_ostream.cpp:98-131 | complete_ is set if and only if the last round past its tests was answered EAGAIN; without one it is as before |
| `OutSchedule.CompleteAfterUses` | libkngin/detail/net/tcp/impl/posix_tcp_ostream.cpp:34-131 | the same over any mix of writes and events |
| `OutSchedule.ErrorExactly` | libkngin/detail/net/tcp/impl/posix_tcp_ostream.cpp:137-145 | flag_error is set if and only if the last round past its tests failed hard, or it was set before and no send succeeded |
| `OutSchedule.ResetExactly` | libkngin/detail/net/tcp/impl/posix_tcp_ostream.cpp:137-138 | flag_reset is added exactly by ECONNRESET or EPIPE in a round past its tests |
| `OutSchedule.ClosingExactly` | libkngin/detail/net/tcp/impl/posix_tcp_ostream.cpp:98-145 | the closing flag is added exactly by a close during the call; closed, shutdown and eof stay |
| `OutSchedule.TakesExactly` | libkngin/detail/net/tcp/impl/posix_tcp_ostream.cpp:124-151 | every round past its tests whose send did not fail is one send, and no other is; earlier ones stay on record |
| `OutSchedule.CalmUsesArePlain` | libkngin/detail/net/tcp/impl/posix_tcp_ostream.cpp:97-168 | in a calm schedule every send takes all or nothing and every commit rewinds |
| `OutSchedule.ClearTurnsDrain` | libkngin/detail/net/tcp/impl/posix_tcp_ostream.cpp:115-163 | from read index 0, as many undisturbed whole sends as there are chunks empty the queue |
| `OutQueue.RunExact` | libkngin/detail/net/tcp/impl/posix_tcp_ostream.cpp:97-168 | over any run of appends and sends from read index 0, with appends in the midst of sends and partial sends: the stream is intact if and only if no send took a part of its window and no whole send that met a harmless append comes after one that met a harmful one |
| `OutQueue.WholeRunExact` | libkngin/detail/net/tcp/impl/posix_tcp_ostream.cpp:115-163 | when every send takes its whole window: if and only if no harmful append is followed by a harmless one in the next iteration |
| `OutQueue.RunLedger` | libkngin/detail/net/tcp/impl/posix_tcp_ostream.cpp:97-168 | in every state of every run, bytes sent or queued exceed bytes accepted by exactly the partial takes plus the read indices rewound when not 0, and without excess they are the accepted bytes in order |
| `OutQueue.LedgerAfterSend` | libkngin/detail/net/tcp/impl/posix_tcp_ostream.cpp:144-163 | one send keeps these books, whatever part of its window it takes |
| `OutQueue.LedgerAfterAppend` | libkngin/detail/net/tcp/impl/posix_tcp_ostream.cpp:213-240 | one append keeps these books, also on a broken stream |
| `OutQueue.LedgerExact` | libkngin/detail/net/tcp/impl/posix_tcp_ostream.cpp:153-163 | the stream is intact if and only if its sends were orderly |
| `OutQueue.CommitExact` | libkngin/detail/net/tcp/impl/posix_tcp_ostream.cpp:153-163 | a commit removes exactly the sent bytes if and only if it does not rewind a read index that was not 0 |
| `OutQueue.RewindExact` | libkngin/detail/net/tcp/impl/posix_tcp_ostream.cpp:155-157 | a commit rewinds if and only if nothing was appended since the window was taken or the window reached the end of its chunk |
| `OutQueue.AppendExtends` | libkngin/detail/net/tcp/impl/posix_tcp_ostream.cpp:213-240 | an append puts its bytes behind what is to be sent and keeps the chunk count max(1, ceil(windex_ / 40960)) |
| `OutQueue.NeededExactly` | libkngin/detail/net/tcp/impl/posix_tcp_ostream.cpp:221-222 | that count is the least number of chunks, but at least one, that hold windex_ bytes |
| `OutQueue.RepeatedByte` | libkngin/detail/net/tcp/impl/posix_tcp_ostream.cpp:115-163 | the smallest run broken by an append: both bytes are sent and the first is queued again |
| `OutQueue.RepeatedPrefix` | libkngin/detail/net/tcp/impl/posix_tcp_ostream.cpp:149-150 | the smallest run broken by a partial send: its byte is sent twice |
| `OutputProgress.NoStrandedOutput` | libkngin/detail/net/tcp/impl/posix_tcp_ostream.cpp:34-143 | in every interleaving, with any appends and answers, queued bytes imply that complete_ is set, on_write is running or queued, a poster is on its way, or writing is over; and the asserted window is never empty |
| `Barrier.RoundIsSafe` | libkngin/detail/core/base/impl/win_barrier.h:46-78 | under any schedule and spurious wakeups: nobody returns before all have entered, at most one returns true, it is the last to leave and both counters are 0 then; a finished round has such a thread; after the release out_ is the number still inside and one of them is awake |
| `Barrier.NeverStuck` | libkngin/detail/core/base/impl/win_barrier.h:49-66 | in every reachable state some thread can enter or leave; after the release one can leave |
| `Barrier.RoundEnds` | libkngin/detail/core/base/impl/win_barrier.h:46-69 | without spurious wakeups a round takes at most three steps a thread, and where no step is left all have returned |
| `Barrier.StepKeeps` | libkngin/detail/core/base/impl/win_barrier.h:46-69 | every critical section keeps the counting invariant |
| `Barrier.PlayRound` | libkngin/detail/core/base/impl/win_barrier.h:46-78 | any schedule played on a barrier of count threads, every step that is possible in its turn and no other: the k-th call of wait to return returns true exactly if k is count, none returns before all have entered, out_ is always count less the returns, and after the last one both counters are 0; what was played is a run of the machine, so the theorems about runs hold of the object |
| `Barrier.PossiblyAll` | libkngin/detail/core/base/impl/win_barrier.h:46-69 | a schedule whose every step is possible in its turn is played as it is |
| `Barrier.PossiblyNext` | libkngin/detail/core/base/impl/win_barrier.h:46-69 | after any schedule a further step is played exactly if it is possible then |
| `Barrier.WinBarrier.Take` | libkngin/detail/core/base/impl/win_barrier.h:49-66 | a critical section keeps the invariant; if wait returns, all have entered, and it returns true exactly when all have left |
| `Barrier.WinBarrier.constructor` | libkngin/detail/core/base/impl/win_barrier.h:30-44 | reinit gives the starting state |
| `Barrier.EnterKeeps` | libkngin/detail/core/base/impl/win_barrier.h:49-54 | entering keeps gathering until the last, whose entry releases all |
| `Barrier.ResumeKeeps` | libkngin/detail/core/base/impl/win_barrier.h:56-64 | a woken thread leaves exactly when all have entered |
| `Logger.NothingLost` | libkngin/detail/core/base/logger.cpp:122-169 | in every interleaving, records written followed by those waiting, back to front, are the records posted; the record the writer points at is the back of the queue, and the record about to be popped is the one just written |
| `Logger.WrittenBeforeExit` | libkngin/detail/core/base/logger.cpp:138-169 | every record posted before stop_ was set is written, in order, when the writer exits |
| `Logger.NoSleepWithoutSignal` | libkngin/detail/core/base/logger.cpp:103-152 | a sleeping writer with stop_ set, or with work queued, has a signal still to come: the timeout is never needed |
| `Logger.WriterNeverStuck` | libkngin/detail/core/base/logger.cpp:141-160 | an awake writer can always take its next step: pop, take and write never find the queue empty |
| `Logger.ShutdownEnds` | libkngin/detail/core/base/logger.cpp:103-169 | from stop_ being set, a run without timeouts is bounded by the work at hand plus 21 steps for each record posted on the way, and where only posts are left the writer is joined and everything posted before stop_ is written |
| `Logger.StepKeeps` | libkngin/detail/core/base/logger.cpp:103-169 | every step of a producer, the writer or deinit keeps the record and wakeup invariants |
| `Logger.PlayLogger` | libkngin/detail/core/base/logger.cpp:103-169 | any schedule played on a logger, every step that is possible in its turn and no other: posted records are those written followed by those waiting, and a writer that has left has written all that was posted before stop_ was set; what was played is a run of the machine, so the theorems about runs hold of the object |
| `Logger.PossiblyAll` | libkngin/detail/core/base/logger.cpp:103-169 | a schedule whose every step is possible in its turn is played as it is |
| `Logger.PossiblyNext` | libkngin/detail/core/base/logger.cpp:103-169 | after any schedule a further step is played exactly if it is possible then |
| `Logger.AsyncLogger.Take` | libkngin/detail/core/base/logger.cpp:103-169 | every step of the code keeps the invariant and means what StepMeans says |
| `Logger.StepMeans` | libkngin/detail/core/base/logger.cpp:122-160 | a post adds its record at the end of what is still to be written, a write takes the oldest, and nothing else changes it; the writer sleeps only with nothing to write and no stop_, leaves only with nothing to write and stop_, and otherwise points at the oldest record |
| `TaskLoop.NoLostWakeup` | libkngin/detail/core/event/event_loop.cpp:66-82 | in every reachable state with the loop blocked, a queued task not posted by a task has a signal pending or its poster is still between push and wakeup; none was posted by a handler |
| `TaskLoop.StrandedExactly` | libkngin/detail/core/event/event_loop.cpp:123-127 | a loop blocked with nobody about to wake it has tasks queued if and only if a task posted to its own loop since the queue was last swapped out or cleared |
| `TaskLoop.StrandedTask` | libkngin/detail/core/event/event_loop.cpp:280-296 | a concrete run in which a task posted by a task is left behind a blocked loop without a signal |
| `TaskLoop.TasksInOrder` | libkngin/detail/core/event/event_loop.cpp:280-296 | executed tasks, the swapped-out rest and the queue are, in this order, what was pushed; after stop cleared the queue the first two are still a prefix of it |
| `TaskLoop.OneMoreAfterStop` | libkngin/detail/core/event/event_loop.cpp:66-82 | once stop_ is set at most one more task starts, and none once the loop has ended |
| `TaskLoop.OrderKept` | libkngin/detail/core/event/event_loop.cpp:163-170 | every step keeps the order invariant |
| `TaskLoop.WakeupsKept` | libkngin/detail/core/event/event_loop.cpp:123-127 | every step keeps the wakeup invariant |
| `EventLoop.Loop.ProcessEvents` | libkngin/detail/core/event/event_loop.cpp:298-318 | the handlers that run are those of the captured events, in order, that no earlier handler of the batch removed, up to where stop_ is seen or a null event is dereferenced, which happens if and only if a handler other than the first removes its own event and throws; the reactor has forgotten exactly the events removed: those a handler that ran removed, and those whose own handler ran and threw |
| `EventLoop.FilteredUnique` | libkngin/detail/core/event/event_loop.cpp:298-318 | that description determines the dispatched events |
| `EventLoop.GoneExactly` | libkngin/detail/core/event/event_loop.cpp:304-312 | the events forgotten are those a handler that ran removed, and those whose own handler ran and threw |
| `EventLoop.Loop.Offer` | libkngin/detail/core/event/event_loop.cpp:304-316 | one event is dispatched exactly when no earlier handler removed it, and dereferences null exactly when it is not the first, removes itself and throws |
| `EventLoop.Loop.RemoveEvent` | libkngin/detail/core/event/event_loop.cpp:135-147 | outside a batch nothing is nulled; inside, every copy of the event from events_processing_ on and nothing else; the reactor forgets the event, and the result says whether it knew it |
| `EventLoop.CrashWitness` | libkngin/detail/core/event/event_loop.cpp:304-311 | a batch of two whose second handler dereferences null, while the first does the same unharmed |
| `EventLoop.Loop.Handle` | libkngin/detail/core/event/event_loop.cpp:305-312 | what a handler and its exception remove from the rest of the batch and from the reactor, and when the slot read again is null |
| `EventLoop.Loop.ProcessTasks` | libkngin/detail/core/event/event_loop.cpp:280-296 | runs a prefix of the queued tasks in order, all of them unless stop_ is seen; the queue left falls, between cut points from its start to its end, into what was pushed while each task ran, so nothing pushed is lost, added or out of order |
| `EventLoop.CutStep` | libkngin/detail/core/event/event_loop.cpp:163-170 | what one more task pushes is one more part at the end of the queue |
| `StopHandshake.DestroyedOnce` | libkngin/detail/core/event/event_loop.cpp:54-111 | the barrier is destroyed at most once, never under a waiting thread, and exactly once when both sides are through |
| `StopHandshake.NothingStartsExactly` | libkngin/detail/core/event/event_loop.cpp:66-121 | after a stop from another thread has returned, no task, handler or timer can start any more if and only if it has met the loop |
| `StopHandshake.ReturnsUnmet` | libkngin/detail/core/event/event_loop.cpp:101-102 | stop returns without meeting the loop if and only if it looks before run has set looping_ |
| `StopHandshake.UnmetRunsOn` | libkngin/detail/core/event/event_loop.cpp:44-121 | a loop missed in this way keeps stop_ clear and its barrier whole, and never ends |
| `StopHandshake.UnmetStartsLater` | libkngin/detail/core/event/event_loop.cpp:66-82 | and from every state after it something can still start |
| `StopHandshake.UnmetStop` | libkngin/detail/core/event/event_loop.cpp:44-121 | a run in which stop comes before run and something starts afterwards |
| `StopHandshake.NeverStuck` | libkngin/detail/core/event/event_loop.cpp:44-121 | from stop_ being set until both sides are through, one of the two can move without timeouts, events or other threads |
| `StopHandshake.EveryStepDescends` | libkngin/detail/core/event/event_loop.cpp:44-121 | from then on every step of either side, whatever it finds to do, lowers a well-founded measure |
| `StopHandshake.StepKeeps` | libkngin/detail/core/event/event_loop.cpp:44-121 | every step keeps the flag and meeting invariants |
| `Session.TcpSession.Live` | libkngin/detail/net/tcp/impl/posix_session.cpp:54-131 | any script of closes, writes, loop tasks and write events takes the session through exactly what the script says; once the queue is drained exactly one close handler has run, the first asked for, if any was; everything the script brings was accepted and nothing else; nothing was sent after the close, nothing sent was taken back, and sent plus queued or dropped bytes exceed the accepted ones by the excess of the sends; orderly sends, as any calm script has, have sent a prefix of what was accepted, and on an open session the rest is queued if and only if they are orderly; from a start whose queued bytes are attended to, as a new session is, and unless the last on_write was cut short by its schedule, a drained session that is neither stopping nor failed has nothing queued or has complete_ set; a session like a new one that is only written to accepts all of it and has sent exactly what it accepted once drained with as many clear turns as that takes |
| `Session.TcpSession.StreamState` | libkngin/detail/net/tcp/impl/posix_tcp_ostream.cpp:97-168 | at any time: nothing was sent since the close; sent bytes plus those queued, or dropped by the close, exceed the accepted ones by exactly the excess of the sends; and the stream is in order if and only if its sends are |
| `Session.ScriptIsAccepted` | libkngin/detail/net/tcp/impl/posix_session.cpp:54-131 | a script is accepted in order and nothing else: writes that are not refused and what arrives while an on_write runs |
| `Session.CalmScriptIsPlain` | libkngin/detail/net/tcp/impl/posix_session.cpp:180-182 | in a calm script every send takes all or nothing and every commit rewinds |
| `Session.ScriptAttended` | libkngin/detail/net/tcp/impl/posix_tcp_ostream.cpp:55-56 | after any script, queued bytes of a session that is neither stopping nor failed have complete_ set or an on_write in the task queue, unless the last on_write was cut short by its schedule |
| `Session.DrainAttended` | libkngin/detail/net/tcp/impl/posix_tcp_ostream.cpp:97-143 | the same once the queue is drained: what is queued then waits for a write event with complete_ set |
| `Session.EndedFor` | libkngin/detail/net/tcp/impl/posix_tcp_ostream.cpp:97-143 | an on_write that ends by itself leaves the session stopping, failed, without queued bytes, or with complete_ set |
| `Session.WritesWait` | libkngin/detail/net/tcp/impl/posix_session.cpp:54-62 | a script of writes on a waiting session queues and accepts exactly what it writes, in order |
| `Session.WaitingDrains` | libkngin/detail/net/tcp/impl/posix_tcp_ostream.cpp:97-166 | a waiting session drained with as many clear turns as there are chunks has nothing queued and is not closed |
| `Session.TcpSession.AllSent` | libkngin/detail/net/tcp/impl/posix_session.cpp:54-62 | the two together: a session only written to, all sends plain, nothing left to send |
| `Session.TcpSession.Drain` | libkngin/detail/net/tcp/impl/posix_session.cpp:117-129 | draining the queue closes a session whose close was asked for, with one handler run |
| `Session.TcpSession.Undergo` | libkngin/detail/net/tcp/impl/posix_session.cpp:54-131 | one call or loop action keeps the close protocol and sends nothing on a closed session |
| `Session.TcpSession.Close` | libkngin/detail/net/tcp/impl/posix_session.cpp:111-131 | queues one closure with the handler and marks the session closing, unless it is closed already; no other flag changes |
| `Session.TcpSession.RunClose` | libkngin/detail/net/tcp/impl/posix_session.cpp:117-129 | the first closure sets closed, eof and reset and no other flag, drops exactly what is queued and runs its handler; any later one changes nothing |
| `Session.TcpSession.RunTask` | libkngin/detail/net/tcp/impl/posix_session.cpp:117-129 | a closure leaves the session closed, and nothing is sent by a task of a stopped session |
| `Session.TcpSession.AsyncWrite` | libkngin/detail/net/tcp/impl/posix_session.cpp:54-62 | bytes are taken exactly when the session is neither closed, shut down nor closing; then all of them are queued, and one on_write is queued exactly when complete_ is clear, nothing otherwise |
| `Session.TcpSession.OnWrite` | libkngin/detail/net/tcp/impl/posix_session.cpp:180-182 | a write event plays its turns on the stream, accepts exactly what arrives while it runs, keeps sent, queued and accepted bytes in balance if and only if the sends of the schedule are orderly, sends nothing on a stopped session, and does not touch the close protocol |
| `Timers.TimerQueue.RunUntilQuiet` | libkngin/detail/core/event/event_loop.cpp:329-338 | repeating passes at one time ends; then every periodic timer has fired floor((now - first) / interval) + 1 times if it was due, its deadline is first + fires * interval, every due one-shot fired once, and nothing else fired; the history of firings has grown by exactly these |
| `Timers.TimerQueue.RunOverTime` | libkngin/detail/core/event/event_loop.cpp:172-220 | over time, with timers set between the readings of the clock: the queue has come to know exactly one timer for each setting, in their order and with their times, and the counts of all timers are right for the last reading |
| `Timers.TimerQueue.Pass` | libkngin/detail/core/event/event_loop.cpp:329-338 | one pass fires exactly the queued timers that are due, each once, in deadline order |
| `Timers.TimerQueue.GetReadyTimers` | libkngin/detail/core/event/timer_queue.cpp:81-97 | takes out exactly the timers with next <= now, earliest first, and leaves the rest |
| `Timers.TimerQueue.ProcessReadyTimers` | libkngin/detail/core/event/timer_queue.cpp:99-124 | the timers taken out fire once each, in their order, and are then queued again or closed |
| `Timers.TimerQueue.MinDelay` | libkngin/detail/core/event/timer_queue.cpp:72-79 | the greatest timestamp exactly when the queue is empty; 0 when a timer is due; otherwise exactly the time until the least deadline in the queue |
| `Timers.TimerQueue.Insert` | libkngin/detail/core/event/timer_queue.cpp:20-31 | the new timer is queued and has not fired |
| `Timers.TimerQueue.Top` | libkngin/detail/core/event/timer_queue.h:58-68 | an element with the least deadline, as the priority queue promises |
| `Timers.TimerQueue.AllReadyExactly` | libkngin/detail/core/event/timer_queue.cpp:86-95 | a timer is ready exactly when it has fired less often than it came due |
| `Timers.Timer.Fire` | libkngin/detail/core/event/timer_queue.cpp:107-121 | a periodic timer goes on at its next deadline, a one-shot is closed after one firing |
| `Timers.DueExactly` | libkngin/include/kngin/core/base/timeout.h:23-26 | the floor-division count exceeds k exactly when the deadline after k firings has come |
| `Timers.DueMonotone` | libkngin/include/kngin/core/base/timeout.h:39-42 | time going on never takes a due deadline back |
| `Codec.RoundTrip` | libkngin/include/kngin/core/base/buffer.h:136-252 | any list of typed values comes back from a buffer as it was written, and reading ends at end of data, if and only if it fits |
| `Codec.WriteAll` | libkngin/include/kngin/core/base/buffer.h:245-252 | values are written until one does not fit, exactly when the list is too long; what was written is intact |
| `Codec.ReadAll` | libkngin/include/kngin/core/base/buffer.h:143-151 | reading with the types that were written returns the values and ends at eof |
| `Codec.DecodeEncode` | libkngin/include/kngin/core/base/buffer.h:143-252 | every value of every 1, 2, 4 or 8 byte signed or unsigned type survives |
| `Codec.EncodeDecode` | libkngin/include/kngin/core/base/buffer.h:143-252 | every byte pattern is the encoding of exactly the value it is read as |
| `Codec.EncodeAt` | libkngin/include/kngin/core/base/buffer.h:245-252 | byte i of a stored value is digit i, in base 256 and from the lowest, of its two's complement |
| `Codec.InBuffer.WriteValue` | libkngin/include/kngin/core/base/buffer.h:245-252 | appends the encoding if there is room, else changes nothing; no byte outside the new part is touched |
| `Codec.InBuffer.Write` | libkngin/detail/core/base/buffer.cpp:98-106 | appends the bytes if there is room, else changes nothing; no byte outside the new part is touched |
| `Codec.OutBuffer.ReadValue` | libkngin/include/kngin/core/base/buffer.h:143-151 | returns the value at the front if there is one, consuming it only when asked to; else changes nothing |
| `Codec.OutBuffer.Read` | libkngin/detail/core/base/buffer.cpp:33-42 | returns and consumes the first n bytes if there are as many, else changes nothing |
| `Codec.Dump` | libkngin/detail/core/base/buffer.cpp:58-69 | two digits a byte and a terminator; decoding the digits gives the bytes back |
| `Codec.UndumpDump` | libkngin/detail/core/base/buffer.cpp:124-135 | the printed form determines the bytes |
| `Codec.HexAt` | libkngin/detail/core/base/buffer.cpp:58-69 | the digits of byte j stand at 2 * j, the high one first |

## Left out

- Ostream.OutStream.AppendBuffer: an append is atomic for the loop; the source moves `windex_` chunk by chunk under its mutex while the loop reads it without, which a run with two appends stands for.
- EventLoop.Loop.RemoveEvent: the reactor is the set of events it knows; removal from other threads is outside the loop's protocol.
- EventLoop.Loop.ProcessEvents: after a null dereference nothing is claimed about the loop.
- Barrier.RoundIsSafe: one round after `reinit`, as the event loop uses it; reuse without the end of a round is not covered.
- StopHandshake.DestroyedOnce: one call of `stop`, no exception escaping the loop; concurrent stoppers and a second `run` after `stop` (`stop_` is never reset) are not covered.
- Timers.TimerQueue.RunUntilQuiet: no cancellation, no negative interval, no handler that inserts or closes timers; closing a queued timer changes its key in place.
- Logger.ShutdownEnds: a wait that times out is a step the bound does not count; none is needed.
- The task queue is modelled in TaskLoop (order, wakeups), EventLoop (one pass) and Session (the session's own closures) separately; no lemma relates the three.
- ObjMgr.Manager.ForEachActing: a callback that removes another object than the one it was given is not covered; if that is the next one, the saved cursor is lost.
- Ostream.OutStream.Clear: terminal; the write index is not reset, so a cleared stream is never used again.
- Ostream.OutStream.AsyncWriteAll: allocation always succeeds, so the count of buffers done is always all of them.
- Session.TcpSession.AsyncWrite: one buffer; the overload for several buffers has the same guard.
- Session.TcpSession.OnWrite: what other threads append while it runs does not queue an `on_write` of its own; OutputProgress has that interleaving.
- Codec.Encode: assumes a little-endian host; the source copies the host's representation.
- The state machines of TaskLoop, StopHandshake and OutputProgress are on values; the concurrent interleaving of class methods, weak memory and torn reads are not captured.
- Out-of-band output, the TCP input stream, the level-triggered branches of the output stream (a session always enables edge triggering).
- Sockets, descriptors, addresses, epoll, IOCP, timerfd, thread, mutex and condition variable wrappers: the environment.
- `obj_mgr::swap`, `list::swap`, `list::empty`, the connector, destructors, raw memory release, shared ownership of objects.
- 64-bit wrap-around of sizes, indices and timestamps.
- Log formatting, file rolling, error tables, bit macros, scoped guards, plain accessors of buffers.
